/** The PostgreSQL regression baseline (scripts/gres-pg-regress-baseline.py): a recorded set of
    failing tests that may only shrink. */
module Ratchet {
  import opened Bytes

  type Text = bytes

  datatype Failure = Failure(expected: Text, hunks: int, changedLines: int, sha256: Text)

  datatype Document = Document(postgresTag: Text, scheduleSha256: Text, schedule: seq<Text>, failures: map<Text, Failure>,
                               scheduledTests: int, passed: int, total: int)

  predicate Distinct(names: seq<Text>) { forall i, j :: 0 <= i < j < |names| ==> names[i] != names[j] }

  /** Sixty-four lower-case hexadecimal digits. */
  predicate IsSha256(s: Text) { |s| == 64 && forall i :: 0 <= i < |s| ==> 48 <= s[i] < 58 || 97 <= s[i] < 103 }

  predicate EndsInOut(s: Text) { |s| >= 4 && s[|s| - 4..] == Ascii(".out") }

  predicate ValidFailure(f: Failure)
  {
    EndsInOut(f.expected) && f.hunks >= 1 && f.changedLines >= 1 && IsSha256(f.sha256)
  }

  predicate ValidDocument(d: Document)
  {
    && d.postgresTag != [] && IsSha256(d.scheduleSha256)
    && [] !in d.schedule && Distinct(d.schedule)
    && (forall t :: t in d.failures ==> t in d.schedule && ValidFailure(d.failures[t]))
    && d.scheduledTests == d.total == |d.schedule| && d.passed == d.total - |d.failures|
  }

  predicate SameSchedule(a: Document, b: Document)
  {
    a.postgresTag == b.postgresTag && a.scheduleSha256 == b.scheduleSha256 && a.schedule == b.schedule
  }

  // ---- Classification ----

  datatype Class = Passing | New | Removed | Worsened | SameCountDifferent | Improved | Exact

  function ClassOf(baseline: Document, actual: Document, t: Text): Class
  {
    if t !in baseline.failures && t !in actual.failures then Passing
    else if t !in baseline.failures then New
    else if t !in actual.failures then Removed
    else
      var before, after := baseline.failures[t], actual.failures[t];
      if after == before then Exact
      else if after.changedLines > before.changedLines then Worsened
      else if after.changedLines < before.changedLines then Improved
      else SameCountDifferent
  }

  /** The first `n` scheduled tests of a class, in schedule order. */
  function Listed(baseline: Document, actual: Document, n: nat, c: Class): seq<Text>
    requires n <= |baseline.schedule|
  {
    if n == 0 then []
    else
      var t := baseline.schedule[n - 1];
      Listed(baseline, actual, n - 1, c) + (if ClassOf(baseline, actual, t) == c then [t] else [])
  }

  datatype Classes = Classes(added: seq<Text>, removed: seq<Text>, worsened: seq<Text>, sameCount: seq<Text>,
                             improved: seq<Text>, exact: seq<Text>)

  function ClassesUpTo(baseline: Document, actual: Document, n: nat): Classes
    requires n <= |baseline.schedule|
  {
    Classes(Listed(baseline, actual, n, New), Listed(baseline, actual, n, Removed), Listed(baseline, actual, n, Worsened),
            Listed(baseline, actual, n, SameCountDifferent), Listed(baseline, actual, n, Improved),
            Listed(baseline, actual, n, Exact))
  }

  method Compare(baseline: Document, actual: Document) returns (classes: Classes)
    ensures classes == ClassesUpTo(baseline, actual, |baseline.schedule|)
  {
    classes := Classes([], [], [], [], [], []);
    for i := 0 to |baseline.schedule|
      invariant classes == ClassesUpTo(baseline, actual, i)
    {
      var t := baseline.schedule[i];
      match ClassOf(baseline, actual, t) {
        case Passing =>
        case New => classes := classes.(added := classes.added + [t]);
        case Removed => classes := classes.(removed := classes.removed + [t]);
        case Exact => classes := classes.(exact := classes.exact + [t]);
        case Worsened => classes := classes.(worsened := classes.worsened + [t]);
        case Improved => classes := classes.(improved := classes.improved + [t]);
        case SameCountDifferent => classes := classes.(sameCount := classes.sameCount + [t]);
      }
    }
  }

  ghost predicate Absent(baseline: Document, actual: Document, c: Class)
  {
    forall t :: t in baseline.schedule ==> ClassOf(baseline, actual, t) != c
  }

  lemma {:induction false} ListedIsEmpty(baseline: Document, actual: Document, n: nat, c: Class)
    requires n <= |baseline.schedule|
    ensures Listed(baseline, actual, n, c) == [] <==>
            forall i :: 0 <= i < n ==> ClassOf(baseline, actual, baseline.schedule[i]) != c
  {
    if n > 0 {
      ListedIsEmpty(baseline, actual, n - 1, c);
    }
  }

  lemma EmptyIffAbsent(baseline: Document, actual: Document, c: Class)
    ensures Listed(baseline, actual, |baseline.schedule|, c) == [] <==> Absent(baseline, actual, c)
  {
    ListedIsEmpty(baseline, actual, |baseline.schedule|, c);
  }

  /** Every test that still fails failed before, the same way or with more changed lines. */
  ghost predicate NoWorse(baseline: Document, actual: Document)
  {
    forall t :: t in actual.failures ==>
      && t in baseline.failures
      && (actual.failures[t] == baseline.failures[t] || actual.failures[t].changedLines < baseline.failures[t].changedLines)
  }

  predicate Unsafe(c: Classes) { c.added != [] || c.worsened != [] || c.sameCount != [] }

  predicate Changed(c: Classes) { c.improved != [] || c.removed != [] }

  lemma SafeIffNoWorse(baseline: Document, actual: Document)
    requires ValidDocument(actual) && baseline.schedule == actual.schedule
    ensures Unsafe(ClassesUpTo(baseline, actual, |baseline.schedule|)) <==> !NoWorse(baseline, actual)
  {
    EmptyIffAbsent(baseline, actual, New);
    EmptyIffAbsent(baseline, actual, Worsened);
    EmptyIffAbsent(baseline, actual, SameCountDifferent);
    if Absent(baseline, actual, New) && Absent(baseline, actual, Worsened) && Absent(baseline, actual, SameCountDifferent) {
      forall t | t in actual.failures
        ensures t in baseline.failures
        ensures actual.failures[t] == baseline.failures[t] || actual.failures[t].changedLines < baseline.failures[t].changedLines
      {
        assert t in baseline.schedule;
        var c := ClassOf(baseline, actual, t);
        assert c != New && c != Worsened && c != SameCountDifferent;
      }
    }
  }

  lemma UnchangedTest(baseline: Document, actual: Document, t: Text)
    requires ValidDocument(baseline) && t in baseline.failures && NoWorse(baseline, actual)
    requires Absent(baseline, actual, Improved) && Absent(baseline, actual, Removed)
    ensures t in actual.failures && actual.failures[t] == baseline.failures[t]
  {
    assert t in baseline.schedule;
    var c := ClassOf(baseline, actual, t);
    assert c != Removed && c != Improved;
  }

  lemma ChangedIffDifferent(baseline: Document, actual: Document)
    requires ValidDocument(baseline) && baseline.schedule == actual.schedule && NoWorse(baseline, actual)
    ensures Changed(ClassesUpTo(baseline, actual, |baseline.schedule|)) <==> baseline.failures != actual.failures
  {
    EmptyIffAbsent(baseline, actual, Improved);
    EmptyIffAbsent(baseline, actual, Removed);
    if Absent(baseline, actual, Improved) && Absent(baseline, actual, Removed) {
      forall t | t in baseline.failures ensures t in actual.failures && actual.failures[t] == baseline.failures[t] {
        UnchangedTest(baseline, actual, t);
      }
      assert actual.failures == baseline.failures;
    }
  }

  // ---- The commands ----

  datatype Outcome = Exit(code: nat) | Raised

  /** The baseline file, which may hold anything that parses, valid or not. */
  class BaselineFile {
    var baseline: Option<Document>

    /** Exit code 0 exactly when the failures are those of a valid baseline for the same schedule. */
    method Check(actual: Document) returns (r: Outcome)
      ensures r.Raised? <==> !(ValidDocument(actual) && baseline.Some? && ValidDocument(baseline.value)
                               && SameSchedule(baseline.value, actual))
      ensures r == Exit(0) ==> baseline.Some? && baseline.value.failures == actual.failures
      ensures r.Exit? && baseline.value.failures == actual.failures ==> r.code == 0
    {
      if !ValidDocument(actual) || baseline.None? || !ValidDocument(baseline.value) || !SameSchedule(baseline.value, actual) {
        return Raised;
      }
      var classes := Compare(baseline.value, actual);
      SafeIffNoWorse(baseline.value, actual);
      if NoWorse(baseline.value, actual) {
        ChangedIffDifferent(baseline.value, actual);
      }
      return Exit(if Unsafe(classes) || Changed(classes) then 1 else 0);
    }

    /** Replaces the baseline exactly when no failure is new or worse and some failure is gone or
        smaller; otherwise raises and leaves the file alone. */
    method Update(actual: Document) returns (r: Outcome)
      modifies this
      ensures old(MayReplace(baseline, actual)) ==> r == Exit(0) && baseline == Some(actual)
      ensures !old(MayReplace(baseline, actual)) ==> r == Raised && baseline == old(baseline)
    {
      if !ValidDocument(actual) || baseline.None? || !ValidDocument(baseline.value) || !SameSchedule(baseline.value, actual) {
        return Raised;
      }
      var classes := Compare(baseline.value, actual);
      SafeIffNoWorse(baseline.value, actual);
      if Unsafe(classes) {
        return Raised;
      }
      ChangedIffDifferent(baseline.value, actual);
      if !Changed(classes) {
        return Raised;
      }
      baseline := Some(actual);
      return Exit(0);
    }
  }

  ghost predicate MayReplace(baseline: Option<Document>, actual: Document)
  {
    && ValidDocument(actual) && baseline.Some? && ValidDocument(baseline.value) && SameSchedule(baseline.value, actual)
    && NoWorse(baseline.value, actual) && baseline.value.failures != actual.failures
  }

  // ---- The ratchet ----

  predicate Positive(d: Document) { forall t :: t in d.failures ==> d.failures[t].changedLines >= 1 }

  /** Changed lines over the first `n` scheduled tests. */
  function Lines(d: Document, n: nat): nat
    requires n <= |d.schedule| && Positive(d)
  {
    if n == 0 then 0
    else
      var t := d.schedule[n - 1];
      Lines(d, n - 1) + (if t in d.failures then d.failures[t].changedLines else 0)
  }

  function TotalLines(d: Document): nat
    requires ValidDocument(d)
  {
    Lines(d, |d.schedule|)
  }

  lemma {:induction false} LinesShrink(a: Document, b: Document, n: nat)
    requires Positive(a) && Positive(b) && a.schedule == b.schedule && n <= |a.schedule| && NoWorse(a, b)
    ensures Lines(b, n) <= Lines(a, n)
    ensures (exists i :: 0 <= i < n && Differs(a, b, a.schedule[i])) ==> Lines(b, n) < Lines(a, n)
  {
    if n > 0 {
      LinesShrink(a, b, n - 1);
    }
  }

  predicate Differs(a: Document, b: Document, t: Text)
  {
    t in a.failures && (t !in b.failures || a.failures[t] != b.failures[t])
  }

  /** Every accepted update strictly lowers the total of changed lines. */
  lemma UpdateShrinks(a: Document, b: Document)
    requires MayReplace(Some(a), b)
    ensures TotalLines(b) < TotalLines(a)
  {
    LinesShrink(a, b, |a.schedule|);
    var t :| t in a.failures && (t !in b.failures || a.failures[t] != b.failures[t]);
    assert t in a.schedule;
    var i :| 0 <= i < |a.schedule| && a.schedule[i] == t;
    assert Differs(a, b, a.schedule[i]);
  }

  /** A history of baselines, each an accepted update of the one before. */
  ghost predicate IsHistory(h: seq<Document>)
  {
    h != [] && ValidDocument(h[0]) && forall i :: 0 <= i < |h| - 1 ==> MayReplace(Some(h[i]), h[i + 1])
  }

  /** Over every history no test that passed in an earlier baseline fails in a later one, no failing
      test gains changed lines, and there are at most as many updates as lines at the start. */
  lemma {:induction false} HistoryOnlyImproves(h: seq<Document>)
    requires IsHistory(h)
    ensures var first, last := h[0], h[|h| - 1];
            && ValidDocument(last) && last.schedule == first.schedule
            && (forall t :: t in last.failures ==>
                  t in first.failures && last.failures[t].changedLines <= first.failures[t].changedLines)
            && TotalLines(last) + (|h| - 1) <= TotalLines(first)
  {
    if |h| > 1 {
      var init := h[..|h| - 1];
      HistoryOnlyImproves(init);
      UpdateShrinks(h[|h| - 2], h[|h| - 1]);
    }
  }
}
