/** Incremental decoding: a step function looks at the front of a buffer and either waits for
    more bytes, consumes some, or stops for good. The spool scan, the Connect stream reader and
    the PostgreSQL frontend decoder are all instances. */
module Incremental {
  import opened Bytes

  datatype Step<S> = NeedMore | Advance(state: S, used: nat) | Halt(state: S)

  type Stepper<!S> = (S, bytes) -> Step<S>

  datatype Drained<S> = Drained(state: S, rest: bytes, halted: bool)

  /** Runs `step` until it waits or stops. What follows a stop is discarded. */
  function Drain<S>(step: Stepper<S>, s: S, buf: bytes): (d: Drained<S>)
    ensures |d.rest| <= |buf|
    decreases |buf|
  {
    match step(s, buf)
    case NeedMore => Drained(s, buf, false)
    case Halt(s') => Drained(s', [], true)
    case Advance(s', n) => if 0 < n <= |buf| then Drain(step, s', buf[n..]) else Drained(s, buf, false)
  }

  /** A decision once taken does not depend on bytes that arrive later. */
  ghost predicate Stable<S(!new)>(step: Stepper<S>)
  {
    forall s, b, more {:trigger step(s, b + more)} :: !step(s, b).NeedMore? ==>
      step(s, b + more) == step(s, b) && (step(s, b).Advance? ==> 0 < step(s, b).used <= |b|)
  }

  /** Draining a buffer in two parts is draining it at once. */
  lemma {:induction false} DrainConcat<S(!new)>(step: Stepper<S>, s: S, a: bytes, b: bytes)
    requires Stable(step)
    ensures var first := Drain(step, s, a);
            Drain(step, s, a + b) == if first.halted then first else Drain(step, first.state, first.rest + b)
    decreases |a|
  {
    assert !step(s, a).NeedMore? ==> step(s, a + b) == step(s, a);
    if step(s, a).Advance? {
      assert step(s, a + []) == step(s, a) by { assert a + [] == a; }
      var n := step(s, a).used;
      assert (a + b)[n..] == a[n..] + b;
      DrainConcat(step, step(s, a).state, a[n..], b);
    }
  }

  /** What is left over stays left over until more arrives. */
  lemma {:induction false} DrainIsIdle<S>(step: Stepper<S>, s: S, buf: bytes)
    ensures var d := Drain(step, s, buf); !d.halted ==> Drain(step, d.state, d.rest) == d
    decreases |buf|
  {
    if step(s, buf).Advance? && 0 < step(s, buf).used <= |buf| {
      DrainIsIdle(step, step(s, buf).state, buf[step(s, buf).used..]);
    }
  }

  function Flatten(chunks: seq<bytes>): bytes
  {
    if chunks == [] then [] else Flatten(chunks[..|chunks| - 1]) + chunks[|chunks| - 1]
  }
}
