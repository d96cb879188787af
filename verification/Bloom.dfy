/** The sharded trace-id bloom filter (crates/blockstore/src/bloom.rs). Words are 64-bit. */
module Bloom {
  import opened Bytes
  import opened Bits

  type TraceId = id: bytes | |id| == 16 witness [0, 0, 0, 0, 0, 0, 0, 0, 0, 0, 0, 0, 0, 0, 0, 0]

  const FNV_OFFSET: nat := 2_166_136_261
  const FNV_PRIME: nat := 16_777_619

  /** FNV-1: multiply, then mix in the byte. */
  function Fnv1(s: bytes): nat
  {
    if s == [] then FNV_OFFSET else Xor(Fnv1(s[..|s| - 1]) * FNV_PRIME % U32_LIMIT, s[|s| - 1])
  }

  /** FNV-1a: mix in the byte, then multiply. */
  function Fnv1a(s: bytes): nat
  {
    if s == [] then FNV_OFFSET else Xor(Fnv1a(s[..|s| - 1]), s[|s| - 1]) * FNV_PRIME % U32_LIMIT
  }

  method HashFnv1(s: bytes) returns (hash: nat)
    ensures hash == Fnv1(s)
  {
    hash := FNV_OFFSET;
    for i := 0 to |s|
      invariant hash == Fnv1(s[..i])
    {
      assert s[..i + 1][..i] == s[..i];
      hash := hash * FNV_PRIME % U32_LIMIT;
      hash := Xor(hash, s[i]);
    }
    assert s[..|s|] == s;
  }

  method HashFnv1a(s: bytes) returns (hash: nat)
    ensures hash == Fnv1a(s)
  {
    hash := FNV_OFFSET;
    for i := 0 to |s|
      invariant hash == Fnv1a(s[..i])
    {
      assert s[..i + 1][..i] == s[..i];
      hash := Xor(hash, s[i]);
      hash := hash * FNV_PRIME % U32_LIMIT;
    }
    assert s[..|s|] == s;
  }

  datatype Shard = Shard(bits: seq<nat>, numBits: nat, k: nat)

  predicate ValidShard(shard: Shard)
  {
    shard.numBits != 0 && |shard.bits| >= (shard.numBits + 63) / 64
  }

  // ---- The words as a set of positions ----

  predicate Has(bits: seq<nat>, p: nat)
  {
    p / 64 < |bits| && And(bits[p / 64], Bit(p % 64)) != 0
  }

  function SetPosition(bits: seq<nat>, p: nat): seq<nat>
    requires p / 64 < |bits|
  {
    bits[p / 64 := Or(bits[p / 64], Bit(p % 64))]
  }

  /** Setting a position adds it and nothing else. */
  lemma SetPositionAdds(bits: seq<nat>, p: nat, q: nat)
    requires p / 64 < |bits|
    ensures Has(SetPosition(bits, p), q) <==> Has(bits, q) || q == p
  {
    if q / 64 == p / 64 {
      SetBit(bits[p / 64], p % 64, q % 64);
    }
  }

  /** Where the `i`-th probe of an id falls. */
  function Probe(numBits: nat, id: TraceId, i: nat): (p: nat)
    requires numBits != 0
    ensures p < numBits
  {
    (Fnv1(id) + i * Or(Fnv1a(id), 1) % U64_LIMIT) % U64_LIMIT % numBits
  }

  ghost predicate IsProbe(shard: Shard, id: TraceId, p: nat)
    requires shard.numBits != 0
  {
    exists i :: 0 <= i < shard.k && Probe(shard.numBits, id, i) == p
  }

  method Probes(shard: Shard, id: TraceId) returns (probes: seq<nat>)
    requires ValidShard(shard)
    ensures |probes| == shard.k && forall i :: 0 <= i < |probes| ==> probes[i] == Probe(shard.numBits, id, i)
  {
    var h1 := HashFnv1(id);
    var hash := HashFnv1a(id);
    var h2 := Or(hash, 1);
    probes := [];
    for i := 0 to shard.k
      invariant |probes| == i && forall j :: 0 <= j < i ==> probes[j] == Probe(shard.numBits, id, j)
    {
      probes := probes + [(h1 + i * h2 % U64_LIMIT) % U64_LIMIT % shard.numBits];
    }
  }

  /** Adds exactly the id's probes to the shard's positions. */
  method InsertInto(shard: Shard, id: TraceId) returns (after: Shard)
    requires ValidShard(shard)
    ensures after.numBits == shard.numBits && after.k == shard.k && |after.bits| == |shard.bits|
    ensures forall q :: Has(after.bits, q) <==> Has(shard.bits, q) || IsProbe(shard, id, q)
  {
    var probes := Probes(shard, id);
    var bits: seq<nat> := shard.bits;
    for i := 0 to |probes|
      invariant |bits| == |shard.bits|
      invariant forall q :: Has(bits, q) <==> Has(shard.bits, q) || q in probes[..i]
    {
      ghost var before := bits;
      var p := probes[i];
      bits := bits[p / 64 := Or(bits[p / 64], Bit(p % 64))];
      forall q ensures Has(bits, q) <==> Has(before, q) || q == p {
        SetPositionAdds(before, p, q);
      }
      assert probes[..i + 1] == probes[..i] + [p];
    }
    assert probes[..|probes|] == probes;
    ProbesAreListed(shard, id, probes);
    after := shard.(bits := bits);
  }

  lemma ProbesAreListed(shard: Shard, id: TraceId, probes: seq<nat>)
    requires shard.numBits != 0 && |probes| == shard.k
    requires forall i :: 0 <= i < |probes| ==> probes[i] == Probe(shard.numBits, id, i)
    ensures forall q :: q in probes <==> IsProbe(shard, id, q)
  {
    forall q ensures q in probes <==> IsProbe(shard, id, q) {
      if IsProbe(shard, id, q) {
        var i :| 0 <= i < shard.k && Probe(shard.numBits, id, i) == q;
        assert probes[i] == q;
      }
    }
  }

  /** True exactly when every probe of the id is set. */
  method ShardMayContain(shard: Shard, id: TraceId) returns (r: bool)
    requires ValidShard(shard)
    ensures r <==> forall p :: IsProbe(shard, id, p) ==> Has(shard.bits, p)
  {
    var probes := Probes(shard, id);
    ProbesAreListed(shard, id, probes);
    for i := 0 to |probes|
      invariant forall j :: 0 <= j < i ==> Has(shard.bits, probes[j])
    {
      if And(shard.bits[probes[i] / 64], Bit(probes[i] % 64)) == 0 {
        assert probes[i] in probes;
        return false;
      }
    }
    return true;
  }

  // ---- Shards ----

  predicate ValidShards(shards: seq<Shard>)
  {
    shards != [] && forall i :: 0 <= i < |shards| ==> ValidShard(shards[i])
  }

  /** Bit position `p` lies in one of the words. */
  predicate HasWord(bits: seq<nat>, p: nat) { p / 64 < |bits| }

  /** A lookup has a position to take modulo, and every position it can reach has a word. */
  ghost predicate Addressable(shard: Shard)
  {
    shard.numBits != 0 && forall p: nat :: p < shard.numBits ==> HasWord(shard.bits, p)
  }

  lemma ValidIsAddressable(shard: Shard)
    ensures ValidShard(shard) <==> Addressable(shard)
  {
    if Addressable(shard) {
      assert HasWord(shard.bits, shard.numBits - 1);
    }
  }

  method Validate(shards: seq<Shard>) returns (ok: bool)
    ensures ok <==> ValidShards(shards)
    ensures ok <==> shards != [] && forall i :: 0 <= i < |shards| ==> Addressable(shards[i])
  {
    forall i | 0 <= i < |shards| ensures ValidShard(shards[i]) <==> Addressable(shards[i]) {
      ValidIsAddressable(shards[i]);
    }
    if shards == [] {
      return false;
    }
    for i := 0 to |shards|
      invariant forall j :: 0 <= j < i ==> ValidShard(shards[j])
    {
      if shards[i].numBits == 0 || |shards[i].bits| < (shards[i].numBits + 63) / 64 {
        return false;
      }
    }
    return true;
  }

  function ShardOf(count: nat, id: TraceId): (s: nat)
    requires count != 0
    ensures s < count
  {
    Fnv1(id) % count
  }

  /** Position `p` of shard `s` is a probe of one of the inserted ids. */
  ghost predicate Covered(start: seq<Shard>, ids: seq<TraceId>, s: nat, p: nat)
    requires ValidShards(start) && s < |start|
  {
    exists i :: 0 <= i < |ids| && ShardOf(|start|, ids[i]) == s && IsProbe(start[s], ids[i], p)
  }

  /** Every probe of the id is set at the start or covered. */
  ghost predicate Reported(start: seq<Shard>, ids: seq<TraceId>, id: TraceId)
    requires ValidShards(start)
  {
    var s := ShardOf(|start|, id);
    forall p :: IsProbe(start[s], id, p) ==> Has(start[s].bits, p) || Covered(start, ids, s, p)
  }

  ghost predicate SameShape(a: Shard, b: Shard)
  {
    a.numBits == b.numBits && a.k == b.k && |a.bits| == |b.bits|
  }

  /** A filter over shards loaded or built as `start`, after inserting `ids` in order. */
  class ShardedTraceBloom {
    var shards: seq<Shard>
    ghost const start: seq<Shard>
    ghost var ids: seq<TraceId>

    /** The set positions are those set at the start and the probes of the inserted ids. */
    ghost predicate Valid() reads this
    {
      && ValidShards(start) && |shards| == |start|
      && (forall s :: 0 <= s < |shards| ==> SameShape(shards[s], start[s]))
      && forall s, p :: 0 <= s < |shards| ==>
           (Has(shards[s].bits, p) <==> Has(start[s].bits, p) || Covered(start, ids, s, p))
    }

    constructor (shards: seq<Shard>)
      requires ValidShards(shards)
      ensures Valid() && start == shards && ids == []
    {
      this.shards, start, ids := shards, shards, [];
    }

    method Insert(id: TraceId)
      requires Valid()
      modifies this
      ensures Valid() && ids == old(ids) + [id]
    {
      var hash := HashFnv1(id);
      var s := hash % |shards|;
      assert ValidShard(shards[s]);
      var after := InsertInto(shards[s], id);
      CoverNext(start, ids, id);
      shards := shards[s := after];
      ids := ids + [id];
    }

    /** No false negatives: every inserted id is reported. Another id is reported exactly when all
        its probes are set from the start or covered by inserted ids. */
    method MaybeContains(id: TraceId) returns (r: bool)
      requires Valid()
      ensures id in ids ==> r
      ensures r <==> Reported(start, ids, id)
    {
      var hash := HashFnv1(id);
      var s := hash % |shards|;
      assert ValidShard(start[s]) && SameShape(shards[s], start[s]);
      ReportedIff(shards[s], start, ids, id);
      r := ShardMayContain(shards[s], id);
    }
  }

  lemma ReportedIff(shard: Shard, start: seq<Shard>, ids: seq<TraceId>, id: TraceId)
    requires ValidShards(start) && SameShape(shard, start[ShardOf(|start|, id)]) && shard.numBits != 0
    requires var s := ShardOf(|start|, id);
             forall p :: Has(shard.bits, p) <==> Has(start[s].bits, p) || Covered(start, ids, s, p)
    ensures Reported(start, ids, id) <==> forall p :: IsProbe(shard, id, p) ==> Has(shard.bits, p)
    ensures id in ids ==> Reported(start, ids, id)
  {
    var s := ShardOf(|start|, id);
    forall p ensures IsProbe(shard, id, p) <==> IsProbe(start[s], id, p) {
    }
    if Reported(start, ids, id) {
      forall p | IsProbe(shard, id, p) ensures Has(shard.bits, p) {
        assert IsProbe(start[s], id, p);
      }
    }
  }

  lemma CoverNext(start: seq<Shard>, ids: seq<TraceId>, id: TraceId)
    requires ValidShards(start)
    ensures forall s, p :: 0 <= s < |start| ==>
              (Covered(start, ids + [id], s, p) <==>
               Covered(start, ids, s, p) || (s == ShardOf(|start|, id) && IsProbe(start[s], id, p)))
  {
    var after := ids + [id];
    forall s, p | 0 <= s < |start|
      ensures Covered(start, after, s, p) <==>
              Covered(start, ids, s, p) || (s == ShardOf(|start|, id) && IsProbe(start[s], id, p))
    {
      if Covered(start, ids, s, p) {
        var i :| 0 <= i < |ids| && ShardOf(|start|, ids[i]) == s && IsProbe(start[s], ids[i], p);
        assert after[i] == ids[i];
      }
      assert after[|ids|] == id;
    }
  }
}
