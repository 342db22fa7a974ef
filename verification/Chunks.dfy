/** What buffer_list_aggregate does to the list, on values. */
module Chunks {
  import opened Offsets
  import opened ByteBuffer

  type Chunk = seq<Byte>

  /** The stream of bytes that a list of chunks holds. */
  ghost function Flatten(cs: seq<Chunk>): seq<Byte> {
    if cs == [] then [] else cs[0] + Flatten(cs[1..])
  }

  /** The chunks that are merged: the loop stops once their size exceeds max. */
  ghost function CountFrom(cs: seq<Chunk>, max: nat, size: nat): (n: nat)
    ensures n <= |cs|
  {
    if cs == [] || size > max then 0 else 1 + CountFrom(cs[1..], max, size + |cs[0]|)
  }

  /** Copying a chunk of BUF_SIZE_MAX bytes or more fails, and nobody looks. */
  predicate Copied(c: Chunk) {
    |c| < BUF_SIZE_MAX
  }

  ghost function Kept(cs: seq<Chunk>): seq<Byte> {
    if cs == [] then [] else (if Copied(cs[0]) then cs[0] else []) + Kept(cs[1..])
  }

  ghost function Aggregated(cs: seq<Chunk>, max: nat): seq<Chunk> {
    var n := CountFrom(cs, max, 0);
    if n < 2 then cs else [Kept(cs[..n])] + cs[n..]
  }

  /** The merged chunks are the fewest that exceed max together, or all. */
  lemma {:induction false} CountMeaning(cs: seq<Chunk>, max: nat, size: nat)
    ensures var n := CountFrom(cs, max, size);
      && (forall k :: 0 <= k < n ==> size + |Flatten(cs[..k])| <= max)
      && (n < |cs| ==> size + |Flatten(cs[..n])| > max)
  {
    var n := CountFrom(cs, max, size);
    if cs != [] && size <= max {
      CountMeaning(cs[1..], max, size + |cs[0]|);
      forall k | 0 < k <= n ensures Flatten(cs[..k]) == cs[0] + Flatten(cs[1..][..k - 1]) {
        assert cs[..k][1..] == cs[1..][..k - 1];
      }
    }
  }

  lemma Associate(a: Chunk, b: Chunk, c: Chunk)
    ensures a + (b + c) == a + b + c
  {
  }

  lemma {:induction false} FlattenJoin(a: seq<Chunk>, b: seq<Chunk>)
    ensures Flatten(a + b) == Flatten(a) + Flatten(b)
  {
    if a == [] {
      assert a + b == b;
    } else {
      FlattenJoin(a[1..], b);
      assert (a + b)[1..] == a[1..] + b;
      Associate(a[0], Flatten(a[1..]), Flatten(b));
    }
  }

  lemma {:induction false} KeptLength(cs: seq<Chunk>)
    ensures |Kept(cs)| <= |Flatten(cs)|
    ensures |Kept(cs)| == |Flatten(cs)| <==> forall c :: c in cs ==> Copied(c)
    ensures (forall c :: c in cs ==> Copied(c)) ==> Kept(cs) == Flatten(cs)
  {
    if cs != [] {
      KeptLength(cs[1..]);
      assert forall c :: c in cs <==> c == cs[0] || c in cs[1..];
    }
  }

  lemma FlattenNone()
    ensures Flatten([]) == [] && Kept([]) == []
  {
  }

  lemma {:induction false} KeptJoin(a: seq<Chunk>, b: seq<Chunk>)
    ensures Kept(a + b) == Kept(a) + Kept(b)
  {
    if a == [] {
      assert a + b == b;
    } else {
      KeptJoin(a[1..], b);
      assert (a + b)[1..] == a[1..] + b;
      Associate(if Copied(a[0]) then a[0] else [], Kept(a[1..]), Kept(b));
    }
  }

  lemma CountNext(cs: seq<Chunk>, max: nat, size: nat, k: nat)
    requires k < |cs| && size <= max
    ensures CountFrom(cs[k..], max, size) == 1 + CountFrom(cs[k + 1..], max, size + |cs[k]|)
    ensures |Flatten(cs[..k + 1])| == |Flatten(cs[..k])| + |cs[k]|
  {
    assert cs[k..][1..] == cs[k + 1..];
    assert cs[..k + 1] == cs[..k] + [cs[k]];
    FlattenJoin(cs[..k], [cs[k]]);
    One(cs[k]);
  }

  lemma CountDone(cs: seq<Chunk>, max: nat, size: nat)
    requires cs == [] || size > max
    ensures CountFrom(cs, max, size) == 0
  {
  }

  /** One merged chunk more, and the room that the copies need. */
  lemma KeptNext(cs: seq<Chunk>, k: nat, n: nat)
    requires k < n <= |cs|
    ensures Kept(cs[..k + 1]) == Kept(cs[..k]) + if Copied(cs[k]) then cs[k] else []
    ensures |Kept(cs[..k])| + |cs[k]| <= |Flatten(cs[..n])|
  {
    assert cs[..k + 1] == cs[..k] + [cs[k]];
    KeptJoin(cs[..k], [cs[k]]);
    assert Kept([cs[k]]) == if Copied(cs[k]) then cs[k] else [];
    KeptLength(cs[..k]);
    CountNext(cs, 0, 0, k);
    assert cs[..n] == cs[..k + 1] + cs[k + 1..n];
    FlattenJoin(cs[..k + 1], cs[k + 1..n]);
  }

  /** No merged chunk is too long to be copied. */
  ghost predicate Lossless(cs: seq<Chunk>, max: nat) {
    var n := CountFrom(cs, max, 0);
    n < 2 || forall c :: c in cs[..n] ==> Copied(c)
  }

  /** Aggregation leaves the stream alone exactly when every merged chunk can be copied;
      otherwise the stream gets shorter. */
  lemma StreamKeptIff(cs: seq<Chunk>, max: nat)
    ensures Flatten(Aggregated(cs, max)) == Flatten(cs) <==> Lossless(cs, max)
    ensures |Flatten(Aggregated(cs, max))| <= |Flatten(cs)|
    ensures |Flatten(Aggregated(cs, max))| == |Flatten(cs)| <==> Lossless(cs, max)
  {
    var n := CountFrom(cs, max, 0);
    if n >= 2 {
      assert cs == cs[..n] + cs[n..];
      FlattenJoin(cs[..n], cs[n..]);
      FlattenJoin([Kept(cs[..n])], cs[n..]);
      One(Kept(cs[..n]));
      KeptLength(cs[..n]);
    }
  }

  /** What a merge does to the list: if it gets shorter, its first chunks have become one,
      and without the last of them they did not exceed max; if all were copied, the first
      chunk exceeds max afterwards, or is the only one. */
  lemma AggregatedMeaning(cs: seq<Chunk>, max: nat)
    ensures var now := Aggregated(cs, max);
      && |now| <= |cs| && (|now| == |cs| ==> now == cs)
      && (|now| < |cs| ==>
            var k := |cs| - |now| + 1;
            && now != [] && now[1..] == cs[k..] && now[0] == Kept(cs[..k]) && |now[0]| <= |Flatten(cs[..k - 1])| + |cs[k - 1]|
            && |Flatten(cs[..k - 1])| <= max)
      && (Lossless(cs, max) ==> |now| <= 1 || |now[0]| > max)
  {
    CountMeaning(cs, max, 0);
    var n := CountFrom(cs, max, 0);
    if n >= 2 {
      KeptLength(cs[..n]);
      CountNext(cs, 0, 0, n - 1);
    } else if cs != [] {
      assert cs[..1] == [cs[0]];
      One(cs[0]);
    }
  }

  /** The same for chunks of legal size, and what the merge does to the stream. */
  lemma MergeMeaning(cs: seq<Chunk>, max: nat)
    ensures var now := Aggregated(cs, max);
      && (Flatten(now) == Flatten(cs) <==> Lossless(cs, max))
      && ((forall c :: c in cs ==> |c| < BUF_SIZE_MAX) ==> |now| <= 1 || |now[0]| > max)
      && (|now| < |cs| ==> now != [] && |now[0]| - |cs[|cs| - |now|]| <= max)
  {
    hide Aggregated, Flatten, Kept, CountFrom;
    StreamKeptIff(cs, max);
    AggregatedMeaning(cs, max);
  }

  /** A chunk is kept exactly if it has fewer than BUF_SIZE_MAX bytes, the others around it
      stay. */
  lemma KeptMeaning(a: seq<Chunk>, c: Chunk, b: seq<Chunk>)
    ensures Kept(a + [c] + b) == Kept(a) + (if |c| < BUF_SIZE_MAX then c else []) + Kept(b)
    ensures Kept([]) == []
  {
    KeptJoin(a + [c], b);
    KeptJoin(a, [c]);
    assert Kept([c]) == if |c| < BUF_SIZE_MAX then c else [];
  }

  /** Only the first chunk may be too long to be copied. */
  ghost predicate ShortBehind(cs: seq<Chunk>) {
    forall i :: 0 < i < |cs| ==> Copied(cs[i])
  }

  /** With a limit below BUF_SIZE_MAX a long first chunk is never merged, and the merged
      chunk is again the first. */
  lemma SmallMerge(cs: seq<Chunk>, max: nat)
    requires ShortBehind(cs) && max < BUF_SIZE_MAX
    ensures Lossless(cs, max) && ShortBehind(Aggregated(cs, max))
  {
    CountMeaning(cs, max, 0);
    var n := CountFrom(cs, max, 0);
    if n >= 2 {
      assert cs[..1] == [cs[0]];
      One(cs[0]);
      assert |Flatten(cs[..1])| <= max;
    }
  }

  lemma One(c: Chunk)
    ensures Flatten([c]) == c
  {
  }

  /** Two legal chunks that together reach the limit: aggregating once is harmless,
      aggregating again, after one more push, loses them. */
  lemma AggregateCanLose(a: Chunk, b: Chunk, c: Chunk, max: nat)
    requires Copied(a) && Copied(b) && Copied(c) && |a| + |b| >= BUF_SIZE_MAX && max >= |a| + |b|
    ensures Aggregated([a, b], max) == [a + b]
    ensures Aggregated([a + b, c], max) == [c]
  {
    assert [a, b][1..] == [b] && [b][1..] == [] && [a, b][..2] == [a, b] && [a, b][2..] == [];
    assert [a + b, c][1..] == [c] && [c][1..] == [] && [a + b, c][..2] == [a + b, c] && [a + b, c][2..] == [];
    assert CountFrom([b], max, |a|) == 1 + CountFrom([], max, |a| + |b|);
    assert CountFrom([c], max, |a + b|) == 1 + CountFrom([], max, |a + b| + |c|);
    assert Kept([a, b]) == a + Kept([b]) && Kept([b]) == b + Kept([]) && b + [] == b;
    assert Kept([a + b, c]) == Kept([c]) && Kept([c]) == c + Kept([]) && c + [] == c;
  }
}
