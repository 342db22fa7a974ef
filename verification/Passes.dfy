/** What the two scanning passes of induced sorting share: where the bucket pointers
    stand after part of a scan, and why the pointer of a bucket is the slot of the
    next suffix to be placed in it. */
module Passes {
  import opened Suffixes
  import opened Buckets
  import opened InducedOrder
  import opened InducedSlots

  /** The bitwise complement of the source, which flags an entry by its sign. */
  function Not(j: int): int {
    -j - 1
  }

  /** The bucket pointers ptr, of which the one of bucket c is kept in the variable b
      while the others are in the array. */
  ghost predicate Caches(B: seq<int>, ptr: seq<int>, c: int, b: int) {
    |B| == |ptr| && 0 <= c < |B| && ptr == B[c := b]
  }

  /** Make bucket c0 the one whose pointer is kept in a variable. */
  method SwitchBucket(B: array<int>, c1: nat, b: int, c0: nat, ghost ptr: seq<int>) returns (b': int)
    requires Caches(B[..], ptr, c1, b) && c0 < B.Length
    modifies B
    ensures Caches(B[..], ptr, c0, b')
  {
    b' := b;
    if c0 != c1 {
      B[c1] := b;
      b' := B[c0];
    }
  }

  /** After slots below i were scanned, exactly the L suffixes induced from them lie
      below the pointer of their bucket. */
  ghost predicate PointersL(T: Text, P: Plan, ptr: seq<int>, i: int)
    requires Shape(T, P)
  {
    && Alphabet(T, |ptr|)
    && (forall c :: 0 <= c < |ptr| ==> Start(T, c) <= ptr[c])
    && (forall x :: P.lo <= x < |T| && IsL(T, x) ==> (P.frm[x] < i <==> P.src[x] < ptr[T[x]]))
  }

  /** No L suffix is induced from slot i. */
  ghost predicate NoneFromL(T: Text, P: Plan, i: int)
    requires Shape(T, P)
  {
    forall x :: P.lo <= x < |T| && IsL(T, x) ==> P.frm[x] != i
  }

  ghost predicate NoneFromS(T: Text, P: Plan, i: int)
    requires Shape(T, P)
  {
    forall x :: P.lo <= x < |T| && IsS(T, x) ==> P.frm[x] != i
  }

  lemma PointersLInit(T: Text, P: Plan, B: seq<int>, k: nat)
    requires LPlan(T, P) && Starts(T, B, k) && |B| == k && Alphabet(T, k)
    ensures PointersL(T, P, B, -1)
  {
    hide IsS, IsLms, Start;
  }

  /** What x + 1 is for an L suffix x. */
  lemma FromOfL(T: Text, P: Plan, x: nat)
    requires LPlan(T, P) && P.lo <= x < |T| && IsL(T, x)
    ensures P.frm[x] == P.src[x + 1]
    ensures x + 1 == |T| || InFirstPass(T, P.lo, x + 1)
    ensures if P.frm[x] == -1 then x + 1 == |T| else 0 <= P.frm[x] < |T| && P.occ[P.frm[x]] == x + 1
  {
    SuccessorOfL(T, P.lo, x);
    hide IsS, IsLms, Start;
    assert Step(x);
  }

  /** An L suffix is induced from one slot only. */
  lemma InducedOnceL(T: Text, P: Plan, x: nat, y: nat)
    requires LPlan(T, P)
    requires P.lo <= x < |T| && IsL(T, x) && P.lo <= y < |T| && IsL(T, y) && P.frm[x] == P.frm[y]
    ensures x == y
  {
    FromOfL(T, P, x);
    FromOfL(T, P, y);
  }

  lemma SlotBelowL(T: Text, P: Plan, j: nat, r: int)
    requires LPlan(T, P) && P.lo <= j < |T| && IsL(T, j) && Start(T, T[j]) <= r < P.src[j]
    ensures 0 <= r < |T| && P.lo <= P.occ[r] < |T| && IsL(T, P.occ[r]) && T[P.occ[r]] == T[j]
    ensures P.src[P.occ[r]] == r && P.frm[P.occ[r]] < P.frm[j]
  {
    hide IsS, IsLms, Start;
    assert InFirstPass(T, P.lo, j);
    var x := P.occ[r];
    assert HoldsL(T, P.lo, x, T[j]);
    assert LPair(T, P, x, j);
  }

  /** The suffix induced from slot i belongs exactly where its bucket pointer stands. */
  lemma NextSlotL(T: Text, P: Plan, ptr: seq<int>, i: int, j: nat)
    requires LPlan(T, P) && PointersL(T, P, ptr, i)
    requires P.lo <= j < |T| && IsL(T, j) && P.frm[j] == i
    ensures ptr[T[j]] == P.src[j] && i < P.src[j] < |T|
  {
    hide IsS, IsLms, Start;
    assert InFirstPass(T, P.lo, j);
    var r := ptr[T[j]];
    if r < P.src[j] {
      SlotBelowL(T, P, j, r);
      assert false;
    }
  }

  lemma StepPointersL(T: Text, P: Plan, ptr: seq<int>, i: int, j: nat)
    requires LPlan(T, P) && PointersL(T, P, ptr, i)
    requires P.lo <= j < |T| && IsL(T, j) && P.frm[j] == i
    ensures PointersL(T, P, ptr[T[j] := P.src[j] + 1], i + 1)
  {
    hide IsS, IsLms, Start;
    NextSlotL(T, P, ptr, i, j);
    var ptr' := ptr[T[j] := P.src[j] + 1];
    assert InFirstPass(T, P.lo, j);
    forall x | P.lo <= x < |T| && IsL(T, x)
      ensures P.frm[x] < i + 1 <==> P.src[x] < ptr'[T[x]]
    {
      assert InFirstPass(T, P.lo, x);
      if P.frm[x] == i { InducedOnceL(T, P, x, j); }
    }
  }

  lemma IdlePointersL(T: Text, P: Plan, ptr: seq<int>, i: int)
    requires LPlan(T, P) && PointersL(T, P, ptr, i)
    requires NoneFromL(T, P, i)
    ensures PointersL(T, P, ptr, i + 1)
  {
    hide IsS, IsLms, Start;
  }

  /** After slots above i were scanned from the right, exactly the S suffixes induced
      from them lie at or above the pointer of their bucket. */
  ghost predicate PointersS(T: Text, P: Plan, ptr: seq<int>, i: int)
    requires Shape(T, P)
  {
    && Alphabet(T, |ptr|)
    && (forall c :: 0 <= c < |ptr| ==> ptr[c] <= Start(T, c + 1))
    && (forall x :: P.lo <= x < |T| && IsS(T, x) ==> (P.frm[x] > i <==> P.w[x] >= ptr[T[x]]))
  }

  lemma PointersAlphabet(T: Text, P: Plan, ptr: seq<int>, i: int)
    requires Shape(T, P) && (PointersL(T, P, ptr, i) || PointersS(T, P, ptr, i))
    ensures Alphabet(T, |ptr|)
  {
  }

  lemma PointersSInit(T: Text, P: Plan, B: seq<int>, k: nat)
    requires SPlan(T, P) && Ends(T, B, k) && |B| == k && Alphabet(T, k)
    ensures PointersS(T, P, B, |T| - 1)
  {
    hide IsS, IsLms, Start;
  }

  lemma FromOfS(T: Text, P: Plan, x: nat)
    requires SPlan(T, P) && P.lo <= x < |T| && IsS(T, x)
    ensures x + 1 < |T| && P.frm[x] == P.w[x + 1] && 0 <= P.frm[x] < |T| && P.inv[P.frm[x]] == x + 1
  {
    hide IsS, IsLms, Start;
    assert Step(x);
  }

  lemma InducedOnceS(T: Text, P: Plan, x: nat, y: nat)
    requires SPlan(T, P)
    requires P.lo <= x < |T| && IsS(T, x) && P.lo <= y < |T| && IsS(T, y) && P.frm[x] == P.frm[y]
    ensures x == y
  {
    FromOfS(T, P, x);
    FromOfS(T, P, y);
  }

  lemma SlotAboveS(T: Text, P: Plan, j: nat, r: int)
    requires SPlan(T, P) && P.lo <= j < |T| && IsS(T, j) && P.w[j] < r < Start(T, T[j] + 1)
    ensures 0 <= r < |T| && P.lo <= P.inv[r] < |T| && IsS(T, P.inv[r]) && T[P.inv[r]] == T[j]
    ensures P.w[P.inv[r]] == r && P.frm[P.inv[r]] > P.frm[j]
  {
    hide IsS, IsLms, Start;
    var x := P.inv[r];
    assert HoldsS(T, P.lo, x, T[j]);
    assert SPair(T, P, j, x);
  }

  lemma NextSlotS(T: Text, P: Plan, ptr: seq<int>, i: int, j: nat)
    requires SPlan(T, P) && PointersS(T, P, ptr, i)
    requires P.lo <= j < |T| && IsS(T, j) && P.frm[j] == i
    ensures ptr[T[j]] - 1 == P.w[j] && 0 <= P.w[j] < i
  {
    hide IsS, IsLms, Start;
    var r := ptr[T[j]] - 1;
    if P.w[j] < r {
      SlotAboveS(T, P, j, r);
      assert false;
    }
  }

  lemma StepPointersS(T: Text, P: Plan, ptr: seq<int>, i: int, j: nat)
    requires SPlan(T, P) && PointersS(T, P, ptr, i)
    requires P.lo <= j < |T| && IsS(T, j) && P.frm[j] == i
    ensures PointersS(T, P, ptr[T[j] := P.w[j]], i - 1)
  {
    hide IsS, IsLms, Start;
    NextSlotS(T, P, ptr, i, j);
    var ptr' := ptr[T[j] := P.w[j]];
    forall x | P.lo <= x < |T| && IsS(T, x)
      ensures P.frm[x] > i - 1 <==> P.w[x] >= ptr'[T[x]]
    {
      if P.frm[x] == i { InducedOnceS(T, P, x, j); }
    }
  }

  lemma IdlePointersS(T: Text, P: Plan, ptr: seq<int>, i: int)
    requires SPlan(T, P) && PointersS(T, P, ptr, i)
    requires NoneFromS(T, P, i)
    ensures PointersS(T, P, ptr, i - 1)
  {
    hide IsS, IsLms, Start;
  }

  /** Slot i, when it holds suffix z, induces z - 1 in the second pass if that is of
      type S, and nothing otherwise. */
  lemma InducedFromS(T: Text, P: Plan, i: nat, z: int)
    requires SPlan(T, P) && i < |T| && z == P.inv[i]
    ensures z != -1 ==> P.lo <= z < |T|
    ensures P.lo < z && IsS(T, z - 1) ==> P.frm[z - 1] == i
    ensures !(P.lo < z && IsS(T, z - 1)) ==> NoneFromS(T, P, i)
  {
    hide IsS, IsLms, SContiguous;
    if P.lo < z && IsS(T, z - 1) {
      FromOfS(T, P, z - 1);
      assert P.w[z] == i;
    } else {
      forall x | P.lo <= x < |T| && IsS(T, x) ensures P.frm[x] != i {
        FromOfS(T, P, x);
      }
    }
  }

  /** The same for the first pass and type L. */
  lemma InducedFromL(T: Text, P: Plan, i: nat, z: int)
    requires LPlan(T, P) && i < |T| && z == P.occ[i]
    ensures z != -1 ==> InFirstPass(T, P.lo, z)
    ensures P.lo < z && IsL(T, z - 1) ==> P.frm[z - 1] == i
    ensures !(P.lo < z && IsL(T, z - 1)) ==> NoneFromL(T, P, i)
  {
    hide IsS, IsLms, LContiguous;
    if P.lo < z && IsL(T, z - 1) {
      FromOfL(T, P, z - 1);
      assert P.src[z] == i;
    } else {
      forall x | P.lo <= x < |T| && IsL(T, x) ensures P.frm[x] != i {
        FromOfL(T, P, x);
      }
    }
  }
}
