/** The right-to-left scan that sais.c uses wherever it enumerates LMS positions: two
    inner loops that run over a stretch of L and a stretch of S positions. */
module LmsScan {
  import opened Suffixes

  /** From an L position, left to the nearest S position, or -1. */
  method SkipL(T: Text, start: nat) returns (i: int)
    requires start < |T| && IsL(T, start)
    ensures -1 <= i < start
    ensures forall x :: i < x <= start ==> !IsS(T, x)
    ensures i >= 0 ==> IsS(T, i)
  {
    i := start - 1;
    while 0 <= i && T[i] >= T[i + 1]
      invariant -1 <= i < start
      invariant forall x :: i < x <= start ==> !IsS(T, x)
    {
      assert !IsS(T, i + 1);
      i := i - 1;
    }
  }

  /** From an S position, left to the nearest L position, or -1. */
  method SkipS(T: Text, start: nat) returns (i: int)
    requires start < |T| && IsS(T, start)
    ensures -1 <= i < start
    ensures forall x :: i < x <= start ==> IsS(T, x)
    ensures i >= 0 ==> IsL(T, i)
  {
    i := start - 1;
    while 0 <= i && T[i] <= T[i + 1]
      invariant -1 <= i < start
      invariant forall x :: i < x <= start ==> IsS(T, x)
    {
      assert IsS(T, i + 1);
      i := i - 1;
    }
  }

  lemma LastPositionIsL(T: Text)
    requires 0 < |T|
    ensures IsL(T, |T| - 1)
  {
  }

  /** A stretch of L positions holds no LMS position. */
  lemma NoLmsInL(T: Text, i: int, start: nat)
    requires -1 <= i < start < |T| && forall x :: i < x <= start ==> !IsS(T, x)
    ensures forall p :: i < p <= start ==> !IsLms(T, p)
  {
  }

  /** A stretch of S positions right of an L position begins with its only LMS position;
      one that reaches the start of the text holds none. */
  lemma OneLmsInS(T: Text, i: int, start: nat)
    requires -1 <= i < start < |T| && forall x :: i < x <= start ==> IsS(T, x)
    requires i >= 0 ==> IsL(T, i)
    ensures i >= 0 ==> IsLms(T, i + 1)
    ensures forall p :: i + 1 < p <= start ==> !IsLms(T, p)
    ensures i == -1 ==> !IsLms(T, 0)
  {
    forall p | i + 1 < p <= start ensures !IsLms(T, p) {
      assert IsS(T, p - 1);
    }
  }
}
