/** Labels that tell LMS substrings apart: the substring itself, or for a position without an
    LMS position to its right something that no other position has. */
module LmsLabels {
  import opened Suffixes
  import opened LmsNames
  import opened Classes

  ghost function LabelOf(T: Text, z: nat): Label
    requires z < |T|
  {
    if NextLms(T, z) < |T| then T[z..NextLms(T, z) + 1] else [-1 - z]
  }

  lemma SameLabel(T: Text, y: nat, z: nat)
    requires y < |T| && z < |T| && y != z
    ensures LabelOf(T, y) == LabelOf(T, z) <==> SameSub(T, y, z)
  {
    hide SameSub;
    SameSubIsEquality(T, y, z);
    var p, q := NextLms(T, y), NextLms(T, z);
    if p < |T| { assert T[y..p + 1][0] >= 0; }
    if q < |T| { assert T[z..q + 1][0] >= 0; }
  }

  /** The label with which the first scan reads a position: of a seed only the character. */
  ghost function ReadLabel(T: Text, z: nat): Label
    requires z < |T|
  {
    if IsLms(T, z) then [T[z]] else LabelOf(T, z)
  }

  /** The label of an L position extends the one it is induced from. */
  lemma LabelStepL(T: Text, x: nat)
    requires x + 1 < |T| && IsL(T, x)
    ensures LabelOf(T, x) == if IsLms(T, x + 1) || NextLms(T, x) < |T| then [T[x]] + ReadLabel(T, x + 1) else [-1 - x]
    ensures !IsLms(T, x + 1) && NextLms(T, x) == |T| ==> ReadLabel(T, x + 1) == [-1 - (x + 1)]
  {
    hide *;
    NextStep(T, x);
    if IsLms(T, x + 1) {
      LabelBeforeSeed(T, x);
    } else {
      LabelBeforeOther(T, x);
    }
  }

  lemma LabelBeforeSeed(T: Text, x: nat)
    requires x + 1 < |T| && IsLms(T, x + 1) && NextLms(T, x) == x + 1
    ensures LabelOf(T, x) == [T[x]] + ReadLabel(T, x + 1)
  {
    hide IsS, IsLms, NextLms;
    ShortSlice(T, x);
  }

  lemma LabelBeforeOther(T: Text, x: nat)
    requires x + 1 < |T| && !IsLms(T, x + 1) && NextLms(T, x) == NextLms(T, x + 1)
    ensures LabelOf(T, x) == if NextLms(T, x) < |T| then [T[x]] + ReadLabel(T, x + 1) else [-1 - x]
    ensures NextLms(T, x) == |T| ==> ReadLabel(T, x + 1) == [-1 - (x + 1)]
  {
    hide IsS, IsLms, NextLms;
    if NextLms(T, x) < |T| { ConsSlice(T, x, NextLms(T, x) + 1); }
  }

  lemma ShortSlice(T: Text, x: nat)
    requires x + 1 < |T|
    ensures T[x..x + 2] == [T[x]] + [T[x + 1]]
  {
  }

  lemma NextStep(T: Text, x: nat)
    requires x + 1 < |T|
    ensures NextLms(T, x) == if IsLms(T, x + 1) then x + 1 else NextLms(T, x + 1)
  {
  }

  lemma ReadLabelShape(T: Text, z: nat)
    requires z < |T|
    ensures |ReadLabel(T, z)| > 0 && (|ReadLabel(T, z)| == 1 <==> IsLms(T, z) || NextLms(T, z) == |T|)
    ensures IsLms(T, z) || NextLms(T, z) < |T| ==> ReadLabel(T, z)[0] == T[z]
    ensures !IsLms(T, z) && NextLms(T, z) == |T| ==> ReadLabel(T, z) == [-1 - z]
  {
    hide IsS, IsLms;
  }

  /** L positions with the same character have the same label exactly if the positions they
      are induced from are read with the same label. */
  lemma SameLabelL(T: Text, x: nat, y: nat)
    requires x + 1 < |T| && y + 1 < |T| && IsL(T, x) && IsL(T, y) && T[x] == T[y]
    ensures LabelOf(T, x) == LabelOf(T, y) <==> ReadLabel(T, x + 1) == ReadLabel(T, y + 1)
  {
    hide IsS, IsLms, ReadLabel, LabelOf;
    LabelStepL(T, x);
    LabelStepL(T, y);
    ReadLabelShape(T, x + 1);
    ReadLabelShape(T, y + 1);
    Prepended(T[x], ReadLabel(T, x + 1), ReadLabel(T, y + 1));
  }

  lemma Prepended(c: int, a: Label, b: Label)
    ensures [c] + a == [c] + b <==> a == b
    ensures ([c] + a)[0] == c
  {
    assert ([c] + a)[1..] == a && ([c] + b)[1..] == b;
  }

  /** The same for S positions, which never precede an LMS position. */
  lemma SameLabelS(T: Text, x: nat, y: nat)
    requires x + 1 < |T| && y + 1 < |T| && IsS(T, x) && IsS(T, y) && T[x] == T[y]
    ensures LabelOf(T, x) == LabelOf(T, y) <==> LabelOf(T, x + 1) == LabelOf(T, y + 1)
  {
    LabelStepS(T, x);
    LabelStepS(T, y);
    hide LabelOf, IsS;
    Prepended(T[x], LabelOf(T, x + 1), LabelOf(T, y + 1));
  }

  lemma LabelStepS(T: Text, x: nat)
    requires x + 1 < |T| && IsS(T, x)
    ensures NextLms(T, x) == NextLms(T, x + 1)
    ensures if NextLms(T, x) < |T| then LabelOf(T, x) == [T[x]] + LabelOf(T, x + 1) && LabelOf(T, x + 1)[0] >= 0
            else LabelOf(T, x) == [-1 - x] && LabelOf(T, x + 1) == [-1 - (x + 1)]
  {
    var p := NextLms(T, x);
    assert p == NextLms(T, x + 1);
    if p < |T| { assert T[x..p + 1] == [T[x]] + T[x + 1..p + 1]; }
  }
}
