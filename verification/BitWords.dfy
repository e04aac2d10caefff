/** A bit set packed in 64-bit words. */
module BitWords {
  /** One shifted left by k. */
  function Mask(k: nat): bv64
    requires k < 64
  {
    if k == 0 then 1 else Mask(k - 1) << 1
  }

  predicate Meets(a: bv64, b: bv64) {
    a & b != 0
  }

  function Or(a: bv64, b: bv64): bv64 {
    a | b
  }

  lemma OrMeets(word: bv64, b: bv64)
    requires b != 0
    ensures Meets(Or(word, b), b)
  {}

  lemma OrMissesOthers(word: bv64, a: bv64, b: bv64)
    requires !Meets(a, b)
    ensures Or(word, a) & b == word & b
  {}

  lemma KeepsMeeting(word: bv64, a: bv64, b: bv64)
    requires !Meets(a, b)
    ensures Meets(Or(word, a), b) == Meets(word, b)
  {
    OrMissesOthers(word, a, b);
  }

  lemma MeetsBothWays(a: bv64, b: bv64)
    ensures Meets(a, b) == Meets(b, a)
  {}

  lemma ShiftFacts(x: bv64, y: bv64)
    ensures !Meets(1, x << 1)
    ensures !Meets(x, y) ==> !Meets(x << 1, y << 1)
  {}

  lemma {:induction false} MasksDisjoint(j: nat, k: nat)
    requires j < k < 64
    ensures !Meets(Mask(j), Mask(k))
  {
    if j == 0 {
      ShiftFacts(Mask(k - 1), 0);
    } else {
      MasksDisjoint(j - 1, k - 1);
      ShiftFacts(Mask(j - 1), Mask(k - 1));
    }
  }

  lemma {:induction false} ZeroStays(k: nat)
    requires k < 64 && Mask(k) == 0
    ensures Mask(63) == 0
    decreases 63 - k
  {
    if k < 63 { ZeroStays(k + 1); }
  }

  lemma MaskIsSet(k: nat)
    requires k < 64
    ensures Mask(k) != 0
  {
    if Mask(k) == 0 { ZeroStays(k); }
    assert Mask(7) == 0x80 by { assert Mask(4) == 0x10; }
    assert Mask(14) == 0x4000 by { assert Mask(11) == 0x800; }
    assert Mask(21) == 0x20_0000 by { assert Mask(18) == 0x4_0000; }
    assert Mask(28) == 0x1000_0000 by { assert Mask(25) == 0x200_0000; }
    assert Mask(35) == 0x8_0000_0000 by { assert Mask(32) == 0x1_0000_0000; }
    assert Mask(42) == 0x400_0000_0000 by { assert Mask(39) == 0x80_0000_0000; }
    assert Mask(49) == 0x2_0000_0000_0000 by { assert Mask(46) == 0x4000_0000_0000; }
    assert Mask(56) == 0x100_0000_0000_0000 by { assert Mask(53) == 0x20_0000_0000_0000; }
    assert Mask(63) == 0x8000_0000_0000_0000 by { assert Mask(60) == 0x1000_0000_0000_0000; }
  }

  predicate HasBit(word: bv64, k: nat)
    requires k < 64
  {
    Meets(word, Mask(k))
  }

  lemma MaskSetsOneBit(word: bv64, j: nat, k: nat)
    requires j < 64 && k < 64
    ensures HasBit(Or(word, Mask(j)), k) <==> j == k || HasBit(word, k)
  {
    hide Mask, Meets, Or;
    var a, b := Mask(j), Mask(k);
    if j == k {
      MaskIsSet(k);
      OrMeets(word, b);
    } else {
      if j < k { MasksDisjoint(j, k); } else { MasksDisjoint(k, j); }
      MeetsBothWays(a, b);
      KeepsMeeting(word, a, b);
    }
  }

  predicate IsSet(words: seq<bv64>, p: nat)
    requires p < |words| * 64
  {
    HasBit(words[p / 64], p % 64)
  }

  function Setting(words: seq<bv64>, p: nat): (r: seq<bv64>)
    requires p < |words| * 64
    ensures |r| == |words|
  {
    words[p / 64 := Or(words[p / 64], Mask(p % 64))]
  }

  /** Setting a position sets that position and no other, within its word and across words. */
  lemma SettingSetsOne(words: seq<bv64>, p: nat, q: nat)
    requires p < |words| * 64 && q < |words| * 64
    ensures IsSet(Setting(words, p), q) <==> q == p || IsSet(words, q)
  {
    hide HasBit, Mask, Or;
    if q / 64 == p / 64 {
      MaskSetsOneBit(words[p / 64], p % 64, q % 64);
    }
  }

  lemma NothingSet(words: seq<bv64>, p: nat)
    requires p < |words| * 64 && words[p / 64] == 0
    ensures !IsSet(words, p)
  {
    hide Mask;
  }
}
