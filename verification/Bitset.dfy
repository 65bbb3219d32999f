/** A set of row ids, one bit each, in a slice of 64-bit words that grows as needed. */
module Bitsets {

  function Slot(i: nat): bv6 {
    (i % 64) as bv6
  }

  predicate BitIsSet(x: bv64, slot: bv6) {
    x & ((1 as bv64) << slot) != 0
  }

  function SetBit(x: bv64, slot: bv6): bv64 {
    x | ((1 as bv64) << slot)
  }

  predicate HasBit(words: seq<bv64>, i: nat) {
    i / 64 < |words| && BitIsSet(words[i / 64], Slot(i))
  }

  function Bits(words: seq<bv64>): (s: set<nat>)
    ensures forall i: nat :: i in s <==> HasBit(words, i)
  {
    set i: nat | 0 <= i < 64 * |words| && HasBit(words, i)
  }

  lemma ShiftedBits(x: bv64, i: bv6, k: bv6)
    ensures (x | ((1 as bv64) << i)) & ((1 as bv64) << k) != 0 <==> i == k || x & ((1 as bv64) << k) != 0
  {
  }

  lemma SettingABit(x: bv64, y: bv64, i: bv6, k: bv6)
    requires y == (x | ((1 as bv64) << i))
    ensures BitIsSet(y, k) <==> i == k || BitIsSet(x, k)
  {
    hide SetBit;
    ShiftedBits(x, i, k);
  }

  /** Setting one bit of a word changes no other. */
  lemma SetBitSetsOne(x: bv64, i: bv6, k: bv6)
    ensures BitIsSet(SetBit(x, i), k) <==> i == k || BitIsSet(x, k)
  {
    hide BitIsSet;
    SettingABit(x, SetBit(x, i), i, k);
  }

  lemma ZeroHasNoBits(k: bv6)
    ensures !BitIsSet(0, k)
  {
  }

  lemma BackAndForth(i: nat, slot: bv6)
    requires i < 64 && slot == i as bv6
    ensures slot as int == i
  {
  }

  lemma SlotValue(i: nat)
    ensures Slot(i) as int == i % 64
  {
    BackAndForth(i % 64, Slot(i));
  }

  lemma SlotsDiffer(i: nat, k: nat)
    ensures Slot(i) == Slot(k) <==> i % 64 == k % 64
  {
    hide Slot;
    SlotValue(i);
    SlotValue(k);
    if i % 64 == k % 64 {
      SameValue(Slot(i), Slot(k));
    }
  }

  lemma SameValue(a: bv6, b: bv6)
    requires a as int == b as int
    ensures a == b
  {
  }

  lemma SameSlot(i: nat, k: nat)
    ensures i / 64 == k / 64 && i % 64 == k % 64 <==> i == k
  {
  }

  lemma GrowingAddsNothing(words: seq<bv64>, more: nat)
    ensures Bits(words + seq(more, _ => 0 as bv64)) == Bits(words)
  {
    hide BitIsSet, Slot;
    var grown := words + seq(more, _ => 0 as bv64);
    forall i: nat ensures HasBit(grown, i) <==> HasBit(words, i) {
      ZeroHasNoBits(Slot(i));
    }
  }

  lemma SettingAddsOne(words: seq<bv64>, i: nat)
    requires i / 64 < |words|
    ensures Bits(words[i / 64 := SetBit(words[i / 64], Slot(i))]) == Bits(words) + {i}
  {
    hide BitIsSet, SetBit, Slot;
    var after := words[i / 64 := SetBit(words[i / 64], Slot(i))];
    forall k: nat ensures HasBit(after, k) <==> k == i || HasBit(words, k) {
      SetBitSetsOne(words[i / 64], Slot(i), Slot(k));
      SlotsDiffer(i, k);
      SameSlot(i, k);
    }
  }

  class Bitset {
    var words: seq<bv64>

    function Members(): (s: set<nat>)
      reads this
    {
      Bits(words)
    }

    constructor ()
      ensures Members() == {}
    {
      words := [];
    }

    /** Adds i and tells whether it was absent. */
    method Set(i: nat) returns (added: bool)
      modifies this
      ensures Members() == old(Members()) + {i}
      ensures added <==> i !in old(Members())
    {
      hide BitIsSet, SetBit, Slot, Bits;
      var w := i / 64;
      if w >= |words| {
        GrowingAddsNothing(words, w - |words| + 1);
        words := words + seq(w - |words| + 1, _ => 0 as bv64);
      }
      if BitIsSet(words[w], Slot(i)) {
        return false;
      }
      SettingAddsOne(words, i);
      words := words[w := SetBit(words[w], Slot(i))];
      return true;
    }

    method Has(i: nat) returns (present: bool)
      ensures present <==> i in Members()
    {
      var w := i / 64;
      present := w < |words| && BitIsSet(words[w], Slot(i));
    }
  }
}
