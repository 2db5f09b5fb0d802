/**
 Iterating over the set bits of a bit set, word by word (src/common/BitSetIterator.h). The trackers
 rely on it to visit their masks in increasing order.
 */
module BitSets {
  import opened DawnMath

  const BITS_PER_WORD := 32

  function RoundUp(value: nat, alignment: nat): nat
    requires alignment >= 1
  {
    var temp := value + alignment - 1;
    temp - temp % alignment
  }

  /** The least multiple that is not below the value. */
  lemma RoundUpIsAlign(value: nat, alignment: nat)
    requires alignment >= 1
    ensures RoundUp(value, alignment) == Align(value, alignment)
  {
    AlignByDivision(value, alignment);
    var temp := value + alignment - 1;
    assert temp == temp / alignment * alignment + temp % alignment;
  }

  /** The end of the last word. */
  lemma LastWord(size: nat, words: nat)
    requires size <= BITS_PER_WORD * words < size + BITS_PER_WORD
    ensures RoundUp(size, BITS_PER_WORD) == BITS_PER_WORD * words
  {
    var temp := size + BITS_PER_WORD - 1;
    DivUnique(temp, BITS_PER_WORD, words, temp - BITS_PER_WORD * words);
  }

  ghost predicate BitAt(bits: seq<bool>, offset: nat, rest: set<int>, i: int)
    requires 0 <= i < |bits|
  {
    bits[i] <==> i + offset in rest
  }

  /** The bits are those of the rest, moved down by the offset. */
  ghost predicate Moved(bits: seq<bool>, offset: nat, rest: set<int>) {
    && (forall i {:trigger BitAt(bits, offset, rest, i)} :: 0 <= i < |bits| ==> BitAt(bits, offset, rest, i))
    && (forall b :: b in rest ==> offset <= b < |bits|)
  }

  function NoBits(size: nat): seq<bool> {
    seq(size, i => false)
  }

  lemma MovedEmpty(bits: seq<bool>, offset: nat, rest: set<int>)
    requires Moved(bits, offset, rest)
    ensures rest == {} <==> bits == NoBits(|bits|)
    ensures offset >= |bits| ==> rest == {}
  {
    forall i | 0 <= i < |bits|
      ensures bits[i] ==> i + offset in rest
    {
      assert BitAt(bits, offset, rest, i);
    }
    forall b | b in rest
      ensures bits[b - offset]
    {
      assert BitAt(bits, offset, rest, b - offset);
    }
  }

  lemma MovedLeast(bits: seq<bool>, offset: nat, rest: set<int>, k: nat)
    requires Moved(bits, offset, rest) && k < |bits| && bits[k] && forall i :: 0 <= i < k ==> !bits[i]
    ensures IsLeast(k + offset, rest)
  {
    assert BitAt(bits, offset, rest, k);
    forall b | b in rest
      ensures k + offset <= b
    {
      assert BitAt(bits, offset, rest, b - offset);
    }
  }

  lemma MovedClear(bits: seq<bool>, offset: nat, rest: set<int>, bit: nat)
    requires Moved(bits, offset, rest) && bit in rest
    ensures Moved(bits[bit - offset := false], offset, rest - {bit})
  {
    var c := bits[bit - offset := false];
    forall i | 0 <= i < |bits|
      ensures BitAt(c, offset, rest - {bit}, i)
    {
      assert BitAt(bits, offset, rest, i);
    }
  }

  function ShiftRight(bits: seq<bool>): seq<bool> {
    seq(|bits|, i requires 0 <= i < |bits| => i + BITS_PER_WORD < |bits| && bits[i + BITS_PER_WORD])
  }

  lemma MovedShift(bits: seq<bool>, offset: nat, rest: set<int>)
    requires Moved(bits, offset, rest) && forall i :: 0 <= i < BITS_PER_WORD && i < |bits| ==> !bits[i]
    ensures Moved(ShiftRight(bits), offset + BITS_PER_WORD, rest)
  {
    forall b | b in rest
      ensures offset + BITS_PER_WORD <= b
    {
      assert BitAt(bits, offset, rest, b - offset);
    }
    var shifted, moved := ShiftRight(bits), offset + BITS_PER_WORD;
    forall i | 0 <= i < |shifted|
      ensures BitAt(shifted, moved, rest, i)
    {
      if i + BITS_PER_WORD < |bits| { assert BitAt(bits, offset, rest, i + BITS_PER_WORD); }
    }
  }

  /** `rest` is what is left to visit. */
  class BitSetIterator {
    const size: nat
    var mBits: seq<bool>
    var mCurrentBit: nat
    var mOffset: nat
    ghost var rest: set<int>
    ghost var words: nat

    ghost predicate Shifted()
      reads this
    {
      && |mBits| == size && mOffset == BITS_PER_WORD * words && mOffset < size + BITS_PER_WORD
      && Moved(mBits, mOffset, rest)
    }

    ghost predicate Valid()
      reads this
    {
      Shifted() && (rest == {} <==> IsEnd()) && (rest != {} ==> IsLeast(mCurrentBit, rest))
    }

    /** Equal to end(), which has no bits and the offset behind the last word. */
    predicate IsEnd()
      reads this
    {
      mOffset == RoundUp(size, BITS_PER_WORD) && mBits == NoBits(size)
    }

    constructor (bits: seq<bool>)
      ensures Valid() && size == |bits|
      ensures forall i :: i in rest <==> 0 <= i < |bits| && bits[i]
    {
      size, mBits, mCurrentBit, mOffset := |bits|, bits, 0, 0;
      rest, words := SetBits(bits), 0;
      new;
      assert Moved(bits, 0, rest);
      MovedEmpty(bits, 0, rest);
      if bits != NoBits(|bits|) {
        mCurrentBit := GetNextBit();
      } else {
        words := (size + BITS_PER_WORD - 1) / BITS_PER_WORD;
        LastWord(size, words);
        mOffset := RoundUp(size, BITS_PER_WORD);
      }
    }

    /** operator++: drop the current bit and find the next. */
    method Advance()
      requires Valid() && rest != {}
      modifies this
      ensures Valid() && rest == old(rest) - {old(mCurrentBit)}
    {
      MovedClear(mBits, mOffset, rest, mCurrentBit);
      mBits := mBits[mCurrentBit - mOffset := false];
      rest := rest - {mCurrentBit};
      mCurrentBit := GetNextBit();
    }

    method GetNextBit() returns (bit: nat)
      requires Shifted()
      modifies this`mBits, this`mOffset, this`words
      ensures Shifted()
      ensures (rest == {} <==> IsEnd()) && (rest != {} ==> IsLeast(bit, rest))
    {
      while mOffset < size
        invariant Shifted()
        decreases size - mOffset
      {
        var found, k := ScanWord();
        if found {
          return k + mOffset;
        }
        NextWord();
      }
      MovedEmpty(mBits, mOffset, rest);
      LastWord(size, words);
      return 0;
    }

    /** The lowest bit of the lowest word, if there is one. */
    method ScanWord() returns (found: bool, k: nat)
      requires Shifted()
      ensures found ==> IsLeast(k + mOffset, rest) && !IsEnd()
      ensures !found ==> forall i :: 0 <= i < BITS_PER_WORD && i < size ==> !mBits[i]
    {
      k := 0;
      while k < BITS_PER_WORD
        invariant k <= BITS_PER_WORD
        invariant forall i :: 0 <= i < k && i < size ==> !mBits[i]
      {
        if k < size && mBits[k] {
          MovedLeast(mBits, mOffset, rest, k);
          MovedEmpty(mBits, mOffset, rest);
          return true, k;
        }
        k := k + 1;
      }
      return false, 0;
    }

    method NextWord()
      requires Shifted() && mOffset < size
      requires forall i :: 0 <= i < BITS_PER_WORD && i < size ==> !mBits[i]
      modifies this`mBits, this`mOffset, this`words
      ensures Shifted() && mOffset == old(mOffset) + BITS_PER_WORD
    {
      MovedShift(mBits, mOffset, rest);
      mBits := ShiftRight(mBits);
      mOffset := mOffset + BITS_PER_WORD;
      words := words + 1;
    }
  }

  ghost predicate IsLeast(bit: int, s: set<int>) {
    bit in s && forall b :: b in s ==> bit <= b
  }

  ghost function SetBits(bits: seq<bool>): set<int> {
    set i | 0 <= i < |bits| && bits[i]
  }

  /** A range-based for loop over a bit set visits exactly the set bits, in increasing order. */
  method VisitAll(bits: seq<bool>) returns (visited: seq<int>)
    ensures forall i :: i in visited <==> 0 <= i < |bits| && bits[i]
    ensures forall i, j :: 0 <= i < j < |visited| ==> visited[i] < visited[j]
  {
    var it := new BitSetIterator(bits);
    visited := [];
    ghost var all := it.rest;
    while !it.IsEnd()
      invariant it.Valid() && fresh(it) && it.rest <= all
      invariant forall i :: i in visited <==> i in all && i !in it.rest
      invariant forall i, b :: 0 <= i < |visited| && b in it.rest ==> visited[i] < b
      invariant forall i, j :: 0 <= i < j < |visited| ==> visited[i] < visited[j]
      decreases |it.rest|
    {
      assert it.rest != {};
      ghost var bit := it.mCurrentBit;
      visited := visited + [it.mCurrentBit];
      it.Advance();
    }
  }
}
