/** What `BitArray::new`, `get` and the iterator promise together: the
    packing is a bijection between sequences of at most 128 booleans and
    valid arrays, and iterating gives the input back. */
module BitarrayProperties {
  import opened Wrappers
  import opened Bitarray

  /** Reading bit `|s| - 1 - i` of the packed value gives back element `i`. */
  lemma {:induction false} EncodeBit(s: seq<bool>, i: nat)
    requires i < |s|
    ensures Bit(Encode(s), |s| - 1 - i) == s[i]
  {
    var init := s[..|s| - 1];
    if i < |s| - 1 {
      EncodeBit(init, i);
      assert init[i] == s[i];
      var n := Encode(s);
      assert n / 2 == Encode(init);
    }
  }

  /** Decoding what `new` packs gives the input back. */
  lemma {:induction false} ElementsEncode(s: seq<bool>)
    ensures BitArray(Encode(s), |s|).Elements() == s
  {
    var a := BitArray(Encode(s), |s|);
    assert |a.Elements()| == |s|;
    forall i | 0 <= i < |s|
      ensures a.Elements()[i] == s[i]
    {
      EncodeBit(s, i);
    }
  }

  /** Packing the elements of a valid array gives its word back: every valid
      array is what `new` builds from its elements. */
  lemma {:induction false} EncodeElements(a: BitArray)
    requires a.data < Pow2(a.len)
    ensures Encode(a.Elements()) == a.data
    decreases a.len
  {
    if a.len > 0 {
      var high := BitArray(a.data / 2, a.len - 1);
      EncodeElements(high);
      var e := a.Elements();
      assert e[..|e| - 1] == high.Elements() by {
        forall i | 0 <= i < a.len - 1
          ensures e[i] == high.Elements()[i]
        {
          var k := a.len - 1 - i;
          assert e[i] == Bit(a.data, k);
          assert high.Elements()[i] == Bit(a.data / 2, k - 1);
        }
      }
      assert e[|e| - 1] == Bit(a.data, 0);
    }
  }

  /** Two inputs of the same length that pack to the same word are equal. */
  lemma EncodeInjective(s: seq<bool>, t: seq<bool>)
    requires |s| == |t| && Encode(s) == Encode(t)
    ensures s == t
  {
    ElementsEncode(s);
    ElementsEncode(t);
  }

  /** `get` on the array that `new` returns reads the input: `Some(s[i])`
      inside the input, `None` past its end. */
  lemma GetNew(s: seq<bool>, i: nat)
    requires |s| <= MAX_LEN
    ensures BitArray(Encode(s), |s|).Get(i) == if i < |s| then Some(s[i]) else None
  {
    ElementsEncode(s);
  }
}
