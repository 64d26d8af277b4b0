/** Driving `BitArrayIter` to the end, as `Iterator::collect` does, and the
    round trip `new(s).iter().collect() == s`. */
module Iteration {
  import opened Wrappers
  import opened Bitarray
  import opened BitarrayProperties

  /** The items an iterator over `a` with cursor `counter` still yields
      before its first `None`. */
  function Yields(a: BitArray, counter: nat): (s: seq<bool>)
  {
    if counter < a.len then a.Elements()[counter..] else []
  }

  /** An iterator yields no more than `len` items, and a valid array has at
      most `MAX_LEN`, the `size_hint` upper bound. */
  lemma YieldsBound(a: BitArray, counter: nat)
    requires a.Valid()
    ensures |Yields(a, counter)| <= a.len <= MAX_LEN
    ensures forall j :: 0 <= j < |Yields(a, counter)| ==> a.Get(counter + j) == Some(Yields(a, counter)[j])
  {
  }

  /** The count `Remaining` that `next` uses up is the length of what the
      iterator still yields. */
  lemma RemainingYields(it: BitArrayIter)
    ensures it.Remaining() == |Yields(it.bitArray, it.counter)|
  {
  }

  /** `collect`: call `next` until it returns `None`. */
  method Collect(it: BitArrayIter) returns (items: seq<bool>)
    modifies it
    ensures items == Yields(old(it.bitArray), old(it.counter))
    ensures it.bitArray == old(it.bitArray)
    ensures it.counter == (if old(it.counter) < it.bitArray.len then it.bitArray.len else old(it.counter)) + 1
  {
    ghost var a, c0 := it.bitArray, it.counter;
    items := [];
    var item := it.Next();
    while item.Some?
      invariant it.bitArray == a && c0 < it.counter
      invariant item == a.Get(it.counter - 1)
      invariant Yields(a, c0) == items + Yields(a, it.counter - 1)
      invariant it.counter - 1 <= if c0 < a.len then a.len else c0
      decreases a.len + 1 - it.counter
    {
      ghost var before := items;
      YieldsStep(a, it.counter - 1);
      items := items + [item.value];
      assert before + ([item.value] + Yields(a, it.counter)) == items + Yields(a, it.counter);
      ghost var c := it.counter;
      item := it.Next();
      assert it.bitArray == a && it.counter - 1 == c && item == a.Get(c);
    }
  }

  /** Before its first `None`, an iterator yields the item at its cursor and
      then what the advanced iterator yields. */
  lemma YieldsStep(a: BitArray, counter: nat)
    requires counter < a.len
    ensures Yields(a, counter) == [a.Get(counter).value] + Yields(a, counter + 1)
  {
    assert a.Elements()[counter..] == [a.Elements()[counter]] + a.Elements()[counter + 1..];
  }

  /** The test `iter_works`, for every input: collecting the iterator of
      `new(s)` gives `s` back, and `new` fails on more than `MAX_LEN`. */
  method NewIterCollect(s: seq<bool>) returns (r: Result<seq<bool>, NewError>)
    ensures r.Ok? <==> |s| <= MAX_LEN
    ensures r.Ok? ==> r.value == s
  {
    var arr := New(s);
    if arr.Err? {
      return Err(arr.error);
    }
    var it := arr.value.Iter();
    var items := Collect(it);
    ElementsEncode(s);
    r := Ok(items);
  }

  /** The tests `new_works` and `get_works`. */
  lemma NewWorksExample()
    ensures Encode([true, false, false, false, false, true, true, true]) == 0x87  // binary 1000_0111
    ensures var a := BitArray(Encode([true, false, false, false, false, true, true, true]), 8);
      a.Get(0) == Some(true) && a.Get(2) == Some(false) && a.Get(9) == None
  {
    var s := [true, false, false, false, false, true, true, true];
    assert Encode(s[..1]) == 1 by { assert s[..1][..0] == []; }
    assert Encode(s[..2]) == 2 by { assert s[..2][..1] == s[..1]; }
    assert Encode(s[..3]) == 4 by { assert s[..3][..2] == s[..2]; }
    assert Encode(s[..4]) == 8 by { assert s[..4][..3] == s[..3]; }
    assert Encode(s[..5]) == 16 by { assert s[..5][..4] == s[..4]; }
    assert Encode(s[..6]) == 33 by { assert s[..6][..5] == s[..5]; }
    assert Encode(s[..7]) == 67 by { assert s[..7][..6] == s[..6]; }
    assert s[..8] == s && s[..7] == s[..|s| - 1];
    GetNew(s, 0);
    GetNew(s, 2);
  }

  /** The test `new_with_too_large_iter_fails`. */
  method NewWithTooLargeIterFails() returns (r: Result<BitArray, NewError>)
    ensures r == Err(TooManyElements)
  {
    var s := seq(129, _ => true);
    assert |s| == 129;
    r := New(s);
    assert r.Err? && r.error.TooManyElements?;
  }
}
