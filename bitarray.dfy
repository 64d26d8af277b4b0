/** A boolean sequence of at most 128 elements, packed big-endian into the
    low `len` bits of one unsigned 128-bit word, and its by-copy iterator. */
module Bitarray {
  import opened Wrappers

  /** `BitArray::MAX_LEN`: the number of bits in a `u128`. */
  const MAX_LEN: nat := 128

  /** One more than the largest `u128`, that is `2^MAX_LEN`. */
  const WORD: nat := 0x1_0000_0000_0000_0000_0000_0000_0000_0000

  function Pow2(k: nat): (r: nat)
    ensures r >= 1
  {
    if k == 0 then 1 else 2 * Pow2(k - 1)
  }

  lemma {:induction false} Pow2Monotone(i: nat, j: nat)
    requires i <= j
    ensures Pow2(i) <= Pow2(j)
  {
    if i < j { Pow2Monotone(i, j - 1); }
  }

  lemma {:induction false} Pow2Add(a: nat, b: nat)
    ensures Pow2(a + b) == Pow2(a) * Pow2(b)
  {
    if b > 0 {
      Pow2Add(a, b - 1);
      assert Pow2(a + b) == 2 * Pow2(a + b - 1);
    }
  }

  lemma Pow2Double(k: nat, v: nat)
    requires Pow2(k) == v
    ensures Pow2(2 * k) == v * v
  {
    Pow2Add(k, k);
  }

  lemma Pow2MaxLen()
    ensures Pow2(MAX_LEN) == WORD
  {
    assert Pow2(2) == 4;
    Pow2Double(2, 4);
    Pow2Double(4, 0x10);
    Pow2Double(8, 0x100);
    Pow2Double(16, 0x1_0000);
    Pow2Double(32, 0x1_0000_0000);
    Pow2Double(64, 0x1_0000_0000_0000_0000);
  }

  /** Every `k <= MAX_LEN` bits fit in a `u128`. */
  lemma Pow2BelowWord(k: nat)
    requires k <= MAX_LEN
    ensures Pow2(k) <= WORD
  {
    Pow2MaxLen();
    Pow2Monotone(k, MAX_LEN);
  }

  /** Bit `k` of `n`, least significant bit first: the mask test
      `n & (1 << k) > 0`, that is, `n / 2^k` is odd. */
  function Bit(n: nat, k: nat): (r: bool)
    ensures r <==> (n / Pow2(k)) % 2 == 1
  {
    if k == 0 then n % 2 == 1
    else
      DivPow2Step(n, k - 1);
      Bit(n / 2, k - 1)
  }

  lemma DivPow2Step(n: nat, k: nat)
    ensures n / Pow2(k + 1) == (n / 2) / Pow2(k)
  {
    var p := Pow2(k);
    var q, a, c := n / 2, (n / 2) / p, (n / 2) % p;
    assert n == 2 * q + n % 2;
    assert q == p * a + c;
    assert n == (2 * p) * a + (2 * c + n % 2);
    assert 0 <= 2 * c + n % 2 < 2 * p;
    DivUnique(n, 2 * p, a, 2 * c + n % 2);
  }

  lemma DivUnique(n: nat, d: nat, q: nat, m: nat)
    requires 0 <= m < d && n == d * q + m
    ensures n / d == q
  {
    var q', m' := n / d, n % d;
    assert n == d * q' + m';
    if q' > q {
      MulGap(d, q, q');
    } else if q' < q {
      MulGap(d, q', q);
    }
  }

  lemma MulGap(d: nat, x: int, y: int)
    requires x < y
    ensures d * y >= d * x + d
  {
    var t := y - x;
    assert d * y == d * x + d * t;
    assert d * t - d == d * (t - 1);
  }

  /** `n << 1` on a `u128` value `n`: the bit shifted out at the top is
      lost, so the result is `2 * n` modulo `2^128`. */
  function ShiftLeft1(n: nat): (r: nat)
    requires n < WORD
    ensures r < WORD && r % 2 == 0
    ensures n * 2 < WORD ==> r == n * 2
    ensures r == (n * 2) % WORD
  {
    var doubled := n * 2;
    if doubled < WORD then doubled else doubled - WORD
  }

  /** `n | 1`. */
  function SetLowBit(n: nat): (r: nat)
    ensures r % 2 == 1 && r - 1 == n - n % 2
  {
    if n % 2 == 1 then n else n + 1
  }

  /** The binary number whose most significant digit is `s[0]`: the packing
      that `BitArray::new` computes. */
  function Encode(s: seq<bool>): (r: nat)
    ensures r < Pow2(|s|)
  {
    if s == [] then 0
    else 2 * Encode(s[..|s| - 1]) + (if s[|s| - 1] then 1 else 0)
  }

  /** A value of `k < MAX_LEN` bits can be shifted left without loss. */
  lemma DoubleFits(n: nat, k: nat)
    requires k < MAX_LEN && n < Pow2(k)
    ensures n * 2 < WORD
  {
    Pow2BelowWord(k + 1);
  }

  /** Packing one more element doubles the value and adds that element. */
  lemma EncodePrefix(s: seq<bool>, k: nat)
    requires k < |s|
    ensures Encode(s[..k + 1]) == 2 * Encode(s[..k]) + (if s[k] then 1 else 0)
  {
    assert s[..k + 1][..k] == s[..k];
  }

  /** One step of the loop of `new` packs one more element. */
  lemma ShiftInPrefix(s: seq<bool>, k: nat, data: nat)
    requires k < |s| && k < MAX_LEN && data == Encode(s[..k])
    ensures data < WORD
    ensures var shifted := ShiftLeft1(data);
      (if s[k] then SetLowBit(shifted) else shifted) == Encode(s[..k + 1])
  {
    DoubleFits(data, k);
    EncodePrefix(s, k);
  }

  /** The panic of `BitArray::new` on an input of more than 128 elements. */
  datatype NewError = TooManyElements

  datatype BitArray = BitArray(data: nat, len: nat)
  {
    /** What every value built by `new` or `Default` satisfies: at most
        `MAX_LEN` elements, and no bit set above the `len` used ones. */
    predicate Valid()
    {
      len <= MAX_LEN && data < Pow2(len)
    }

    /** The elements, in order: element `i` is bit `len - 1 - i`. */
    function Elements(): (s: seq<bool>)
      ensures |s| == len
    {
      seq(len, i requires 0 <= i < len => Bit(data, len - 1 - i))
    }

    /** `BitArray::get`. */
    function Get(index: nat): (r: Option<bool>)
      ensures r.None? <==> index >= len
      ensures r.Some? ==> r.value == Elements()[index]
    {
      if !(index < len) then None
      else
        var bitIndex := (len - 1) - index;
        Some(Bit(data, bitIndex))
    }

    /** `BitArray::iter`: the iterator owns a copy of the array. */
    method Iter() returns (it: BitArrayIter)
      ensures fresh(it) && it.bitArray == this && it.counter == 0
    {
      it := new BitArrayIter(this);
    }

    /** The derived `Default`: no elements, no bits set. */
    static function Default(): (a: BitArray)
      ensures a.Valid() && a.Elements() == []
      ensures forall index: nat :: a.Get(index) == None
    {
      BitArray(0, 0)
    }
  }

  /** `BitArray::new`. The input is shifted in one element at a time; the
      129th element makes it fail. */
  method New(s: seq<bool>) returns (r: Result<BitArray, NewError>)
    ensures r.Ok? <==> |s| <= MAX_LEN
    ensures r.Ok? ==> r.value == BitArray(Encode(s), |s|) && r.value.Valid()
  {
    var data: nat := 0;
    var len: nat := 0;
    var k := 0;
    while k < |s|
      invariant k <= |s| && len == k <= MAX_LEN
      invariant data == Encode(s[..k])
    {
      Pow2BelowWord(k);
      ghost var before := data;
      data := ShiftLeft1(data);
      if s[k] {
        data := SetLowBit(data);
      }
      if len < MAX_LEN {
        len := len + 1;
      } else {
        return Err(TooManyElements);
      }
      ShiftInPrefix(s, k, before);
      k := k + 1;
    }
    assert s[..k] == s;
    r := Ok(BitArray(data, len));
  }

  /** `BitArrayIter`: a private copy of an array and a cursor. */
  class BitArrayIter {
    var bitArray: BitArray
    var counter: nat

    constructor (bitArray: BitArray)
      ensures this.bitArray == bitArray && counter == 0
    {
      this.bitArray := bitArray;
      counter := 0;
    }

    /** The number of `Some` items the iterator still yields. */
    ghost function Remaining(): nat
      reads this
    {
      if counter < bitArray.len then bitArray.len - counter else 0
    }

    /** `Iterator::next`: the item at the cursor, then the cursor moves on. */
    method Next() returns (item: Option<bool>)
      modifies this`counter
      ensures item == bitArray.Get(old(counter))
      ensures counter == old(counter) + 1
      ensures Remaining() == if old(Remaining()) > 0 then old(Remaining()) - 1 else 0
    {
      item := bitArray.Get(counter);
      counter := counter + 1;
    }

    /** `Iterator::size_hint`: no lower bound, `MAX_LEN` as upper bound. */
    method SizeHint() returns (lower: nat, upper: Option<nat>)
      ensures lower == 0 && upper == Some(MAX_LEN)
      ensures bitArray.Valid() ==> lower <= Remaining() <= upper.value
    {
      lower, upper := 0, Some(MAX_LEN);
    }
  }
}
