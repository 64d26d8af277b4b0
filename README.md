# bitarray — a Dafny model of `BitArray`

The crate has a single value type, `BitArray`. It is a sequence of at most 128 booleans,
packed into one `u128` word (`data`) with an explicit element count (`len: u8`).
`BitArray::new` shifts the input in one element at a time, so the first element sits in the
most significant of the `len` used bits. `new` panics on the 129th element. `get(i)` reads
bit `len - 1 - i` and returns `None` when `i >= len`. `iter` gives a `BitArrayIter`, which
owns a copy of the array and walks a counter over it.

The model has four modules:

- `Wrappers` (`wrappers.dfy`) holds `Option` and `Result`.
- `Bitarray` (`bitarray.dfy`) holds the datatype `BitArray` (with `Get` and `Iter`, and the
  derived `Default`), the method `New` with its loop, the specification function `Encode`
  (the big-endian value of the input), and the class `BitArrayIter` with its `counter` field
  and the methods `Next` and `SizeHint`. The panic of `new` becomes `Err(TooManyElements)`.
  The fields `data` and `len` are unbounded `nat`s. The predicate `Valid()` states what every
  array built by `new` or `Default` satisfies: `len` is at most `MAX_LEN` (128), and `data` is
  below `2^len`, hence below `2^128`. `Get`, `Elements` and the iterator do not require it.
- `BitarrayProperties` (`properties.dfy`) holds the lemmas that connect packing and reading.
  `Encode` and `Elements` are inverse on valid arrays, and `get` on a constructed array reads
  the input.
- `Iteration` (`iteration.dfy`) holds `Collect`, which calls `Next` until `None` the way
  `Iterator::collect` does, the round trip `new(s).iter().collect() == s`, and the crate's tests
  stated as lemmas and methods.

Later versions of the crate are generic over five word widths and truncate over-long input.
They also have an unchecked `get` that returns `bool`, and they add `set`, `all_one` and
iterators over the ones and the zeroes. This model covers the version with a `len` field, a
`new` that panics past 128 elements, and a `get` that returns `Option`.

## Model

| member | source | states |
|---|---|---|
| `Bitarray.Encode` | src/lib.rs:23-36 | the packed value of an input of n elements is below 2^n, so no bit above `len` is set |
| `Bitarray.Bit` | src/lib.rs:60-64 | bit `k` of `data` is set exactly when `data / 2^k` is odd, which is the test `data & (1 << k) > 0` |
| `Bitarray.ShiftLeft1` | src/lib.rs:30 | `data <<= 1` on a `u128` is `2 * data` modulo `2^128`: it stays inside a `u128`, clears the low bit, and doubles `data` whenever nothing is shifted out |
| `Bitarray.SetLowBit` | src/lib.rs:35 | `data \|= 1` sets the low bit and leaves every higher bit alone |
| `Bitarray.ShiftInPrefix` | src/lib.rs:28-36 | one pass of the loop body (shift, then set the low bit for `true`) turns the packing of the first k elements into the packing of the first k + 1, without losing a bit while k < `MAX_LEN` |
| `Bitarray.New` | src/lib.rs:22-49 | succeeds exactly when the input has at most `MAX_LEN` elements; then `len` is the element count, `data` is the big-endian value of the input, and the array is valid; otherwise it fails (the panic) |
| `Bitarray.BitArray.Elements` | src/lib.rs:57-64 | the array's elements, element `i` being bit `len - 1 - i`; there are exactly `len` of them |
| `Bitarray.BitArray.Get` | src/lib.rs:53-65 | `None` exactly when the index is at or past `len`; otherwise `Some` of the element at that index |
| `Bitarray.BitArray.Iter` | src/lib.rs:69-72 | a fresh iterator holding a copy of the array, with its counter at 0 |
| `Bitarray.BitArray.Default` | src/lib.rs:9 | the derived default is valid, has no elements, and `get` is `None` at every index |
| `Bitarray.BitArrayIter.constructor` | src/lib.rs:81-86 | the iterator holds the given array and starts at counter 0 |
| `Bitarray.BitArrayIter.Next` | src/lib.rs:92-96 | returns `get(counter)` of the copy, advances `counter` by exactly one, changes nothing else, and uses up one remaining item if any is left |
| `Bitarray.BitArrayIter.SizeHint` | src/lib.rs:98-100 | returns `(0, Some(MAX_LEN))` unconditionally; when the copied array is valid, the items still to come lie within those bounds |
| `BitarrayProperties.EncodeBit` | src/lib.rs:29-36 | in the packed value, bit `n - 1 - i` equals input element `i` |
| `BitarrayProperties.ElementsEncode` | src/lib.rs:22-66 | decoding what `new` packs gives back the input |
| `BitarrayProperties.EncodeElements` | src/lib.rs:22-66 | packing the elements of a valid array gives back its `data`, so every valid array is one that `new` can build |
| `BitarrayProperties.EncodeInjective` | src/lib.rs:29-39 | two inputs of one length that pack to the same word are equal |
| `BitarrayProperties.GetNew` | src/lib.rs:53-64 | `get(i)` on `new(s)` is `Some(s[i])` for `i < \|s\|` and `None` otherwise |
| `Iteration.YieldsBound` | src/lib.rs:98-99 | an iterator yields at most `len <= MAX_LEN` items, and item `j` is `get(counter + j)` |
| `Iteration.RemainingYields` | src/lib.rs:92-99 | the count of remaining items that `next` uses up is the length of the sequence the iterator still yields |
| `Iteration.YieldsStep` | src/lib.rs:92-96 | before the first `None`, the iterator yields `get(counter)` followed by what the iterator with the next counter yields |
| `Iteration.Collect` | src/lib.rs:89-96 | calling `next` until `None` yields the elements from the counter on, and leaves the copy unchanged. The counter ends one past `len` when it started below `len`, and one past its old value otherwise |
| `Iteration.NewIterCollect` | src/lib.rs:131-136 | collecting `new(s).iter()` gives back `s` for every input of at most `MAX_LEN` elements, and fails otherwise |
| `Iteration.NewWorksExample` | src/lib.rs:108-128 | `[t,f,f,f,f,t,t,t]` packs to binary `10000111`; `get(0)` is `Some(true)`, `get(2)` is `Some(false)`, `get(9)` is `None` |
| `Iteration.NewWithTooLargeIterFails` | src/lib.rs:116-119 | 129 elements make `new` fail |

## Left out

- The serde derives (`Serialize`, `Deserialize`): they come from an external library and carry no logic here.
- The `format!("{:b}")` rendering in the test `new_works`: it is standard formatting. The model states the numeric value of `data` instead.
- Rust's generic `IntoIterator` input: the input is a finite `seq<bool>`. An infinite producer would panic at element 129 anyway.
- `Bitarray.BitArray.Get`: the index is a `nat` instead of a `u8`. Every `u8` index behaves as in the source, and wider ones are also `None`.
- `Bitarray.BitArrayIter.Next`: the counter is an unbounded `nat`. The `u8` overflow panic after 255 calls to `next` is debug-mode arithmetic and is not modelled.
- `Bitarray.New`: the value of `data` at the moment of the panic is not modelled. The shift of the 129th element happens before the check, but only the failure can be observed.
- `Bitarray.ShiftLeft1`: it requires its argument to be below `2^128`, which every `u128` is.
- The bit operations `<<`, `|` and `&` are written as arithmetic on `nat`. The contract of `Bit` links the recursive bit read to the shift-and-mask form.
- `Clone` and `Copy`: a Dafny datatype is a value, so copying it is implicit. The iterator's private copy is the `bitArray` field, and `Next` never assigns it.
