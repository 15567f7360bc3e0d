# Sequence helpers of `sub_lib` in Dafny

A model of the generic helpers in `sub_lib/src/utils.rs`:

- `index_of` (`Utils.IndexOf`): brute-force search for the first contiguous
  occurrence of a non-empty needle in a haystack. It keeps the source's nested
  loops, its `mismatch` flag and its early `break` and `return`. It is proved
  sound, minimal and complete against the declarative predicate
  `Utils.OccursAt`.
- `index_of_from` (`Utils.IndexOfFrom`): forward search for one element from
  a start offset. It keeps the source's `while` loop, and a start at or past
  the end finds nothing.
- `accumulate` (`Utils.Accumulate`): drains a producer into a vector until the
  producer yields `None`. The producer is the one the source's tests use: a
  vector popped from the back (`Utils.Stack`, whose `Pop` is `Vec::pop`).
  The values it will still yield are `Utils.PopOrder` of its contents, and the
  number of its remaining elements is the termination measure.
- `make_hex_string` (`Utils.HexString`): each byte as two uppercase,
  zero-padded hexadecimal digits, with no separators. Its partner is a decoder
  (`Utils.ParseHex`), and the round trip is proved in both directions.

Rust's `T: PartialEq` is Dafny's equality type `T(==)`, `usize` indices are
`nat`, `u8` is the newtype `Utils.byte`, and a `String` is a `seq<char>`. The
panic of `index_of` on an empty needle is the precondition `|needle| > 0`.
The module `UtilsTests` restates the source's unit tests (lines 81-173) as
client methods, and adds one example for `make_hex_string`, which has no unit
test in the source. Their assertions follow from the contracts and the
function definitions.

Files: `wrappers.dfy` (the `Option` type), `utils.dfy` (the model),
`utils_tests.dfy` (the unit tests as clients).

## Model

| member | source | states |
|---|---|---|
| `Utils.IndexOf` | sub_lib/src/utils.rs:21-33 | Needs a non-empty needle (the source panics otherwise). A result `Some(h)` is a start where the whole needle fits inside the haystack and matches element by element, and no smaller start matches. The result is `None` exactly when no start matches, so an empty haystack or a needle that would overrun the end gives `None`. |
| `Utils.IndexOfFrom` | sub_lib/src/utils.rs:35-42 | A start at or past the end gives `None`. A result `Some(i)` has `start_at <= i < len`, `haystack[i] == needle`, and no equal element in `[start_at, i)`. The result is `None` exactly when no element in `[start_at, len)` equals the needle. |
| `Utils.PopOrder` | sub_lib/src/utils.rs:166-173 | The sequence that repeated pops yield from a vector has as many elements as the vector. |
| `Utils.PopOrderAt` | sub_lib/src/utils.rs:166-173 | The k-th value popped is the vector's element `len - 1 - k`: pops yield the elements last first. |
| `Utils.Stack.constructor` | sub_lib/src/utils.rs:167 | The producer's vector starts with the given elements. |
| `Utils.Stack.Pop` | sub_lib/src/utils.rs:169 | On an empty vector it yields `None` and changes nothing. Otherwise it yields `Some` of the last element and removes it. What is yielded is the head of the values still to come, and after `None` nothing more comes. |
| `Utils.Accumulate` | sub_lib/src/utils.rs:44-53 | The result is exactly the values the producer yields before its first `None`, in the order yielded, and the producer's vector is empty afterwards. An immediately ending producer gives an empty result. |
| `Utils.HexDigit` | sub_lib/src/utils.rs:57 | A nibble's digit is its entry in the table `0123456789ABCDEF`, so it is one of `0-9` or uppercase `A-F`. |
| `Utils.DigitValue` | sub_lib/src/utils.rs:57 | Inverse of `HexDigit`: a value it returns is a nibble whose digit is the given character, and it returns `None` only for characters that are no nibble's digit. |
| `Utils.DigitValueOfHexDigit` | sub_lib/src/utils.rs:57 | Reading back the digit of nibble `n` gives `n`. |
| `Utils.ByteToHex` | sub_lib/src/utils.rs:57 | `format!("{:02X}", b)` gives exactly two characters: the uppercase digit of the high nibble of `b`, then that of the low nibble (zero-padded). |
| `Utils.HexString` | sub_lib/src/utils.rs:55-60 | The encoding has exactly two characters per byte, so the empty input gives the empty string. |
| `Utils.HexStringAt` | sub_lib/src/utils.rs:55-60 | Characters `2i` and `2i+1` are the uppercase digits of the high and low nibble of byte `i`: zero-padded, in input order, with no separators. |
| `Utils.HexStringIsUpperHex` | sub_lib/src/utils.rs:57 | Every character of the encoding is an uppercase hexadecimal digit. |
| `Utils.ParseHexOfHexString` | sub_lib/src/utils.rs:55-60 | Decoding the encoding of any byte sequence gives back that sequence, so the encoding loses no information. |
| `Utils.HexStringOfParseHex` | sub_lib/src/utils.rs:55-60 | Any string that decodes is the encoding of its decoded bytes, so the encoding is the only textual form of a byte sequence. |

## Left out

- `to_string` and `to_string_s` (sub_lib/src/utils.rs:62-74) are left out. Their behaviour is the standard library's UTF-8 validation (`String::from_utf8`) and its `{:?}` formatting of `Vec<u8>`, neither of which is part of this model.
- The macros `try_opt!` and `try_flg!` (sub_lib/src/utils.rs:3-19) are left out. They are control-flow sugar, unused in the file, with no behaviour of their own.
- `IndexOf` does not model the panic or its message ("Can't find index of empty subsequence"). An empty needle is excluded by its precondition, so the test at lines 109-113 has no counterpart among the clients.
- `Accumulate` takes the vector-popping producer of the tests (lines 166-173), not an arbitrary `FnMut` closure. The immediately-ending closure of the test at lines 158-163 is modelled as a producer over an empty vector. A producer that never yields `None`, for which the source loops forever, cannot be expressed, because this producer always drains.
- `PartialEq` is taken to be a real equality (reflexive, symmetric, transitive). Rust does not enforce that for arbitrary `PartialEq` implementations.
- Index overflow of `usize` is not modelled. It cannot happen here: every index the loops compute is bounded by a slice length, and `start_at` is only incremented while it is below the length.
