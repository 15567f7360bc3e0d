/** Generic sequence helpers of `sub_lib/src/utils.rs`: a brute-force
    sub-sequence search, an element search from an offset, the draining of a
    producer into a vector, and uppercase hexadecimal encoding of bytes.

    Rust's `T: PartialEq` is modelled by Dafny's equality types `T(==)`; a
    `usize` index is a `nat`. */
module Utils {
  import opened Wrappers

  // ---------------------------------------------------------------------------
  // index_of
  // ---------------------------------------------------------------------------

  /** `needle` occurs contiguously in `haystack` starting at position `h`, with
      the whole window inside the haystack. */
  predicate OccursAt<T(==)>(haystack: seq<T>, needle: seq<T>, h: int)
  {
    0 <= h && h + |needle| <= |haystack| &&
    forall k :: 0 <= k < |needle| ==> haystack[h + k] == needle[k]
  }

  /** `index_of`: the lowest start at which `needle` occurs in `haystack`, or
      `None` when it occurs nowhere. An empty needle is a programming error
      (the source panics), hence the precondition. A candidate start whose
      window would run past the end of the haystack is rejected, never read. */
  method IndexOf<T(==)>(haystack: seq<T>, needle: seq<T>) returns (r: Option<nat>)
    requires |needle| > 0
    ensures r.Some? ==> OccursAt(haystack, needle, r.value)
    ensures r.Some? ==> forall h :: 0 <= h < r.value ==> !OccursAt(haystack, needle, h)
    ensures r.None? <==> forall h :: !OccursAt(haystack, needle, h)
  {
    for h := 0 to |haystack|
      invariant forall j :: 0 <= j < h ==> !OccursAt(haystack, needle, j)
    {
      var mismatch := false;
      for n := 0 to |needle|
        invariant !mismatch
        invariant h + n <= |haystack|
        invariant forall k :: 0 <= k < n ==> haystack[h + k] == needle[k]
      {
        var i := h + n;
        if i >= |haystack| {
          mismatch := true;
          break;
        }
        if haystack[h + n] != needle[n] {
          mismatch := true;
          break;
        }
      }
      if !mismatch {
        return Some(h);
      }
    }
    return None;
  }

  // ---------------------------------------------------------------------------
  // index_of_from
  // ---------------------------------------------------------------------------

  /** `index_of_from`: the first position at or after `startAt` holding an
      element equal to `needle`, or `None`. A start at or past the end is not
      an error: it finds nothing. */
  method IndexOfFrom<T(==)>(haystack: seq<T>, needle: T, startAt: nat) returns (r: Option<nat>)
    ensures startAt >= |haystack| ==> r == None
    ensures r.Some? ==> startAt <= r.value < |haystack| && haystack[r.value] == needle
    ensures r.Some? ==> forall j :: startAt <= j < r.value ==> haystack[j] != needle
    ensures r.None? <==> forall j :: startAt <= j < |haystack| ==> haystack[j] != needle
  {
    var index := startAt;
    while index < |haystack| && haystack[index] != needle
      invariant startAt <= index
      invariant index == startAt || index <= |haystack|
      invariant forall j :: startAt <= j < index ==> haystack[j] != needle
      decreases |haystack| - index
    {
      index := index + 1;
    }
    if index >= |haystack| {
      r := None;
    } else {
      r := Some(index);
    }
  }

  // ---------------------------------------------------------------------------
  // accumulate
  // ---------------------------------------------------------------------------

  /** The order in which repeated pops of a vector holding `s` yield its
      elements: last element first. */
  function PopOrder<T>(s: seq<T>): (r: seq<T>)
    ensures |r| == |s|
  {
    if s == [] then [] else [s[|s| - 1]] + PopOrder(s[..|s| - 1])
  }

  /** Position `k` of the pop order is position `|s| - 1 - k` of the vector. */
  lemma {:induction false} PopOrderAt<T>(s: seq<T>, k: nat)
    requires k < |s|
    ensures PopOrder(s)[k] == s[|s| - 1 - k]
  {
    if k > 0 {
      PopOrderAt(s[..|s| - 1], k - 1);
    }
  }

  /** A vector used as a producer: the closure `|| values.pop()` of the
      source's tests, which drains the vector it captures. */
  class Stack<T> {
    var elements: seq<T>

    constructor (init: seq<T>)
      ensures elements == init
    {
      elements := init;
    }

    /** The values that successive calls of `Pop` yield before the first `None`. */
    ghost function Yields(): seq<T>
      reads this
    {
      PopOrder(elements)
    }

    /** `Vec::pop`: removes and yields the last element, or yields `None` and
        changes nothing when the vector is empty. */
    method Pop() returns (r: Option<T>)
      modifies this
      ensures old(elements) == [] ==> r == None && elements == []
      ensures old(elements) != [] ==>
        r == Some(old(elements)[|old(elements)| - 1]) &&
        elements == old(elements)[..|old(elements)| - 1]
      ensures old(Yields()) == (if r.Some? then [r.value] + Yields() else [])
    {
      if elements == [] {
        r := None;
      } else {
        r := Some(elements[|elements| - 1]);
        elements := elements[..|elements| - 1];
      }
    }
  }

  /** `accumulate`: calls the producer until it yields `None` and collects the
      values it yielded, in the order yielded. The producer's remaining values
      are the termination measure; afterwards it is drained. */
  method Accumulate<T>(source: Stack<T>) returns (result: seq<T>)
    modifies source
    ensures result == old(source.Yields())
    ensures source.elements == []
  {
    result := [];
    while true
      invariant result + source.Yields() == old(source.Yields())
      decreases |source.elements|
    {
      var next := source.Pop();
      match next {
        case Some(r) =>
          result := result + [r];
        case None =>
          break;
      }
    }
  }

  // ---------------------------------------------------------------------------
  // make_hex_string
  // ---------------------------------------------------------------------------

  /** Rust's `u8`. */
  newtype byte = x: int | 0 <= x < 256

  /** The uppercase hexadecimal digit of a nibble. */
  function HexDigit(n: nat): (c: char)
    requires n < 16
    ensures c == "0123456789ABCDEF"[n]
    ensures '0' <= c <= '9' || 'A' <= c <= 'F'
  {
    if n < 10 then ('0' as int + n) as char else ('A' as int + (n - 10)) as char
  }

  /** The value of an uppercase hexadecimal digit; `None` for any other
      character. It is the exact inverse of `HexDigit`. */
  function DigitValue(c: char): (r: Option<nat>)
    ensures r.Some? ==> r.value < 16 && HexDigit(r.value) == c
    ensures r.None? ==> forall n :: 0 <= n < 16 ==> HexDigit(n) != c
  {
    if '0' <= c <= '9' then Some(c as int - '0' as int)
    else if 'A' <= c <= 'F' then Some(c as int - 'A' as int + 10)
    else None
  }

  /** `format!("{:02X}", b)`: two uppercase digits, high nibble first, zero-padded. */
  function ByteToHex(b: byte): (s: string)
    ensures |s| == 2
    ensures DigitValue(s[0]) == Some(b as int / 16) && DigitValue(s[1]) == Some(b as int % 16)
  {
    [HexDigit(b as int / 16), HexDigit(b as int % 16)]
  }

  /** `make_hex_string`: each byte as two uppercase hexadecimal digits,
      concatenated in input order without separators. */
  function HexString(bytes: seq<byte>): (s: string)
    ensures |s| == 2 * |bytes|
  {
    if bytes == [] then "" else ByteToHex(bytes[0]) + HexString(bytes[1..])
  }

  /** Characters `2i` and `2i+1` of the encoding are the high and low nibble
      digits of byte `i`. */
  lemma {:induction false} HexStringAt(bytes: seq<byte>, i: nat)
    requires i < |bytes|
    ensures HexString(bytes)[2 * i] == HexDigit(bytes[i] as int / 16)
    ensures HexString(bytes)[2 * i + 1] == HexDigit(bytes[i] as int % 16)
  {
    if i > 0 {
      HexStringAt(bytes[1..], i - 1);
    }
  }

  /** Every character of the encoding is an uppercase hexadecimal digit. */
  lemma HexStringIsUpperHex(bytes: seq<byte>)
    ensures forall j :: 0 <= j < |HexString(bytes)| ==> DigitValue(HexString(bytes)[j]).Some?
  {
    forall j | 0 <= j < |HexString(bytes)|
      ensures DigitValue(HexString(bytes)[j]).Some?
    {
      HexStringAt(bytes, j / 2);
    }
  }

  /** Decoding of an uppercase hexadecimal string: the inverse of `HexString`.
      A string of odd length or holding any other character decodes to `None`. */
  function ParseHex(s: string): Option<seq<byte>>
  {
    if s == [] then Some([])
    else if |s| == 1 then None
    else match (DigitValue(s[0]), DigitValue(s[1]), ParseHex(s[2..]))
      case (Some(hi), Some(lo), Some(rest)) => Some([(hi * 16 + lo) as byte] + rest)
      case _ => None
  }

  lemma DigitValueOfHexDigit(n: nat)
    requires n < 16
    ensures DigitValue(HexDigit(n)) == Some(n)
  {
  }

  /** Decoding an encoding gives back the bytes: no information is lost. */
  lemma {:induction false} ParseHexOfHexString(bytes: seq<byte>)
    ensures ParseHex(HexString(bytes)) == Some(bytes)
  {
    if bytes != [] {
      var b := bytes[0] as int;
      var s := HexString(bytes);
      assert s == ByteToHex(bytes[0]) + HexString(bytes[1..]);
      assert s[2..] == HexString(bytes[1..]);
      DigitValueOfHexDigit(b / 16);
      DigitValueOfHexDigit(b % 16);
      ParseHexOfHexString(bytes[1..]);
      assert [(b / 16 * 16 + b % 16) as byte] + bytes[1..] == bytes;
    }
  }

  /** Every string that decodes is the encoding of what it decodes to: the
      encoding is the only textual form of a byte sequence (uppercase, two
      digits per byte, no separators). */
  lemma {:induction false} HexStringOfParseHex(s: string, bytes: seq<byte>)
    requires ParseHex(s) == Some(bytes)
    ensures HexString(bytes) == s
  {
    if s != [] {
      var hi := DigitValue(s[0]).value;
      var lo := DigitValue(s[1]).value;
      var rest := ParseHex(s[2..]).value;
      assert bytes == [(hi * 16 + lo) as byte] + rest;
      HexStringOfParseHex(s[2..], rest);
      assert bytes[1..] == rest;
      assert (hi * 16 + lo) / 16 == hi && (hi * 16 + lo) % 16 == lo;
      assert s == [s[0], s[1]] + s[2..];
    }
  }
}
