/** The unit tests of `sub_lib/src/utils.rs`, restated as clients whose
    assertions follow from the contracts and the function definitions in
    `Utils`, plus one added example for `make_hex_string`, which has no test
    of its own there. Rust's `"...".as_bytes()` is modelled by a string of the
    same characters. */
module UtilsTests {
  import opened Wrappers
  import opened Utils

  method IndexOfFailsToFindNonexistentNeedleInHaystack() {
    var haystack, needle := "haystack", "needle";
    var result := IndexOf(haystack, needle);
    forall h ensures !OccursAt(haystack, needle, h) {
      if 0 <= h && h + |needle| <= |haystack| {
        assert h == 0 || h == 1 || h == 2;
        assert haystack[h] != needle[0];
      }
    }
    assert result == None;
  }

  method IndexOfFindsNeedleAtBeginningOfHaystack() {
    var result := IndexOf("haystack haystack", "haystack");
    assert OccursAt("haystack haystack", "haystack", 0);
    assert result == Some(0);
  }

  method IndexOfFindsNeedleAtEndOfHaystack() {
    var haystack, needle := "needle haystack", "haystack";
    var result := IndexOf(haystack, needle);
    assert OccursAt(haystack, needle, 7);
    assert result.Some? && result.value <= 7;
    // every earlier start fails on its first character, except 3, which fails on its second
    assert !OccursAt(haystack, needle, 0) by { assert haystack[0] != needle[0]; }
    assert !OccursAt(haystack, needle, 1) by { assert haystack[1] != needle[0]; }
    assert !OccursAt(haystack, needle, 2) by { assert haystack[2] != needle[0]; }
    assert !OccursAt(haystack, needle, 3) by { assert haystack[4] != needle[1]; }
    assert !OccursAt(haystack, needle, 4) by { assert haystack[4] != needle[0]; }
    assert !OccursAt(haystack, needle, 5) by { assert haystack[5] != needle[0]; }
    assert !OccursAt(haystack, needle, 6) by { assert haystack[6] != needle[0]; }
    assert result == Some(7);
  }

  method IndexOfFailsToFindNonemptyNeedleInEmptyHaystack() {
    var result := IndexOf("", "needle");
    assert result == None;
  }

  method IndexOfFailsToFindNeedleThatEndsPastEndOfHaystack() {
    var haystack, needle := "haystack needl", "needle";
    var result := IndexOf(haystack, needle);
    // the only 'n' of the haystack is at 9, too late for a needle of six
    forall h ensures !OccursAt(haystack, needle, h) {
      if 0 <= h && h + |needle| <= |haystack| {
        assert h == 0 || h == 1 || h == 2 || h == 3 || h == 4 || h == 5 || h == 6 || h == 7 || h == 8;
        assert haystack[h] != needle[0];
      }
    }
    assert result == None;
  }

  method IndexOfFromFailsToFindNonexistentNeedleInHaystack() {
    var result := IndexOfFrom([true, true, true, true], false, 0);
    assert result == None;
  }

  method IndexOfFromFailsToFindNeedleInEmptyHaystack() {
    var haystack: seq<int> := [];
    var result := IndexOfFrom(haystack, -42, 0);
    assert result == None;
  }

  method IndexOfFromFindsNeedleAtBeginningOfSearch() {
    var haystack := [8, 7, 8, 3];
    var result := IndexOfFrom(haystack, 8, 2);
    assert haystack[2] == 8;
    assert result == Some(2);
  }

  method IndexOfFromFindsNeedleAtEndOfHaystack() {
    var haystack := [8, 7, 8, 3];
    var result := IndexOfFrom(haystack, 3, 0);
    assert haystack[3] == 3;
    var i := result.value;
    assert i == 0 || i == 1 || i == 2 || i == 3;
    assert haystack[0] != 3 && haystack[1] != 3 && haystack[2] != 3;
    assert result == Some(3);
  }

  method AccumulateReturnsEmptyVecForImmediateNone() {
    var source := new Stack<int>([]);
    var result := Accumulate(source);
    assert |result| == 0;
  }

  method AccumulateCanMutateEnvironment() {
    var values := new Stack([3, 2, 1]);
    assert [3, 2, 1][..2] == [3, 2] && [3, 2][..1] == [3];
    assert values.Yields() == [1, 2, 3];
    var result := Accumulate(values);
    assert values.elements == [];
    assert result == [1, 2, 3];
  }

  /** An added example: `make_hex_string` has no unit test in the source. */
  method MakeHexStringExamples() {
    assert HexString([]) == "";
    var bytes: seq<byte> := [0x00, 0xFF, 0x0A];
    assert bytes[1..] == [0xFF, 0x0A] && bytes[2..] == [0x0A];
    assert HexString(bytes) == "00FF0A";
  }
}
