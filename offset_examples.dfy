/** Concrete config texts and what the offset scripts do with them. */
module OffsetExamples {
  import opened Wrappers
  import opened OffsetPattern
  import opened GenerateOffset

  /** A key written without the spaces around `=` does not match. */
  lemma NeedsSpaces()
    ensures SearchOffset("offset=5") == None
  {
    var s := "offset=5";
    assert |s| == 8;
    assert Search(s).Some? ==> MatchAt(s, Search(s).value.start);
  }

  /** A longer key ending in `offset` matches: the search is a plain
      substring search. */
  lemma LongerKeyMatches()
    ensures Resolve(None, true, "node_offset = 5") == 5
  {
    var s := "node_offset = 5";
    assert s[5..14] == Prefix;
    assert s[14..15] == "5";
    forall j | 0 <= j < 5 ensures !MatchAt(s, j) {
      assert s[j..j + |Prefix|][1] == s[j + 1] != Prefix[1];
    }
    assert DigitsValue("5") == 5;
    ResolveLeftmost(None, s, 5, "5");
  }
}
