/** The text clauses of a search filter: a pattern that must occur somewhere in
    a text, with or without regard to letter case. */
module TextMatch {
  import opened Ascii

  predicate OccursAt(text: string, pattern: string, i: nat, ignoreCase: bool)
    requires i + |pattern| <= |text|
  {
    if ignoreCase then Lower(text[i..i + |pattern|]) == Lower(pattern)
    else text[i..i + |pattern|] == pattern
  }

  /** `pattern` occurs in `text` at some offset. */
  predicate Contains(text: string, pattern: string, ignoreCase: bool) {
    exists i: nat :: i + |pattern| <= |text| && OccursAt(text, pattern, i, ignoreCase)
  }

  /** A case-insensitive search is an exact search in the lowered texts. */
  lemma ContainsIgnoringCase(text: string, pattern: string)
    ensures Contains(text, pattern, true) <==> Contains(Lower(text), Lower(pattern), false)
  {
    if Contains(text, pattern, true) {
      var i: nat :| i + |pattern| <= |text| && OccursAt(text, pattern, i, true);
      LowerSlice(text, i, i + |pattern|);
      assert OccursAt(Lower(text), Lower(pattern), i, false);
    }
    if Contains(Lower(text), Lower(pattern), false) {
      var i: nat :| i + |pattern| <= |text| && OccursAt(Lower(text), Lower(pattern), i, false);
      LowerSlice(text, i, i + |pattern|);
      assert OccursAt(text, pattern, i, true);
    }
  }

}
