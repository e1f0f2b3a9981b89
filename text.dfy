/** String tests the loaders use on node ids and metaedge codes. */
module Text {

  /** `sub` occurs in `s` starting at index `i`. */
  predicate OccursAt(s: string, sub: string, i: int)
  {
    0 <= i && i + |sub| <= |s| && s[i..i + |sub|] == sub
  }

  /** Python's `sub in s` on strings: a substring test anywhere in `s`, not a prefix test. */
  predicate Contains(s: string, sub: string)
  {
    exists i :: 0 <= i <= |s| - |sub| && OccursAt(s, sub, i)
  }

  /** A namespaced id `"<Kind>::<local id>"` contains its namespace marker. */
  lemma PrefixContained(prefix: string, rest: string)
    ensures Contains(prefix + rest, prefix)
  {
    assert (prefix + rest)[0..|prefix|] == prefix;
    assert OccursAt(prefix + rest, prefix, 0);
  }

  /** Between strings of equal length, containment is equality (a three-letter metaedge and a code). */
  lemma SameLengthContains(s: string, sub: string)
    requires |s| == |sub|
    ensures Contains(s, sub) <==> s == sub
  {
    if s == sub {
      assert OccursAt(s, sub, 0);
    }
  }
}
