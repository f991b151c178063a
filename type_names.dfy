/** Qualified type names as the host compiler gives them: one character
    sequence per identifier, joined with '.' when shown as a string. */
module TypeNames {
  import opened JavaLang

  /** A type reference's name in `getTypeName()` form, e.g. ["java", "lang", "String"]. */
  type TypeName = seq<string>

  /** The segments joined with '.', with no separator before the first: the
      result ends with the last segment. */
  function Join(segments: TypeName): (s: string)
    ensures |segments| > 0 ==> EndsWith(s, segments[|segments| - 1])
  {
    if |segments| == 0 then ""
    else if |segments| == 1 then segments[0]
    else Join(segments[..|segments| - 1]) + "." + segments[|segments| - 1]
  }

  /** The joined name begins with the first segment. */
  lemma {:induction false} JoinStartsWithHead(segments: TypeName)
    requires |segments| > 0
    ensures |segments[0]| <= |Join(segments)| && Join(segments)[..|segments[0]|] == segments[0]
  {
    var n := |segments|;
    if n > 1 {
      var init := segments[..n - 1];
      assert init[0] == segments[0];
      JoinStartsWithHead(init);
      var tail := "." + segments[n - 1];
      assert Join(segments) == Join(init) + tail;
      assert (Join(init) + tail)[..|segments[0]|] == Join(init)[..|segments[0]|];
    }
  }

  /** From two segments on, the joined name holds a '.' separator. */
  lemma JoinHasDot(segments: TypeName)
    requires |segments| >= 2
    ensures '.' in Join(segments)
  {
    var init := segments[..|segments| - 1];
    assert Join(segments)[|Join(init)|] == '.';
  }

  /** A name of two or more segments is the join of all but the last, a '.'
      and the last. */
  lemma JoinUnfold(segments: TypeName)
    requires |segments| >= 2
    ensures Join(segments) == Join(segments[..|segments| - 1]) + ("." + segments[|segments| - 1])
  {
  }

  /** Extending a prefix of the segments by one more: the joined prefix
      gains a '.' (unless it was empty) and the next segment. */
  lemma JoinPrefixStep(segments: TypeName, i: nat)
    requires i < |segments|
    ensures Join(segments[..i + 1]) == if i == 0 then segments[0] else Join(segments[..i]) + "." + segments[i]
  {
    assert segments[..i + 1][..i] == segments[..i];
  }

  /** The joined name ends with the joined name of every tail of its segments;
      in particular with its last segment (the simple name) and with the whole
      qualified name. */
  lemma {:induction false} JoinEndsWithTail(segments: TypeName, k: nat)
    requires k < |segments|
    ensures EndsWith(Join(segments), Join(segments[k..]))
  {
    var n := |segments|;
    var last := segments[n - 1];
    if k == n - 1 {
      assert segments[k..] == [last];
    } else {
      var init := segments[..n - 1];
      var tail := segments[k..];
      assert tail[..|tail| - 1] == init[k..];
      assert tail[|tail| - 1] == last;
      JoinEndsWithTail(init, k);
      EndsWithExtended(Join(init), Join(init[k..]), "." + last);
      JoinUnfold(segments);
      JoinUnfold(tail);
    }
  }

  /** Whatever the last segment ends with, the whole joined name ends with:
      `returns("String")` holds for `java.lang.String`, and so does
      `returns("ing")`. */
  lemma SuffixOfSimpleNameMatches(segments: TypeName, typeName: string)
    requires |segments| > 0 && EndsWith(segments[|segments| - 1], typeName)
    ensures EndsWith(Join(segments), typeName)
  {
    EndsWithTransitive(Join(segments), segments[|segments| - 1], typeName);
  }

  /** The test is on characters, not on segments: a type named `HashMap` ends
      with `Map`. */
  lemma SuffixIsNotSegmentAware()
    ensures EndsWith(Join(["java", "util", "HashMap"]), "Map")
  {
    assert "HashMap"[4..] == "Map";
    SuffixOfSimpleNameMatches(["java", "util", "HashMap"], "Map");
  }
}
