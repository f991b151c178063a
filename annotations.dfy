/** Annotations on a method declaration, and the rewrite of the annotation
    list that installing a generated body performs: every SuppressWarnings
    annotation is dropped and one SuppressWarnings("all") is put last. */
module Annotations {
  import opened JavaLang

  /** An annotation node: `typeString` is what its type reference prints as
      (`type.toString()`); `token` stands for everything else about the node
      (member values, source position), which the rewrite never inspects. */
  datatype Annotation = Annotation(typeString: string, token: nat)

  /** The rewrite's test for an annotation to drop. */
  predicate IsSuppressWarnings(a: Annotation)
  {
    EndsWith(a.typeString, "SuppressWarnings")
  }

  /** The annotations the rewrite keeps, in the order the filtering loop meets
      them. Nothing is added and no SuppressWarnings annotation survives. */
  function WithoutSuppressWarnings(s: seq<Annotation>): (r: seq<Annotation>)
    ensures |r| <= |s|
    ensures forall i :: 0 <= i < |r| ==> r[i] in s && !IsSuppressWarnings(r[i])
  {
    if s == [] then []
    else
      var kept := WithoutSuppressWarnings(s[..|s| - 1]);
      if IsSuppressWarnings(s[|s| - 1]) then kept else kept + [s[|s| - 1]]
  }

  /** Every annotation that is not a SuppressWarnings one is kept. */
  lemma {:induction false} KeepsOthers(s: seq<Annotation>, a: Annotation)
    requires a in s && !IsSuppressWarnings(a)
    ensures a in WithoutSuppressWarnings(s)
  {
    var n := |s|;
    if s[n - 1] == a {
    } else {
      assert a in s[..n - 1] by {
        var i :| 0 <= i < n && s[i] == a;
        assert i < n - 1 && s[..n - 1][i] == a;
      }
      KeepsOthers(s[..n - 1], a);
    }
  }

  /** The filter works piece by piece: filtering a concatenation is the
      concatenation of the filtered pieces, so relative order is kept. */
  lemma {:induction false} Distributes(a: seq<Annotation>, b: seq<Annotation>)
    ensures WithoutSuppressWarnings(a + b) == WithoutSuppressWarnings(a) + WithoutSuppressWarnings(b)
    decreases |b|
  {
    if b == [] {
      assert a + b == a;
    } else {
      var n := |b|;
      assert (a + b)[..|a + b| - 1] == a + b[..n - 1];
      assert (a + b)[|a + b| - 1] == b[n - 1];
      Distributes(a, b[..n - 1]);
    }
  }

  /** A list without SuppressWarnings annotations passes the filter unchanged. */
  lemma {:induction false} UnchangedWhenClean(s: seq<Annotation>)
    requires forall i :: 0 <= i < |s| ==> !IsSuppressWarnings(s[i])
    ensures WithoutSuppressWarnings(s) == s
  {
    if s != [] {
      var n := |s|;
      UnchangedWhenClean(s[..n - 1]);
      assert s[..n - 1] + [s[n - 1]] == s;
    }
  }

  /** Filtering twice is filtering once. */
  lemma FilterIdempotent(s: seq<Annotation>)
    ensures WithoutSuppressWarnings(WithoutSuppressWarnings(s)) == WithoutSuppressWarnings(s)
  {
    UnchangedWhenClean(WithoutSuppressWarnings(s));
  }

  /** The annotation list a body installation produces from `original`
      (`null` read as empty) and the built SuppressWarnings("all") annotation. */
  function Rewritten(original: Option<seq<Annotation>>, suppressAll: Annotation): (r: seq<Annotation>)
    ensures |r| >= 1 && r[|r| - 1] == suppressAll
    ensures original.None? ==> r == [suppressAll]
  {
    WithoutSuppressWarnings(if original.Some? then original.value else []) + [suppressAll]
  }

  /** When the appended annotation is a SuppressWarnings one, the rewritten list
      holds exactly one SuppressWarnings annotation, and it is the last. */
  lemma SuppressAllIsTheOnlyOne(original: Option<seq<Annotation>>, suppressAll: Annotation)
    requires IsSuppressWarnings(suppressAll)
    ensures var r := Rewritten(original, suppressAll);
      IsSuppressWarnings(r[|r| - 1]) &&
      forall i :: 0 <= i < |r| - 1 ==> !IsSuppressWarnings(r[i])
  {
  }

  /** Installing a body twice leaves the annotation list of installing it once. */
  lemma {:induction false} RewriteIdempotent(original: Option<seq<Annotation>>, suppressAll: Annotation)
    requires IsSuppressWarnings(suppressAll)
    ensures Rewritten(Some(Rewritten(original, suppressAll)), suppressAll) == Rewritten(original, suppressAll)
  {
    var kept := WithoutSuppressWarnings(if original.Some? then original.value else []);
    Distributes(kept, [suppressAll]);
    assert WithoutSuppressWarnings([suppressAll]) == [] by {
      assert [suppressAll][..0] == [];
    }
    FilterIdempotent(if original.Some? then original.value else []);
  }
}
