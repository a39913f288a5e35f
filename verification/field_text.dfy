/**
 The text the helpers derive from field values and references: the joined
 value behind `snippit` and `render_value_as_truncate_abstract`, and the
 IIIF full-image URL.
 */
module FieldText {
  import opened Options
  import opened RubyValues
  import opened RubyStrings

  /** The leaves of `Array(value).flatten`. */
  function Leaves(value: Value): (r: seq<Value>)
    ensures forall i :: 0 <= i < |r| ==> IsLeaf(r[i])
  {
    Flatten(ToArray(value))
  }

  /** `Array(value).flatten.join(" ")`. */
  function JoinedValue(value: Value): string {
    Join(Texts(Leaves(value)), " ")
  }

  /** No leaf text contains a space, so splitting recovers the leaves. */
  predicate SpaceFreeLeaves(value: Value) {
    var texts := Texts(Leaves(value));
    forall i :: 0 <= i < |texts| ==> ' ' !in texts[i]
  }

  /** The `div` of class "truncate-abstract" and the text it wraps. */
  datatype AbstractDiv = AbstractDiv(cssClass: string, content: string)

  /** `render_value_as_truncate_abstract`: every flattened value, in order,
      separated by single spaces, with no length cap. */
  function RenderValueAsTruncateAbstract(value: Value): (r: AbstractDiv)
    ensures r.cssClass == "truncate-abstract"
    ensures JoinedLayout(r.content, Texts(Leaves(value)), " ")
    ensures |Leaves(value)| >= 1 && SpaceFreeLeaves(value) ==>
      Split(r.content, ' ') == Texts(Leaves(value))
    ensures |Leaves(value)| >= 1 ==>
      |r.content| == TotalLength(Texts(Leaves(value))) + |Leaves(value)| - 1
    ensures |Leaves(value)| == 0 ==> r.content == ""
    ensures value.Str? ==> r.content == value.s
  {
    JoinedValueShape(value);
    AbstractDiv("truncate-abstract", JoinedValue(value))
  }

  lemma JoinedValueShape(value: Value)
    ensures JoinedLayout(JoinedValue(value), Texts(Leaves(value)), " ")
    ensures |Leaves(value)| >= 1 && SpaceFreeLeaves(value) ==>
      Split(JoinedValue(value), ' ') == Texts(Leaves(value))
    ensures |Leaves(value)| >= 1 ==>
      |JoinedValue(value)| == TotalLength(Texts(Leaves(value))) + |Leaves(value)| - 1
  {
    var texts := Texts(Leaves(value));
    JoinLayout(texts, " ");
    if |texts| >= 1 {
      JoinLength(texts, " ");
      if SpaceFreeLeaves(value) {
        SplitJoin(texts, ' ');
      }
    }
  }

  /** The cap `snippit` puts on a search-result field. */
  const SnippitLength: nat := 150

  /** `snippit`: the same joined text as the abstract, cut to at most 150
      characters; a text that fits is shown whole, a longer one keeps its
      first 147 characters and ends in the omission. */
  function Snippit(value: Value): (r: string)
    ensures |r| <= SnippitLength
    ensures |RenderValueAsTruncateAbstract(value).content| <= SnippitLength ==>
      r == RenderValueAsTruncateAbstract(value).content
    ensures |RenderValueAsTruncateAbstract(value).content| > SnippitLength ==>
      |r| == SnippitLength &&
      r[..SnippitLength - |Omission|] ==
        RenderValueAsTruncateAbstract(value).content[..SnippitLength - |Omission|] &&
      r[SnippitLength - |Omission|..] == Omission
  {
    Truncate(JoinedValue(value), SnippitLength)
  }

  /** Joining a list made of two lists, each flattening to at least one
      value, is joining each and putting one space between them (an empty
      list adds no space, so the condition is needed). */
  lemma JoinedValueConcat(a: seq<Value>, b: seq<Value>)
    requires |Flatten(a)| >= 1 && |Flatten(b)| >= 1
    ensures JoinedValue(Arr(a + b)) == JoinedValue(Arr(a)) + " " + JoinedValue(Arr(b))
  {
    var fa, fb := Flatten(a), Flatten(b);
    FlattenAppend(a, b);
    assert Leaves(Arr(a + b)) == fa + fb;
    TextsAppend(fa, fb);
    JoinAppend(Texts(fa), Texts(fb), " ");
    assert JoinedValue(Arr(a)) == Join(Texts(fa), " ");
    assert JoinedValue(Arr(b)) == Join(Texts(fb), " ");
  }

  /** The texts of two lists of leaves put together. */
  lemma TextsAppend(x: seq<Value>, y: seq<Value>)
    requires forall i :: 0 <= i < |x| ==> IsLeaf(x[i])
    requires forall i :: 0 <= i < |y| ==> IsLeaf(y[i])
    ensures forall i :: 0 <= i < |x + y| ==> IsLeaf((x + y)[i])
    ensures Texts(x + y) == Texts(x) + Texts(y)
  {
    assert forall i :: 0 <= i < |x + y| ==> IsLeaf((x + y)[i]);
    assert Texts(x + y) == Texts(x) + Texts(y);
  }

  const InfoJson: string := "info.json"
  const FullJpgPath: string := "full/full/0/default.jpg"

  /** `iiif_jpg_url`: the leftmost "info.json" of the IIIF endpoint is
      replaced, in place, by the full-size JPEG path and the edited
      endpoint is returned; an endpoint without "info.json" gives nil. */
  function IiifJpgUrl(endpoint: string): (r: SubBangResult)
    ensures r.returned.None? <==> !Contains(endpoint, InfoJson)
    ensures r.returned.None? ==> r.receiver == endpoint
    ensures r.returned.Some? ==>
      r.returned.value == r.receiver &&
      exists i: nat :: FirstOccurrence(endpoint, InfoJson, i) &&
        r.receiver == endpoint[..i] + FullJpgPath + endpoint[i + |InfoJson|..]
  {
    SubBang(endpoint, InfoJson, FullJpgPath)
  }

  /** A string has at most one leftmost occurrence of a pattern. */
  lemma FirstOccurrenceUnique(s: string, pat: string, i: nat, j: nat)
    requires FirstOccurrence(s, pat, i) && FirstOccurrence(s, pat, j)
    ensures i == j
  {
  }

  /** A slice of a concatenation that lies inside one operand. */
  lemma OccursInPart(a: string, b: string, pat: string, j: nat)
    ensures j + |pat| <= |a| ==> (OccursAt(a + b, pat, j) <==> OccursAt(a, pat, j))
    ensures j >= |a| ==> (OccursAt(a + b, pat, j) <==> OccursAt(b, pat, j - |a|))
  {
    var s := a + b;
    if j + |pat| <= |a| {
      assert s[j..j + |pat|] == a[j..j + |pat|];
    }
    if j >= |a| && j + |pat| <= |s| {
      assert s[j..j + |pat|] == b[j - |a|..j - |a| + |pat|];
    }
  }

  /** "info.json" cannot start inside a text and end inside a following
      "info.json" or replacement path: no proper suffix of it is a prefix of
      either. */
  lemma NoStraddle(a: string, b: string, j: nat)
    requires |a| < j + |InfoJson|
    requires j < |a|
    requires |b| >= 2
    requires b[..2] == "in" || b[..2] == "fu"
    ensures !OccursAt(a + b, InfoJson, j)
  {
    var s := a + b;
    if j + |InfoJson| <= |s| {
      var k := |a| - j;
      var w := s[j..j + |InfoJson|];
      assert w[k] == s[|a|] == b[0];
      assert b[0] == b[..2][0] && b[1] == b[..2][1];
      if k == 2 && b[0] == 'f' {
        assert w[k + 1] == s[|a| + 1] == b[1] == 'u';
        assert w[k + 1] != InfoJson[k + 1];
      } else {
        assert w[k] != InfoJson[k];
      }
    }
  }

  /** An occurrence in the original endpoint at `j`, read off the endpoint
      as prefix, "info.json" and suffix. */
  lemma OccursInEndpoint(endpoint: string, i: nat, j: nat)
    requires i + |InfoJson| <= |endpoint|
    ensures OccursAt(endpoint[..i], InfoJson, j) ==> OccursAt(endpoint, InfoJson, j)
    ensures OccursAt(endpoint[i + |InfoJson|..], InfoJson, j) ==>
      OccursAt(endpoint, InfoJson, i + |InfoJson| + j)
  {
    if OccursAt(endpoint[..i], InfoJson, j) {
      assert endpoint[j..j + |InfoJson|] == endpoint[..i][j..j + |InfoJson|];
    }
    if OccursAt(endpoint[i + |InfoJson|..], InfoJson, j) {
      var k := i + |InfoJson| + j;
      assert endpoint[k..k + |InfoJson|] == endpoint[i + |InfoJson|..][j..j + |InfoJson|];
    }
  }

  /** Putting the replacement path between two texts free of "info.json"
      creates no "info.json". */
  lemma NoInfoJsonAroundPath(pre: string, post: string)
    requires !Contains(pre, InfoJson) && !Contains(post, InfoJson)
    ensures !Contains(pre + FullJpgPath + post, InfoJson)
  {
    var t := pre + FullJpgPath + post;
    assert t == pre + (FullJpgPath + post);
    assert t == (pre + FullJpgPath) + post;
    forall j: nat | j <= |t|
      ensures !OccursAt(t, InfoJson, j)
    {
      if j + |InfoJson| <= |pre| {
        OccursInPart(pre, FullJpgPath + post, InfoJson, j);
      } else if j < |pre| {
        assert (FullJpgPath + post)[..2] == "fu";
        NoStraddle(pre, FullJpgPath + post, j);
      } else if j < |pre| + |FullJpgPath| {
        if j + |InfoJson| <= |t| {
          assert t[j..j + |InfoJson|][0] == t[j] == FullJpgPath[j - |pre|];
          assert t[j..j + |InfoJson|][0] != InfoJson[0];
        }
      } else {
        OccursInPart(pre + FullJpgPath, post, InfoJson, j);
      }
    }
  }

  /** For an endpoint that ends in its only "info.json", as IIIF image
      endpoints do, the JPEG URL is the endpoint's base followed by the
      full-size path. */
  lemma {:induction false} IiifCanonicalEndpoint(base: string)
    requires !Contains(base, InfoJson)
    ensures IiifJpgUrl(base + InfoJson).returned == Some(base + FullJpgPath)
  {
    var s := base + InfoJson;
    assert s[|base|..|base| + |InfoJson|] == InfoJson;
    forall j: nat | j < |base|
      ensures !OccursAt(s, InfoJson, j)
    {
      if j + |InfoJson| <= |base| {
        OccursInPart(base, InfoJson, InfoJson, j);
      } else {
        assert InfoJson[..2] == "in";
        NoStraddle(base, InfoJson, j);
      }
    }
    assert FirstOccurrence(s, InfoJson, |base|);
    var r := IiifJpgUrl(s);
    assert r.returned.Some?;
    var i: nat :| FirstOccurrence(s, InfoJson, i) &&
      r.receiver == s[..i] + FullJpgPath + s[i + |InfoJson|..];
    FirstOccurrenceUnique(s, InfoJson, i, |base|);
    assert s[..|base|] == base;
    assert s[|base| + |InfoJson|..] == "";
    assert r.receiver == base + FullJpgPath;
  }

  /** sub! edits the endpoint in place, so asking twice for the JPEG URL of
      an endpoint with a single "info.json" gives the URL and then nil. */
  lemma {:induction false} IiifSecondCallNil(endpoint: string)
    requires Contains(endpoint, InfoJson)
    requires forall j: nat, k: nat ::
      OccursAt(endpoint, InfoJson, j) && OccursAt(endpoint, InfoJson, k) ==> j == k
    ensures IiifJpgUrl(endpoint).returned.Some?
    ensures IiifJpgUrl(IiifJpgUrl(endpoint).receiver).returned == None
  {
    var r := IiifJpgUrl(endpoint);
    var i: nat :| FirstOccurrence(endpoint, InfoJson, i) &&
      r.receiver == endpoint[..i] + FullJpgPath + endpoint[i + |InfoJson|..];
    var pre, post := endpoint[..i], endpoint[i + |InfoJson|..];
    forall j: nat | j <= |pre|
      ensures !OccursAt(pre, InfoJson, j)
    {
      OccursInEndpoint(endpoint, i, j);
    }
    forall j: nat | j <= |post|
      ensures !OccursAt(post, InfoJson, j)
    {
      OccursInEndpoint(endpoint, i, j);
    }
    NoInfoJsonAroundPath(pre, post);
  }
}
