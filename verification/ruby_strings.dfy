/**
 The handful of Ruby and ActiveSupport string operations the helpers rely
 on, on strings as sequences of Unicode scalar values (Ruby's `length` and
 indexing count characters, not bytes).
 */
module RubyStrings {
  import opened Options

  /** `pat` occurs in `s` starting at index `i`. */
  predicate OccursAt(s: string, pat: string, i: nat) {
    i + |pat| <= |s| && s[i..i + |pat|] == pat
  }

  predicate Contains(s: string, pat: string) {
    exists i: nat :: i <= |s| && OccursAt(s, pat, i)
  }

  /** `i` is where the leftmost occurrence of `pat` in `s` starts. */
  predicate FirstOccurrence(s: string, pat: string, i: nat) {
    OccursAt(s, pat, i) && forall j: nat :: j < i ==> !OccursAt(s, pat, j)
  }

  /** The leftmost occurrence of `pat` in `s` at or after `from`. */
  function FindFrom(s: string, pat: string, from: nat): (r: Option<nat>)
    ensures r.Some? ==>
      from <= r.value && OccursAt(s, pat, r.value) &&
      forall j: nat :: from <= j < r.value ==> !OccursAt(s, pat, j)
    ensures r.None? ==> forall j: nat :: from <= j ==> !OccursAt(s, pat, j)
    decreases |s| - from
  {
    if from + |pat| > |s| then None
    else if s[from..from + |pat|] == pat then Some(from)
    else FindFrom(s, pat, from + 1)
  }

  /** What String#sub! leaves behind: the value it returns and the receiver
      as it stands after the call (sub! edits the receiver in place). */
  datatype SubBangResult = SubBangResult(returned: Option<string>, receiver: string)

  /** String#sub! with a literal pattern and a replacement free of
      backslash references: the leftmost occurrence is replaced and the
      edited receiver is returned; without an occurrence it returns nil and
      the receiver is untouched. */
  function SubBang(s: string, pat: string, rep: string): (r: SubBangResult)
    ensures r.returned.None? <==> !Contains(s, pat)
    ensures r.returned.None? ==> r.receiver == s
    ensures r.returned.Some? ==> r.returned.value == r.receiver
    ensures r.returned.Some? ==>
      exists i: nat :: FirstOccurrence(s, pat, i) &&
        r.receiver == s[..i] + rep + s[i + |pat|..]
  {
    match FindFrom(s, pat, 0)
    case None => SubBangResult(None, s)
    case Some(i) =>
      assert FirstOccurrence(s, pat, i);
      var t := s[..i] + rep + s[i + |pat|..];
      SubBangResult(Some(t), t)
  }

  /** Array#join on texts: the parts in order with `sep` between
      neighbours. */
  function Join(parts: seq<string>, sep: string): (r: string)
    ensures |parts| == 0 ==> r == ""
    ensures |parts| == 1 ==> r == parts[0]
    decreases |parts|
  {
    if |parts| == 0 then ""
    else if |parts| == 1 then parts[0]
    else parts[0] + sep + Join(parts[1..], sep)
  }

  /** Splitting on every occurrence of `c`, keeping empty pieces: the
      inverse that shows Join loses nothing. */
  function Split(s: string, c: char): (r: seq<string>)
    ensures |r| >= 1
    decreases |s|
  {
    if |s| == 0 then [""]
    else
      var rest := Split(s[1..], c);
      if s[0] == c then [""] + rest
      else [[s[0]] + rest[0]] + rest[1..]
  }

  /** A text without the separator splits to itself. */
  lemma {:induction false} SplitWithoutSeparator(p: string, c: char)
    requires c !in p
    ensures Split(p, c) == [p]
    decreases |p|
  {
    if |p| > 0 {
      assert c !in p[1..];
      SplitWithoutSeparator(p[1..], c);
      assert [p[0]] + p[1..] == p;
    }
  }

  /** Splitting `p`, a separator and `t` yields `p` followed by the pieces
      of `t`, when `p` holds no separator. */
  lemma {:induction false} SplitAfterPiece(p: string, c: char, t: string)
    requires c !in p
    ensures Split(p + [c] + t, c) == [p] + Split(t, c)
    decreases |p|
  {
    if |p| == 0 {
      assert p + [c] + t == [c] + t;
      assert ([c] + t)[1..] == t;
    } else {
      var s := p + [c] + t;
      assert s[0] == p[0];
      assert s[1..] == p[1..] + [c] + t;
      assert c !in p[1..];
      SplitAfterPiece(p[1..], c, t);
      assert [p[0]] + p[1..] == p;
    }
  }

  /** Join and Split are inverse when no part contains the separator. */
  lemma {:induction false} SplitJoin(parts: seq<string>, c: char)
    requires |parts| >= 1
    requires forall i :: 0 <= i < |parts| ==> c !in parts[i]
    ensures Split(Join(parts, [c]), c) == parts
    decreases |parts|
  {
    if |parts| == 1 {
      SplitWithoutSeparator(parts[0], c);
    } else {
      SplitJoin(parts[1..], c);
      SplitAfterPiece(parts[0], c, Join(parts[1..], [c]));
      assert [parts[0]] + parts[1..] == parts;
    }
  }

  /** Joining a concatenation puts one separator between the two joins. */
  lemma {:induction false} JoinAppend(a: seq<string>, b: seq<string>, sep: string)
    requires |a| >= 1 && |b| >= 1
    ensures Join(a + b, sep) == Join(a, sep) + sep + Join(b, sep)
    decreases |a|
  {
    if |a| == 1 {
      assert (a + b)[1..] == b;
    } else {
      assert (a + b)[1..] == a[1..] + b;
      JoinAppend(a[1..], b, sep);
    }
  }

  /** The length of a join: every part plus one separator between each two
      neighbours. */
  function TotalLength(parts: seq<string>): nat
    decreases |parts|
  {
    if |parts| == 0 then 0 else |parts[0]| + TotalLength(parts[1..])
  }

  lemma {:induction false} JoinLength(parts: seq<string>, sep: string)
    requires |parts| >= 1
    ensures |Join(parts, sep)| == TotalLength(parts) + (|parts| - 1) * |sep|
    decreases |parts|
  {
    if |parts| > 1 {
      JoinLength(parts[1..], sep);
    }
  }

  /** Where part `i` starts in the join of `parts`: the parts before it
      and one separator after each of them. */
  function Offset(parts: seq<string>, sep: string, i: nat): nat
    decreases i
  {
    if i == 0 || |parts| == 0 then 0
    else |parts[0]| + |sep| + Offset(parts[1..], sep, i - 1)
  }

  /** Part `i` sits whole at its offset in `r`. */
  predicate PartAt(r: string, parts: seq<string>, sep: string, i: nat)
    requires i < |parts|
  {
    Offset(parts, sep, i) + |parts[i]| <= |r| &&
    r[Offset(parts, sep, i)..Offset(parts, sep, i) + |parts[i]|] == parts[i]
  }

  /** A separator follows part `i` in `r`. */
  predicate SeparatorAfter(r: string, parts: seq<string>, sep: string, i: nat)
    requires i < |parts|
  {
    Offset(parts, sep, i) + |parts[i]| + |sep| <= |r| &&
    r[Offset(parts, sep, i) + |parts[i]|..Offset(parts, sep, i) + |parts[i]| + |sep|] == sep
  }

  predicate PartsInPlace(r: string, parts: seq<string>, sep: string) {
    forall i: nat :: i < |parts| ==> PartAt(r, parts, sep, i)
  }

  /** A separator follows every part but the last. */
  predicate SeparatorsInPlace(r: string, parts: seq<string>, sep: string) {
    forall i: nat :: i + 1 < |parts| ==> SeparatorAfter(r, parts, sep, i)
  }

  /** `r` is laid out as `parts` with `sep` between neighbours: part `i`
      sits at its offset, a separator follows every part but the last,
      and nothing follows the last part. */
  predicate JoinedLayout(r: string, parts: seq<string>, sep: string) {
    && (|parts| == 0 ==> r == "")
    && (|parts| >= 1 ==> |r| == Offset(parts, sep, |parts| - 1) + |parts[|parts| - 1]|)
    && PartsInPlace(r, parts, sep)
    && SeparatorsInPlace(r, parts, sep)
  }

  /** The offsets of `[p] + rest` are those of `rest` moved past `p` and
      one separator. */
  lemma OffsetCons(p: string, rest: seq<string>, sep: string, i: nat)
    requires 1 <= i
    ensures Offset([p] + rest, sep, i) == |p| + |sep| + Offset(rest, sep, i - 1)
  {
    assert ([p] + rest)[1..] == rest;
  }

  /** A slice of `tail` read inside `p + sep + tail`. */
  lemma SliceAfterPrefix(p: string, sep: string, tail: string, o: nat, n: nat)
    requires o + n <= |tail|
    ensures (p + sep + tail)[|p| + |sep| + o..|p| + |sep| + o + n] == tail[o..o + n]
  {
  }

  lemma PartAtCons(p: string, sep: string, rest: seq<string>, tail: string, i: nat)
    requires 1 <= i <= |rest|
    requires PartAt(tail, rest, sep, i - 1)
    ensures PartAt(p + sep + tail, [p] + rest, sep, i)
  {
    OffsetCons(p, rest, sep, i);
    assert ([p] + rest)[i] == rest[i - 1];
    SliceAfterPrefix(p, sep, tail, Offset(rest, sep, i - 1), |rest[i - 1]|);
  }

  lemma SeparatorAfterCons(p: string, sep: string, rest: seq<string>, tail: string, i: nat)
    requires 1 <= i <= |rest|
    requires SeparatorAfter(tail, rest, sep, i - 1)
    ensures SeparatorAfter(p + sep + tail, [p] + rest, sep, i)
  {
    OffsetCons(p, rest, sep, i);
    assert ([p] + rest)[i] == rest[i - 1];
    SliceAfterPrefix(p, sep, tail, Offset(rest, sep, i - 1) + |rest[i - 1]|, |sep|);
  }

  lemma PartsInPlaceCons(p: string, sep: string, rest: seq<string>, tail: string)
    requires PartsInPlace(tail, rest, sep)
    ensures PartsInPlace(p + sep + tail, [p] + rest, sep)
  {
    var parts, r := [p] + rest, p + sep + tail;
    forall i: nat | i < |parts|
      ensures PartAt(r, parts, sep, i)
    {
      if i == 0 {
        assert r[..|p|] == p;
      } else {
        PartAtCons(p, sep, rest, tail, i);
      }
    }
  }

  lemma SeparatorsInPlaceCons(p: string, sep: string, rest: seq<string>, tail: string)
    requires |rest| >= 1
    requires SeparatorsInPlace(tail, rest, sep)
    ensures SeparatorsInPlace(p + sep + tail, [p] + rest, sep)
  {
    var parts, r := [p] + rest, p + sep + tail;
    forall i: nat | i + 1 < |parts|
      ensures SeparatorAfter(r, parts, sep, i)
    {
      if i == 0 {
        assert r[|p|..|p| + |sep|] == sep;
      } else {
        SeparatorAfterCons(p, sep, rest, tail, i);
      }
    }
  }

  /** Every part appears in the join, in order and whole, with exactly one
      separator between neighbours, whatever the parts contain. */
  lemma {:induction false} JoinLayout(parts: seq<string>, sep: string)
    ensures JoinedLayout(Join(parts, sep), parts, sep)
    decreases |parts|
  {
    if |parts| == 1 {
      assert PartAt(parts[0], parts, sep, 0);
    } else if |parts| >= 2 {
      var rest := parts[1..];
      JoinLayout(rest, sep);
      assert parts == [parts[0]] + rest;
      PartsInPlaceCons(parts[0], sep, rest, Join(rest, sep));
      SeparatorsInPlaceCons(parts[0], sep, rest, Join(rest, sep));
      OffsetCons(parts[0], rest, sep, |parts| - 1);
    }
  }

  /** What ActiveSupport appends to a cut text by default. */
  const Omission: string := "..."

  /** String#truncate with its defaults (omission "...", no separator): a
      text that fits is kept; a longer one is cut so that the kept prefix
      and the omission together fill exactly `length` characters. */
  function Truncate(text: string, length: nat): (r: string)
    requires length >= |Omission|
    ensures |r| <= length
    ensures |text| <= length ==> r == text
    ensures |text| > length ==>
      |r| == length &&
      r[..length - |Omission|] == text[..length - |Omission|] &&
      r[length - |Omission|..] == Omission
  {
    if |text| <= length then text
    else text[..length - |Omission|] + Omission
  }
}
