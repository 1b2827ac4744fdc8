/** The block split of convert_post_to_md (autoStattic.py:100):
    `re.split(r'(<div[^>]*wp-block[^>]*>.*?</div>)', html_content, flags=re.DOTALL)`.

    The pattern cannot match the empty string, so the split scans left to right, takes the
    leftmost match, resumes the scan at its end, and returns the text between matches
    interleaved with the matches themselves (the pattern's one group covers the whole match). */
module Blocks {

  import opened Base
  import opened Text

  /** re.match of the pattern at index i of s, as the end index of the match.
      `<div` is literal; the two `[^>]*` around `wp-block` cannot pass a `>`, so the opening
      tag runs to the first `>` after `<div` and must contain `wp-block`; the lazy `.*?`
      (which with DOTALL also crosses newlines) stops at the first `</div>` after that `>`. */
  function MatchAt(s: string, i: nat): (r: Option<nat>)
    ensures r.Some? ==> i < r.value <= |s|
  {
    if !OccursAt(s, "<div", i) then None
    else match Find(s, ">", i + 4)
      case None => None
      case Some(j) =>
        if !Contains(s[i + 4..j], "wp-block") then None
        else match Find(s, "</div>", j + 1)
          case None => None
          case Some(k) => Some(k + 6)
  }

  /** A whole match, with its opening tag closed by the `>` at index j: it starts with `<div`;
      j is the first `>` after that; `wp-block` lies between them; it ends with `</div>` and
      holds no earlier `</div>` after j. */
  ghost predicate IsBlock(t: string, j: nat) {
    && 4 <= j && j + 7 <= |t|
    && t[..4] == "<div"
    && t[j] == '>' && (forall k :: 4 <= k < j ==> t[k] != '>')
    && (exists k :: 4 <= k && k + 8 <= j && OccursAt(t, "wp-block", k))
    && t[|t| - 6..] == "</div>"
    && (forall k :: j < k < |t| - 6 ==> !OccursAt(t, "</div>", k))
  }

  lemma SliceOfSlice(s: string, a: nat, b: nat, c: nat, d: nat)
    requires a <= b <= |s| && c <= d <= b - a
    ensures s[a..b][c..d] == s[a + c..a + d]
  {
    assert forall m :: 0 <= m < d - c ==> s[a..b][c..d][m] == s[a + c + m];
  }

  /** An occurrence inside s[i..e] is an occurrence in s, shifted by i. */
  lemma OccursInSlice(s: string, i: nat, e: nat, pat: string, k: int)
    requires i <= e <= |s|
    ensures OccursAt(s[i..e], pat, k) <==> 0 <= k && k + |pat| <= e - i && OccursAt(s, pat, i + k)
  {
    if 0 <= k && k + |pat| <= e - i {
      SliceOfSlice(s, i, e, k, k + |pat|);
    }
  }

  /** Every match is a block: `<div`, an opening tag holding `wp-block`, and a body cut at
      the first `</div>`. */
  lemma MatchIsBlock(s: string, i: nat, e: nat)
    requires MatchAt(s, i) == Some(e)
    ensures exists j :: IsBlock(s[i..e], j)
  {
    var j := Find(s, ">", i + 4).value;
    var k := Find(s, "</div>", j + 1).value;
    BlockFromParts(s, i, j, k, s[i..e]);
  }

  /** The pieces MatchAt finds make a block: `<div` at i, the first `>` after it at j with
      `wp-block` in between, and the first `</div>` after j at k. */
  lemma BlockFromParts(s: string, i: nat, j: nat, k: nat, t: string)
    requires OccursAt(s, "<div", i) && Find(s, ">", i + 4) == Some(j)
    requires Contains(s[i + 4..j], "wp-block") && Find(s, "</div>", j + 1) == Some(k)
    requires t == s[i..k + 6]
    ensures IsBlock(t, j - i)
  {
    BlockOpens(s, i, k, t);
    BlockTag(s, i, j, k, t);
    BlockHasWp(s, i, j, k, t);
    BlockBody(s, i, j, k, t);
  }

  lemma BlockOpens(s: string, i: nat, k: nat, t: string)
    requires OccursAt(s, "<div", i) && i + 4 <= k && OccursAt(s, "</div>", k) && t == s[i..k + 6]
    ensures t[..4] == "<div" && t[|t| - 6..] == "</div>"
  {
    assert t[..4] == s[i..i + 4];
    assert t[|t| - 6..] == s[k..k + 6];
  }

  lemma BlockTag(s: string, i: nat, j: nat, k: nat, t: string)
    requires i + 4 <= j < k + 6 <= |s| && Find(s, ">", i + 4) == Some(j) && t == s[i..k + 6]
    ensures t[j - i] == '>'
    ensures forall m :: 4 <= m < j - i ==> t[m] != '>'
  {
    assert t[j - i] == s[j] == '>' by { assert OccursAt(s, ">", j); }
    forall m | 4 <= m < j - i ensures t[m] != '>' {
      assert !OccursAt(s, ">", i + m);
      assert s[i + m..i + m + 1] == [s[i + m]];
    }
  }

  lemma BlockHasWp(s: string, i: nat, j: nat, k: nat, t: string)
    requires i + 4 <= j < k + 6 <= |s| && Contains(s[i + 4..j], "wp-block") && t == s[i..k + 6]
    ensures exists w :: 4 <= w && w + 8 <= j - i && OccursAt(t, "wp-block", w)
  {
    var w := Find(s[i + 4..j], "wp-block", 0).value;
    SliceOfSlice(s, i + 4, j, w, w + 8);
    OccursInSlice(s, i, k + 6, "wp-block", 4 + w);
  }

  lemma BlockBody(s: string, i: nat, j: nat, k: nat, t: string)
    requires i + 4 <= j < k && k + 6 <= |s| && Find(s, "</div>", j + 1) == Some(k) && t == s[i..k + 6]
    ensures forall m :: j - i < m < |t| - 6 ==> !OccursAt(t, "</div>", m)
  {
    forall m | j - i < m < |t| - 6 ensures !OccursAt(t, "</div>", m) {
      OccursInSlice(s, i, k + 6, "</div>", m);
    }
  }

  /** Conversely, a block starting at i is what the pattern matches there. */
  lemma BlockIsMatch(s: string, i: nat, e: nat, j: nat)
    requires i <= e <= |s| && IsBlock(s[i..e], j)
    ensures MatchAt(s, i) == Some(e)
  {
    BlockParts(s, i, e, j, s[i..e]);
    MatchFromParts(s, i, i + j, e - 6);
  }

  /** The four facts MatchAt checks, read off a block at i. */
  lemma BlockParts(s: string, i: nat, e: nat, j: nat, t: string)
    requires i <= e <= |s| && t == s[i..e] && IsBlock(t, j)
    ensures OccursAt(s, "<div", i) && Find(s, ">", i + 4) == Some(i + j)
    ensures Contains(s[i + 4..i + j], "wp-block") && Find(s, "</div>", i + j + 1) == Some(e - 6)
  {
    BlockOpensAt(s, i, e, j, t);
    OpeningTagEnd(s, i, e, j, t);
    WpBlockInTag(s, i, e, j, t);
    BodyEnd(s, i, e, j, t);
  }

  /** MatchAt finds `<div` at i, the first `>` after it at j with `wp-block` in between, and
      the first `</div>` after j at k: the match ends after that `</div>`. */
  lemma MatchFromParts(s: string, i: nat, j: nat, k: nat)
    requires OccursAt(s, "<div", i) && Find(s, ">", i + 4) == Some(j)
    requires Contains(s[i + 4..j], "wp-block") && Find(s, "</div>", j + 1) == Some(k)
    ensures MatchAt(s, i) == Some(k + 6)
  {
  }

  lemma BlockOpensAt(s: string, i: nat, e: nat, j: nat, t: string)
    requires i <= e <= |s| && t == s[i..e] && IsBlock(t, j)
    ensures OccursAt(s, "<div", i)
  {
    assert s[i..i + 4] == t[..4];
  }

  lemma OpeningTagEnd(s: string, i: nat, e: nat, j: nat, t: string)
    requires i <= e <= |s| && t == s[i..e] && IsBlock(t, j)
    ensures Find(s, ">", i + 4) == Some(i + j)
  {
    forall m | i + 4 <= m < i + j ensures !OccursAt(s, ">", m) {
      assert t[m - i] != '>';
      assert s[m..m + 1] == [s[m]];
    }
    assert OccursAt(s, ">", i + j) by { assert s[i + j..i + j + 1] == [t[j]]; }
    FindIs(s, ">", i + 4, i + j);
  }

  lemma WpBlockInTag(s: string, i: nat, e: nat, j: nat, t: string)
    requires i <= e <= |s| && t == s[i..e] && IsBlock(t, j)
    ensures Contains(s[i + 4..i + j], "wp-block")
  {
    var w :| 4 <= w && w + 8 <= j && OccursAt(t, "wp-block", w);
    OccursInSlice(s, i, e, "wp-block", w);
    WpBetween(s, i, j, w);
  }

  lemma WpBetween(s: string, i: nat, j: nat, w: nat)
    requires i + j <= |s| && 4 <= w && w + 8 <= j && OccursAt(s, "wp-block", i + w)
    ensures Contains(s[i + 4..i + j], "wp-block")
  {
    OccursInSlice(s, i + 4, i + j, "wp-block", w - 4);
    assert OccursAt(s[i + 4..i + j], "wp-block", w - 4);
  }

  lemma BodyEnd(s: string, i: nat, e: nat, j: nat, t: string)
    requires i <= e <= |s| && t == s[i..e] && IsBlock(t, j)
    ensures Find(s, "</div>", i + j + 1) == Some(e - 6)
  {
    NoCloseInBody(s, i, e, j, t);
    OccursInSlice(s, i, e, "</div>", |t| - 6);
    FindIs(s, "</div>", i + j + 1, e - 6);
  }

  lemma NoCloseInBody(s: string, i: nat, e: nat, j: nat, t: string)
    requires i <= e <= |s| && t == s[i..e] && IsBlock(t, j)
    ensures forall m :: i + j + 1 <= m < e - 6 ==> !OccursAt(s, "</div>", m)
  {
    forall m | i + j + 1 <= m < e - 6 ensures !OccursAt(s, "</div>", m) {
      OccursInSlice(s, i, e, "</div>", m - i);
    }
  }

  /** A pattern matcher: the end of the match at an index, if the pattern matches there. */
  type Matcher = (string, nat) -> Option<nat>

  /** The end of a non-empty match of m at index i of s, if there is one. */
  function Step(m: Matcher, s: string, i: nat): (r: Option<nat>)
    ensures r.Some? ==> i < r.value <= |s|
  {
    match m(s, i)
    case Some(e) => if i < e <= |s| then Some(e) else None
    case None => None
  }

  /** re.split with a capturing group around the whole pattern, from index i of s on, the
      unmatched text pending since index `last`. */
  function SplitFrom(s: string, last: nat, i: nat, m: Matcher): seq<string>
    requires last <= i <= |s|
    decreases |s| - i
  {
    if i == |s| then [s[last..]]
    else match Step(m, s, i)
      case Some(e) => [s[last..i], s[i..e]] + SplitFrom(s, e, e, m)
      case None => SplitFrom(s, last, i + 1, m)
  }

  /** Where m matches nowhere from i on, the rest of the text is one segment. */
  lemma {:induction false} SplitWithoutMatch(s: string, last: nat, i: nat, m: Matcher)
    requires last <= i <= |s|
    requires forall p: nat :: i <= p <= |s| ==> Step(m, s, p).None?
    ensures SplitFrom(s, last, i, m) == [s[last..]]
    decreases |s| - i
  {
    if i < |s| {
      SplitWithoutMatch(s, last, i + 1, m);
    }
  }

  /** The block split of an HTML body. */
  function Split(s: string): seq<string> {
    SplitFrom(s, 0, 0, MatchAt)
  }

  /** The strings of parts joined with no separator. */
  function Concat(parts: seq<string>): string {
    if parts == [] then "" else parts[0] + Concat(parts[1..])
  }

  lemma {:induction false} SplitFromConcat(s: string, last: nat, i: nat, m: Matcher)
    requires last <= i <= |s|
    ensures Concat(SplitFrom(s, last, i, m)) == s[last..]
    ensures |SplitFrom(s, last, i, m)| % 2 == 1
    decreases |s| - i
  {
    if i < |s| {
      match Step(m, s, i)
      case Some(e) =>
        SplitFromConcat(s, e, e, m);
        var rest := SplitFrom(s, e, e, m);
        assert ([s[last..i], s[i..e]] + rest)[1..] == [s[i..e]] + rest;
        assert ([s[i..e]] + rest)[1..] == rest;
        assert s[last..] == s[last..i] + (s[i..e] + s[e..]);
      case None =>
        SplitFromConcat(s, last, i + 1, m);
    }
  }

  /** The segments joined back give the original HTML, and there is an odd number of them:
      2k+1 for k matches. */
  lemma SplitConcat(s: string)
    ensures Concat(Split(s)) == s
    ensures |Split(s)| % 2 == 1
  {
    SplitFromConcat(s, 0, 0, MatchAt);
  }

  ghost predicate NoMatchIn(s: string, m: Matcher, lo: nat, hi: nat) {
    forall p :: lo <= p < hi ==> Step(m, s, p).None?
  }

  /** The segments segs lie one after the other in s from offset o on, alternately unmatched
      and matched, the first one matched or not as `matched` says. */
  ghost predicate SegmentsFrom(s: string, o: nat, segs: seq<string>, m: Matcher, matched: bool)
    decreases |segs|
  {
    segs == [] || (SegmentAt(s, o, segs[0], m, matched) && SegmentsFrom(s, o + |segs[0]|, segs[1..], m, !matched))
  }

  /** The split from i, with the text since last pending, lays its segments out from last,
      starting with an unmatched one. */
  lemma {:induction false} SplitFromSegments(s: string, last: nat, i: nat, m: Matcher)
    requires last <= i <= |s| && NoMatchIn(s, m, last, i)
    ensures SegmentsFrom(s, last, SplitFrom(s, last, i, m), m, false)
    decreases |s| - i
  {
    if i == |s| {
      assert SplitFrom(s, last, i, m)[1..] == [];
    } else if Step(m, s, i).None? {
      var next := i + 1;
      SplitSkips(s, last, i, m);
      SplitFromSegments(s, last, next, m);
    } else {
      var e := Step(m, s, i).value;
      SplitFromSegments(s, e, e, m);
      SegmentsAtMatch(s, last, i, e, m);
    }
  }

  /** Where m does not match at i, the split from i is the split from i + 1, and the text
      pending since last still holds no match. */
  lemma SplitSkips(s: string, last: nat, i: nat, m: Matcher)
    requires last <= i < |s| && NoMatchIn(s, m, last, i) && Step(m, s, i).None?
    ensures SplitFrom(s, last, i, m) == SplitFrom(s, last, i + 1, m)
    ensures NoMatchIn(s, m, last, i + 1)
  {
  }

  /** The step of SplitFromSegments at a match: the pending text and the match come first. */
  lemma SegmentsAtMatch(s: string, last: nat, i: nat, e: nat, m: Matcher)
    requires last <= i < |s| && NoMatchIn(s, m, last, i) && Step(m, s, i) == Some(e)
    requires SegmentsFrom(s, e, SplitFrom(s, e, e, m), m, false)
    ensures SegmentsFrom(s, last, SplitFrom(s, last, i, m), m, false)
  {
    var rest := SplitFrom(s, e, e, m);
    var segs := [s[last..i], s[i..e]] + rest;
    assert SplitFrom(s, last, i, m) == segs;
    assert segs[1..] == [s[i..e]] + rest;
    assert segs[1..][1..] == rest;
  }

  /** Segments laid out from o: segment idx sits after the ones before it, matched or not by
      the parity of idx. */
  lemma {:induction false} SegmentOfSegments(s: string, o: nat, segs: seq<string>, m: Matcher, matched: bool, idx: nat)
    requires SegmentsFrom(s, o, segs, m, matched) && idx < |segs|
    ensures SegmentAt(s, o + |Concat(segs[..idx])|, segs[idx], m, if idx % 2 == 0 then matched else !matched)
    decreases idx
  {
    if idx > 0 {
      var o1, later := o + |segs[0]|, idx - 1;
      SegmentOfSegments(s, o1, segs[1..], m, !matched, later);
      ConcatPrefix(segs, idx);
    } else {
      assert segs[..0] == [];
    }
  }

  lemma ConcatPrefix(segs: seq<string>, idx: nat)
    requires 0 < idx <= |segs|
    ensures |Concat(segs[..idx])| == |segs[0]| + |Concat(segs[1..][..idx - 1])|
  {
    assert segs[..idx][1..] == segs[1..][..idx - 1];
  }

  /** Segment seg sits at offset o of s; a matched segment is the match of m at o, an
      unmatched one holds no index where m matches. */
  ghost predicate SegmentAt(s: string, o: nat, seg: string, m: Matcher, matched: bool) {
    && o + |seg| <= |s| && s[o..o + |seg|] == seg
    && (matched ==> Step(m, s, o) == Some(o + |seg|))
    && (!matched ==> forall p :: o <= p < o + |seg| ==> Step(m, s, p).None?)
  }

  /** Applying the block pattern as a matcher is calling MatchAt. */
  lemma StepMatchAt(s: string, p: nat)
    ensures Step(MatchAt, s, p) == MatchAt(s, p)
  {
  }

  /** The split yields exactly the leftmost non-overlapping matches: segment idx starts at
      offset o (the length of everything before it) and is s[o..o + |seg|]; an odd segment
      is the match at o; no match starts anywhere inside an even segment. */
  lemma SplitSegments(s: string, idx: nat)
    requires idx < |Split(s)|
    ensures var o := |Concat(Split(s)[..idx])|;
            var seg := Split(s)[idx];
            && o + |seg| <= |s| && s[o..o + |seg|] == seg
            && (idx % 2 == 1 ==> MatchAt(s, o) == Some(o + |seg|))
            && (idx % 2 == 0 ==> forall p :: o <= p < o + |seg| ==> MatchAt(s, p).None?)
  {
    SplitFromSegments(s, 0, 0, MatchAt);
    SegmentOfSegments(s, 0, Split(s), MatchAt, false, idx);
    var o := |Concat(Split(s)[..idx])|;
    var seg := Split(s)[idx];
    StepMatchAt(s, o);
    forall p | o <= p < o + |seg| ensures Step(MatchAt, s, p) == MatchAt(s, p) {
      StepMatchAt(s, p);
    }
  }

  /** Every odd segment is a block: `<div`, an opening tag holding `wp-block`, and a body
      cut at the first `</div>`. */
  lemma OddSegmentIsBlock(s: string, idx: nat)
    requires idx < |Split(s)| && idx % 2 == 1
    ensures exists j: nat :: IsBlock(Split(s)[idx], j)
  {
    SplitSegments(s, idx);
    var o := |Concat(Split(s)[..idx])|;
    var e := o + |Split(s)[idx]|;
    MatchIsBlock(s, o, e);
  }
}
