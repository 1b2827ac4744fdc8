/** process_media_links (autoStattic.py:85-88):
    `re.sub(r'!\[(.*?)\]\((https://example.com/wp-content/uploads/(.*?)\))', r'!\[\1\](\3)', content)`.

    `.` matches any character but a newline (no DOTALL), including the one between `example`
    and `com`. In the replacement template the escapes `\[` and `\]` are not known to
    re.sub, which keeps them as they are, backslash included; `\1` and `\3` are the groups.
    The media_base_url argument is never read. */
module Media {

  import opened Base
  import opened Text

  const Before := "](https://example"
  const After := "com/wp-content/uploads/"

  /** Where the groups of one match lie: alt text s[start + 2..altEnd], the character the
      `.` between `example` and `com` matched at sep, upload path s[pathStart..pathEnd]; the
      match ends just after the `)` at pathEnd. */
  datatype Link = Link(start: nat, altEnd: nat, sep: nat, pathStart: nat, pathEnd: nat)

  /** What a match at m.start is made of: `![`, an alt text without newlines, the literal
      `](https://example`, one character that is not a newline, the literal
      `com/wp-content/uploads/`, a path without `)` or newlines, and `)`. */
  ghost predicate LinkShape(s: string, m: Link) {
    && OccursAt(s, "![", m.start) && m.start + 2 <= m.altEnd
    && m.sep == m.altEnd + |Before| && m.sep < |s|
    && (forall k :: m.start + 2 <= k < m.altEnd ==> s[k] != '\n')
    && OccursAt(s, Before, m.altEnd)
    && s[m.sep] != '\n'
    && OccursAt(s, After, m.sep + 1)
    && m.pathStart == m.sep + 1 + |After|
    && m.pathStart <= m.pathEnd < |s| && s[m.pathEnd] == ')'
    && (forall k :: m.pathStart <= k < m.pathEnd ==> s[k] != ')' && s[k] != '\n')
  }

  /** The lazy `(.*?)\)` of the path: the first `)` at or after b, provided no newline comes
      first. */
  function ScanPath(s: string, b: nat): (r: Option<nat>)
    requires b <= |s|
    ensures r.Some? ==> b <= r.value < |s|
    decreases |s| - b
  {
    if b == |s| || s[b] == '\n' then None
    else if s[b] == ')' then Some(b)
    else ScanPath(s, b + 1)
  }

  /** `\]\((https://example.com/wp-content/uploads/(.*?)\))` at index a: the path group's
      bounds, if it matches there. */
  function RestAt(s: string, a: nat): (r: Option<(nat, nat)>)
    ensures r.Some? ==> r.value.0 == a + |Before| + 1 + |After| && r.value.0 <= r.value.1 < |s|
  {
    var w := a + |Before|;
    if OccursAt(s, Before, a) && w < |s| && s[w] != '\n' && OccursAt(s, After, w + 1) then
      match ScanPath(s, w + 1 + |After|)
      case Some(c) => Some((w + 1 + |After|, c))
      case None => None
    else None
  }

  /** A way of matching the rest of the pattern at an index; the scan of the alt text is
      stated for any such matcher and used with RestAt. */
  type RestMatcher = (string, nat) -> Option<(nat, nat)>

  /** The rest matcher's answer at a, kept only when the path lies where the pattern puts
      it. */
  function RestStep(r: RestMatcher, s: string, a: nat): (o: Option<(nat, nat)>)
    ensures o.Some? ==> o.value.0 == a + |Before| + 1 + |After| && o.value.0 <= o.value.1 < |s|
  {
    match r(s, a)
    case Some((b, c)) => if b == a + |Before| + 1 + |After| && b <= c < |s| then Some((b, c)) else None
    case None => None
  }

  lemma RestStepAt(s: string, a: nat)
    ensures RestStep(RestAt, s, a) == RestAt(s, a)
  {
  }

  /** The lazy `(.*?)` of the alt text, grown one non-newline character at a time from a
      until the rest of the pattern matches: the match uses the first such end. */
  function ScanAlt(r: RestMatcher, s: string, start: nat, a: nat): (o: Option<Link>)
    requires start + 2 <= a <= |s|
    ensures o.Some? ==> o.value.start == start && a <= o.value.altEnd && o.value.sep == o.value.altEnd + |Before|
    ensures o.Some? ==> o.value.pathStart == o.value.sep + 1 + |After| && o.value.pathStart <= o.value.pathEnd < |s|
    decreases |s| - a
  {
    match RestStep(r, s, a)
    case Some((b, c)) => Some(Link(start, a, a + |Before|, b, c))
    case None =>
      if a == |s| || s[a] == '\n' then None else ScanAlt(r, s, start, a + 1)
  }

  /** Where a match at i can lie within s: its groups in order, the fixed text between
      them, and the closing `)` inside s. */
  predicate Fits(s: string, i: nat, m: Link) {
    m.start == i && i + 2 <= m.altEnd < m.sep < m.pathStart <= m.pathEnd < |s|
  }

  /** re.match of the pattern at index i. */
  function MatchAt(s: string, i: nat): (r: Option<Link>)
    ensures r.Some? ==> Fits(s, i, r.value)
  {
    if OccursAt(s, "![", i) then ScanAlt(RestAt, s, i, i + 2) else None
  }

  lemma {:induction false} ScanPathShape(s: string, b: nat)
    requires b <= |s| && ScanPath(s, b).Some?
    ensures s[ScanPath(s, b).value] == ')'
    ensures forall k :: b <= k < ScanPath(s, b).value ==> s[k] != ')' && s[k] != '\n'
    decreases |s| - b
  {
    if s[b] != ')' {
      ScanPathShape(s, b + 1);
    }
  }

  /** The alt text can grow past index k: k holds a character other than a newline, and the
      rest of the pattern does not match there. */
  predicate AltGoesOn(r: RestMatcher, s: string, k: nat) {
    k < |s| && s[k] != '\n' && RestStep(r, s, k).None?
  }

  lemma ScanAltMoves(r: RestMatcher, s: string, start: nat, a: nat)
    requires start + 2 <= a <= |s| && ScanAlt(r, s, start, a).Some? && RestStep(r, s, a).None?
    ensures AltGoesOn(r, s, a) && ScanAlt(r, s, start, a + 1) == ScanAlt(r, s, start, a)
  {
  }

  lemma ScanAltStops(r: RestMatcher, s: string, start: nat, a: nat)
    requires start + 2 <= a <= |s| && RestStep(r, s, a).Some?
    ensures ScanAlt(r, s, start, a) == Some(Link(start, a, a + |Before|, RestStep(r, s, a).value.0, RestStep(r, s, a).value.1))
  {
  }

  lemma {:induction false} ScanAltRest(r: RestMatcher, s: string, start: nat, a: nat)
    requires start + 2 <= a <= |s| && ScanAlt(r, s, start, a).Some?
    ensures RestStep(r, s, ScanAlt(r, s, start, a).value.altEnd) == Some((ScanAlt(r, s, start, a).value.pathStart, ScanAlt(r, s, start, a).value.pathEnd))
    decreases |s| - a
  {
    if RestStep(r, s, a).None? {
      ScanAltMoves(r, s, start, a);
      var a1 := a + 1;
      ScanAltRest(r, s, start, a1);
    } else {
      ScanAltStops(r, s, start, a);
    }
  }

  lemma {:induction false} ScanAltShape(r: RestMatcher, s: string, start: nat, a: nat)
    requires start + 2 <= a <= |s| && ScanAlt(r, s, start, a).Some?
    ensures forall k :: a <= k < ScanAlt(r, s, start, a).value.altEnd ==> AltGoesOn(r, s, k)
    decreases |s| - a
  {
    if RestStep(r, s, a).None? {
      ScanAltMoves(r, s, start, a);
      var a1 := a + 1;
      ScanAltShape(r, s, start, a1);
    } else {
      ScanAltStops(r, s, start, a);
    }
  }

  /** Every match has the shape of the pattern, and its alt text ends at the first place
      where the rest of the pattern matches (the laziness of the first group). */
  lemma MatchShape(s: string, i: nat)
    requires MatchAt(s, i).Some?
    ensures LinkShape(s, MatchAt(s, i).value)
    ensures forall k :: i + 2 <= k < MatchAt(s, i).value.altEnd ==> AltGoesOn(RestAt, s, k)
  {
    var l := MatchAt(s, i).value;
    MatchAtOpens(s, i);
    ScanAltShape(RestAt, s, i, i + 2);
    ScanAltRest(RestAt, s, i, i + 2);
    RestStepAt(s, l.altEnd);
    RestShape(s, l.altEnd, l.pathStart, l.pathEnd);
    ScanPathShape(s, l.pathStart);
    forall k | i + 2 <= k < l.altEnd ensures s[k] != '\n' {
      assert AltGoesOn(RestAt, s, k);
    }
  }

  lemma MatchAtOpens(s: string, i: nat)
    requires OccursAt(s, "![", i) || MatchAt(s, i).Some?
    ensures OccursAt(s, "![", i) && MatchAt(s, i) == ScanAlt(RestAt, s, i, i + 2)
  {
  }

  lemma RestShape(s: string, a: nat, b: nat, c: nat)
    requires RestAt(s, a) == Some((b, c))
    ensures OccursAt(s, Before, a) && a + |Before| < |s| && s[a + |Before|] != '\n'
    ensures OccursAt(s, After, a + |Before| + 1) && b == a + |Before| + 1 + |After|
    ensures ScanPath(s, b) == Some(c)
  {
  }

  /** One unit of the scanned text: a character left alone, or a whole match. */
  datatype Token = Char(c: char) | Match(whole: string, alt: string, sep: char, path: string)

  /** The text a token covers in the input. */
  function Original(t: Token): string {
    match t
    case Char(c) => [c]
    case Match(whole, _, _, _) => whole
  }

  /** The text a token becomes: a match is rewritten as `!\[alt\](path)`. */
  function Replaced(t: Token): string {
    match t
    case Char(c) => [c]
    case Match(_, alt, _, path) => "!\\[" + alt + "\\](" + path + ")"
  }

  function Originals(ts: seq<Token>): string {
    if ts == [] then "" else Original(ts[0]) + Originals(ts[1..])
  }

  function Replacements(ts: seq<Token>): string {
    if ts == [] then "" else Replaced(ts[0]) + Replacements(ts[1..])
  }

  /** The groups of a match, as a token. */
  function TokenOf(s: string, m: Link): Token
    requires Fits(s, m.start, m)
  {
    Match(s[m.start..m.pathEnd + 1], s[m.start + 2..m.altEnd], s[m.sep], s[m.pathStart..m.pathEnd])
  }

  /** A way of matching the pattern at an index; the scan below is stated for any such
      matcher and used with MatchAt. */
  type LinkMatcher = (string, nat) -> Option<Link>

  /** The matcher's answer at i, kept only when it lies within s. */
  function Step(m: LinkMatcher, s: string, i: nat): (r: Option<Link>)
    ensures r.Some? ==> Fits(s, i, r.value)
  {
    match m(s, i)
    case Some(l) => if Fits(s, i, l) then Some(l) else None
    case None => None
  }

  lemma StepMatchAt(s: string, i: nat)
    ensures Step(MatchAt, s, i) == MatchAt(s, i)
  {
  }

  /** The token the scan of re.sub produces at index i: the match there if there is one,
      or else the character there. */
  function TokenAt(m: LinkMatcher, s: string, i: nat): Token
    requires i < |s|
  {
    match Step(m, s, i)
    case Some(l) => TokenOf(s, l)
    case None => Char(s[i])
  }

  /** Where the scan resumes after index i: just after the match there, or at the next
      index. */
  function Next(m: LinkMatcher, s: string, i: nat): (r: nat)
    requires i < |s|
    ensures i < r <= |s|
  {
    match Step(m, s, i)
    case Some(l) => l.pathEnd + 1
    case None => i + 1
  }

  /** The scan of re.sub from index i, left to right, one token at a time. */
  function TokensFrom(s: string, i: nat, m: LinkMatcher): seq<Token>
    requires i <= |s|
    decreases |s| - i
  {
    if i == |s| then [] else [TokenAt(m, s, i)] + TokensFrom(s, Next(m, s, i), m)
  }

  function ProcessMediaLinks(content: string, mediaBaseUrl: string): string {
    Replacements(TokensFrom(content, 0, MatchAt))
  }

  /** Every match the matcher reports in s has the shape of the pattern. */
  ghost predicate Shaped(m: LinkMatcher, s: string) {
    forall i: nat :: ShapedAt(m, s, i)
  }

  ghost predicate ShapedAt(m: LinkMatcher, s: string, i: nat) {
    Step(m, s, i).Some? ==> LinkShape(s, Step(m, s, i).value)
  }

  lemma MatchAtShaped(s: string)
    ensures Shaped(MatchAt, s)
  {
    forall i: nat ensures ShapedAt(MatchAt, s, i) {
      StepMatchAt(s, i);
      if MatchAt(s, i).Some? {
        MatchShape(s, i);
      }
    }
  }

  /** The six pieces of s[i..e + 1] that a match is made of. */
  lemma Pieces(s: string, i: nat, a: nat, w: nat, b: nat, e: nat)
    requires i + 2 <= a <= w < b <= e < |s|
    ensures s[i..e + 1] == s[i..i + 2] + s[i + 2..a] + s[a..w] + [s[w]] + s[w + 1..b] + s[b..e] + [s[e]]
  {
    assert s[i..a] == s[i..i + 2] + s[i + 2..a];
    assert s[i..w] == s[i..a] + s[a..w];
    assert s[i..w + 1] == s[i..w] + [s[w]];
    assert s[i..b] == s[i..w + 1] + s[w + 1..b];
    assert s[i..e] == s[i..b] + s[b..e];
    assert s[i..e + 1] == s[i..e] + [s[e]];
  }

  /** The text of a match is `![`, its alt text, `](https://example`, its separator,
      `com/wp-content/uploads/`, its path and `)`. */
  lemma WholeIsPattern(s: string, m: Link)
    requires LinkShape(s, m)
    ensures var t := TokenOf(s, m);
            t.whole == "![" + t.alt + Before + [t.sep] + After + t.path + ")"
  {
    var a, w := m.altEnd, m.sep;
    Pieces(s, m.start, a, w, m.pathStart, m.pathEnd);
    assert s[m.start..m.start + 2] == "![";
    assert s[a..w] == Before;
    assert s[w + 1..m.pathStart] == After;
    assert [s[m.pathEnd]] == ")";
  }

  lemma TokensAtEnd(s: string, m: LinkMatcher)
    ensures TokensFrom(s, |s|, m) == []
  {
  }

  lemma TokensAt(s: string, i: nat, m: LinkMatcher)
    requires i < |s|
    ensures TokensFrom(s, i, m) == [TokenAt(m, s, i)] + TokensFrom(s, Next(m, s, i), m)
  {
  }

  lemma AtMatch(s: string, i: nat, m: LinkMatcher, l: Link)
    requires i < |s| && Step(m, s, i) == Some(l)
    ensures TokenAt(m, s, i) == TokenOf(s, l) && Next(m, s, i) == l.pathEnd + 1
  {
  }

  /** A token covers the text between its index and the resume index. */
  lemma OriginalAt(s: string, i: nat, m: LinkMatcher)
    requires i < |s|
    ensures Original(TokenAt(m, s, i)) == s[i..Next(m, s, i)]
  {
    match Step(m, s, i)
    case Some(l) =>
    case None =>
  }

  lemma OriginalsJoin(s: string, i: nat, n: nat, t: Token, rest: seq<Token>)
    requires i <= n <= |s| && Original(t) == s[i..n] && Originals(rest) == s[n..]
    ensures Originals([t] + rest) == s[i..]
  {
    assert ([t] + rest)[1..] == rest;
    assert s[i..] == s[i..n] + s[n..];
  }

  /** The tokens from i cover s[i..] exactly, in order. */
  lemma {:induction false} TokensCover(s: string, i: nat, m: LinkMatcher)
    requires i <= |s|
    ensures Originals(TokensFrom(s, i, m)) == s[i..]
    decreases |s| - i
  {
    if i == |s| {
      CoverEnd(s, i, m);
    } else {
      var n := Next(m, s, i);
      TokensCover(s, n, m);
      CoverStep(s, i, m);
    }
  }

  lemma CoverEnd(s: string, i: nat, m: LinkMatcher)
    requires i == |s|
    ensures Originals(TokensFrom(s, i, m)) == s[i..]
  {
    TokensAtEnd(s, m);
  }

  lemma CoverStep(s: string, i: nat, m: LinkMatcher)
    requires i < |s| && Originals(TokensFrom(s, Next(m, s, i), m)) == s[Next(m, s, i)..]
    ensures Originals(TokensFrom(s, i, m)) == s[i..]
  {
    var n := Next(m, s, i);
    TokensAt(s, i, m);
    OriginalAt(s, i, m);
    OriginalsJoin(s, i, n, TokenAt(m, s, i), TokensFrom(s, n, m));
  }

  /** Text outside the matches is left alone: the scan's tokens cover the input exactly, in
      order, so the rewrite changes only the matches. */
  lemma MediaTokensCover(content: string)
    ensures Originals(TokensFrom(content, 0, MatchAt)) == content
  {
    TokensCover(content, 0, MatchAt);
  }

  lemma OriginalsCons(t: Token, rest: seq<Token>)
    ensures Originals([t] + rest) == Original(t) + Originals(rest)
  {
    assert ([t] + rest)[1..] == rest;
  }

  /** Token k of the scan ts from i starts at offset o, i plus the length of the text the
      tokens before it cover, and it is the token at that offset: the match of m there if
      there is one, or else the character there. */
  lemma {:induction false} TokenAtOffset(s: string, i: nat, m: LinkMatcher, ts: seq<Token>, k: nat, o: int)
    requires i <= |s| && ts == TokensFrom(s, i, m) && k < |ts|
    requires o == i + |Originals(ts[..k])|
    ensures 0 <= o < |s| && ts[k] == TokenAt(m, s, o)
    decreases |s| - i
  {
    TokenIndex(s, i, m, k);
    if k == 0 {
      assert ts[..0] == [];
    } else {
      var n := Next(m, s, i);
      var rest := TokensFrom(s, n, m);
      var later := n + |Originals(rest[..k - 1])|;
      OffsetStep(s, i, m, k);
      assert o == later;
      assert ts[k] == rest[k - 1];
      TokenAtOffset(s, n, m, rest, k - 1, later);
    }
  }

  /** The step of TokenAtOffset: the first token covers s[i..Next(m, s, i)], so the offsets
      of the later tokens shift by that much. */
  lemma OffsetStep(s: string, i: nat, m: LinkMatcher, k: nat)
    requires i < |s| && 0 < k < |TokensFrom(s, i, m)|
    ensures k - 1 < |TokensFrom(s, Next(m, s, i), m)|
    ensures i + |Originals(TokensFrom(s, i, m)[..k])|
            == Next(m, s, i) + |Originals(TokensFrom(s, Next(m, s, i), m)[..k - 1])|
  {
    var n := Next(m, s, i);
    var ts, rest := TokensFrom(s, i, m), TokensFrom(s, n, m);
    TokensAt(s, i, m);
    assert ts[..k] == [TokenAt(m, s, i)] + rest[..k - 1];
    OriginalsCons(TokenAt(m, s, i), rest[..k - 1]);
    OriginalAt(s, i, m);
  }

  /** The rewrite never skips a match: where token k of its scan starts, the token is the
      pattern's match there when the pattern matches there, and otherwise the one
      character there, left alone. With MediaTokensCover, the match tokens are exactly the
      leftmost non-overlapping matches of the pattern. */
  lemma MediaScan(content: string, k: nat)
    requires k < |TokensFrom(content, 0, MatchAt)|
    ensures var ts := TokensFrom(content, 0, MatchAt); var o := |Originals(ts[..k])|;
            && o < |content|
            && (MatchAt(content, o).Some? ==> ts[k] == TokenOf(content, MatchAt(content, o).value))
            && (MatchAt(content, o).None? ==> ts[k] == Char(content[o]))
  {
    var ts := TokensFrom(content, 0, MatchAt);
    var o := |Originals(ts[..k])|;
    TokenAtOffset(content, 0, MatchAt, ts, k, o);
    StepMatchAt(content, o);
  }

  /** A match token is the pattern's text around its groups, neither group spans a newline,
      and the path holds no `)`. */
  predicate Grouped(t: Token) {
    t.Match? ==>
      && t.whole == "![" + t.alt + Before + [t.sep] + After + t.path + ")"
      && '\n' !in t.alt && '\n' !in t.path && ')' !in t.path && t.sep != '\n'
  }

  lemma GroupsOf(s: string, l: Link)
    requires LinkShape(s, l)
    ensures Grouped(TokenOf(s, l))
  {
    WholeIsPattern(s, l);
  }

  /** The token at i is Grouped when the matcher's answer there has the pattern's shape. */
  lemma GroupedAt(s: string, i: nat, m: LinkMatcher)
    requires i < |s| && ShapedAt(m, s, i)
    ensures Grouped(TokenAt(m, s, i))
  {
    match Step(m, s, i)
    case Some(l) => GroupsOf(s, l);
    case None =>
  }

  /** Token k of the scan from i is its first token or token k - 1 of the scan from the
      resume index. */
  lemma TokenIndex(s: string, i: nat, m: LinkMatcher, k: nat)
    requires i <= |s| && k < |TokensFrom(s, i, m)|
    ensures i < |s|
    ensures k == 0 ==> TokensFrom(s, i, m)[k] == TokenAt(m, s, i)
    ensures k > 0 ==> k - 1 < |TokensFrom(s, Next(m, s, i), m)| && TokensFrom(s, i, m)[k] == TokensFrom(s, Next(m, s, i), m)[k - 1]
  {
  }

  /** Every token of a scan with a well-shaped matcher is Grouped. */
  lemma {:induction false} TokensGroups(s: string, i: nat, m: LinkMatcher, k: nat)
    requires i <= |s| && Shaped(m, s)
    requires k < |TokensFrom(s, i, m)|
    ensures Grouped(TokensFrom(s, i, m)[k])
    decreases |s| - i
  {
    TokenIndex(s, i, m, k);
    if k == 0 {
      assert ShapedAt(m, s, i);
      GroupedAt(s, i, m);
    } else {
      var n := Next(m, s, i);
      TokensGroups(s, n, m, k - 1);
    }
  }

  /** Every match the rewrite finds is `![alt](https://example?com/wp-content/uploads/path)`
      with no newline in the alt text or the path, no `)` in the path, and any character
      but a newline in place of the `?`. */
  lemma MediaGroups(content: string, k: nat)
    requires k < |TokensFrom(content, 0, MatchAt)| && TokensFrom(content, 0, MatchAt)[k].Match?
    ensures var t := TokensFrom(content, 0, MatchAt)[k];
            && t.whole == "![" + t.alt + Before + [t.sep] + After + t.path + ")"
            && '\n' !in t.alt && '\n' !in t.path && ')' !in t.path && t.sep != '\n'
  {
    MatchAtShaped(content);
    TokensGroups(content, 0, MatchAt, k);
  }

  /** The one-link text `![alt](https://example.com/wp-content/uploads/path)`. */
  function LinkText(alt: string, path: string): string {
    "![" + alt + Before + "." + After + path + ")"
  }

  lemma SliceLeft(u: string, v: string, i: nat, j: nat)
    requires i <= j <= |u|
    ensures (u + v)[i..j] == u[i..j]
  {
  }

  lemma SliceRight(u: string, v: string, j: nat)
    requires j == |u| + |v|
    ensures (u + v)[|u|..j] == v
  {
  }

  /** Where the pieces of a one-link text begin: the alt text at 2, `](https://example` at
      a, the `.` at w, `com/wp-content/uploads/` at w + 1, the path at b and `)` at c. */
  lemma LinkTextPieces(alt: string, path: string)
    ensures var s, a := LinkText(alt, path), 2 + |alt|;
            var w := a + |Before|; var b := w + 1 + |After|; var c := b + |path|;
            && |s| == c + 1 && s[c] == ')' && s[w] == '.' && s[0..2] == "!["
            && s[2..a] == alt && s[a..w] == Before && s[w + 1..b] == After && s[b..c] == path
  {
    var p1 := "![" + alt;
    var p2 := p1 + Before;
    var p3 := p2 + ".";
    var p4 := p3 + After;
    var p5 := p4 + path;
    var a, w, b := |p1|, |p2|, |p4|;
    SliceRight("![", alt, a);
    SliceLeft("![", alt, 0, 2);
    SliceLeft(p1, Before, 0, 2);
    SliceLeft(p2, ".", 0, 2);
    SliceLeft(p3, After, 0, 2);
    SliceLeft(p4, path, 0, 2);
    SliceLeft(p5, ")", 0, 2);
    SliceLeft(p1, Before, 2, a);
    SliceLeft(p2, ".", 2, a);
    SliceLeft(p3, After, 2, a);
    SliceLeft(p4, path, 2, a);
    SliceLeft(p5, ")", 2, a);
    SliceRight(p1, Before, w);
    SliceLeft(p2, ".", a, w);
    SliceLeft(p3, After, a, w);
    SliceLeft(p4, path, a, w);
    SliceLeft(p5, ")", a, w);
    SliceRight(p3, After, b);
    SliceLeft(p4, path, w + 1, b);
    SliceLeft(p5, ")", w + 1, b);
    SliceRight(p4, path, |p5|);
    SliceLeft(p5, ")", b, |p5|);
  }

  /** The rest of the pattern can only match where a `]` is. */
  lemma RestNeedsBracket(s: string, k: nat)
    requires k < |s| && s[k] != ']'
    ensures RestAt(s, k).None?
  {
  }

  /** The lazy alt group of a one-link text runs over the whole alt text: at no index
      inside it does the rest of the pattern match. A `]` in the alt text is allowed, as
      long as what follows it is not a link to the upload prefix. */
  ghost predicate AltRunsWhole(alt: string, path: string) {
    forall k :: 2 <= k < 2 + |alt| ==> RestAt(LinkText(alt, path), k).None?
  }

  /** An alt text without `]` always runs whole. */
  lemma PlainAltRunsWhole(alt: string, path: string)
    requires ']' !in alt
    ensures AltRunsWhole(alt, path)
  {
    var s, a := LinkText(alt, path), 2 + |alt|;
    LinkTextPieces(alt, path);
    forall k | 2 <= k < a ensures RestAt(s, k).None? {
      assert s[k] == s[2..a][k - 2];
      RestNeedsBracket(s, k);
    }
  }

  lemma AltHasNoRest(alt: string, path: string)
    requires AltRunsWhole(alt, path) && '\n' !in alt
    ensures forall k :: 2 <= k < 2 + |alt| ==> AltGoesOn(RestAt, LinkText(alt, path), k)
  {
    var s, a := LinkText(alt, path), 2 + |alt|;
    LinkTextPieces(alt, path);
    forall k | 2 <= k < a ensures AltGoesOn(RestAt, s, k) {
      RestStepAt(s, k);
      assert s[k] == s[2..a][k - 2];
    }
  }

  lemma TextHasPath(alt: string, path: string)
    requires ')' !in path && '\n' !in path
    ensures var b := 2 + |alt| + |Before| + 1 + |After|;
            ScanPath(LinkText(alt, path), b) == Some(b + |path|)
  {
    var s, b := LinkText(alt, path), 2 + |alt| + |Before| + 1 + |After|;
    var c := b + |path|;
    LinkTextPieces(alt, path);
    forall k | b <= k < c ensures s[k] != ')' && s[k] != '\n' {
      assert s[k] == s[b..c][k - b];
    }
    PathScanFinds(s, b, c);
  }

  /** In a one-link text, the rest of the pattern matches right after the alt text. */
  lemma LinkTextRest(alt: string, path: string)
    requires ')' !in path && '\n' !in path
    ensures var b := 2 + |alt| + |Before| + 1 + |After|;
            RestStep(RestAt, LinkText(alt, path), 2 + |alt|) == Some((b, b + |path|))
  {
    LinkTextPieces(alt, path);
    TextHasPath(alt, path);
    RestStepAt(LinkText(alt, path), 2 + |alt|);
  }

  /** In a one-link text whose alt text runs whole, the scan finds the whole link. */
  lemma LinkTextMatch(alt: string, path: string)
    requires AltRunsWhole(alt, path) && '\n' !in alt && ')' !in path && '\n' !in path
    ensures var a := 2 + |alt|; var b := a + |Before| + 1 + |After|;
            MatchAt(LinkText(alt, path), 0) == Some(Link(0, a, a + |Before|, b, b + |path|))
  {
    var s, a := LinkText(alt, path), 2 + |alt|;
    var b := a + |Before| + 1 + |After|;
    var c := b + |path|;
    LinkTextOpens(alt, path);
    AltHasNoRest(alt, path);
    LinkTextRest(alt, path);
    MatchFound(s, a, b, c);
  }

  /** Where `![` opens at 0, the alt-text scan goes on up to a and the rest of the pattern
      matches at a, the match at 0 is the link ending there. */
  lemma MatchFound(s: string, a: nat, b: nat, c: nat)
    requires OccursAt(s, "![", 0) && 2 <= a <= |s| && RestStep(RestAt, s, a) == Some((b, c))
    requires forall k :: 2 <= k < a ==> AltGoesOn(RestAt, s, k)
    ensures MatchAt(s, 0) == Some(Link(0, a, a + |Before|, b, c))
  {
    MatchAtOpens(s, 0);
    ScanFinds(RestAt, s, a, b, c);
  }

  /** A scan of the alt text from 2 that goes on past every index before a, where the rest
      of the pattern matches, ends at a. */
  lemma ScanFinds(r: RestMatcher, s: string, a: nat, b: nat, c: nat)
    requires 2 <= a <= |s| && RestStep(r, s, a) == Some((b, c))
    requires forall k :: 2 <= k < a ==> AltGoesOn(r, s, k)
    ensures ScanAlt(r, s, 0, 2) == Some(Link(0, a, a + |Before|, b, c))
  {
    AltScanSkips(r, s, 0, 2, a);
    ScanAltStop(r, s, 0, a, b, c);
  }

  lemma LinkTextOpens(alt: string, path: string)
    ensures OccursAt(LinkText(alt, path), "![", 0)
  {
    LinkTextPieces(alt, path);
  }

  lemma ScanAltStop(r: RestMatcher, s: string, start: nat, a: nat, b: nat, c: nat)
    requires start + 2 <= a <= |s| && RestStep(r, s, a) == Some((b, c))
    ensures ScanAlt(r, s, start, a) == Some(Link(start, a, a + |Before|, b, c))
  {
  }

  lemma ScanAltNext(r: RestMatcher, s: string, start: nat, a: nat)
    requires start + 2 <= a && AltGoesOn(r, s, a)
    ensures ScanAlt(r, s, start, a) == ScanAlt(r, s, start, a + 1)
  {
  }

  lemma LinkTextGroups(alt: string, path: string)
    ensures var a := 2 + |alt|; var b := a + |Before| + 1 + |After|; var s := LinkText(alt, path);
            b + |path| < |s| && s[0..b + |path| + 1] == s && s[2..a] == alt && s[a + |Before|] == '.' && s[b..b + |path|] == path
  {
    var s := LinkText(alt, path);
    LinkTextPieces(alt, path);
    assert s[0..|s|] == s;
  }

  /** The token list of a one-link text is that one match. */
  lemma LinkTextTokens(alt: string, path: string)
    requires AltRunsWhole(alt, path) && '\n' !in alt && ')' !in path && '\n' !in path
    ensures TokensFrom(LinkText(alt, path), 0, MatchAt) == [Match(LinkText(alt, path), alt, '.', path)]
  {
    var s := LinkText(alt, path);
    var a := 2 + |alt|;
    var b := a + |Before| + 1 + |After|;
    var m := Link(0, a, a + |Before|, b, b + |path|);
    LinkTextMatch(alt, path);
    LinkTextGroups(alt, path);
    assert TokenOf(s, m) == Match(s, alt, '.', path);
    StepMatchAt(s, 0);
    AtMatch(s, 0, MatchAt, m);
    TokensAt(s, 0, MatchAt);
    TokensAtEnd(s, MatchAt);
  }

  /** One image link to the upload prefix, with an alt text that runs whole and has no
      newline and a path free of `)` and newlines, becomes `!\[alt\](path)`. */
  lemma LinkRewrite(alt: string, path: string)
    requires AltRunsWhole(alt, path) && '\n' !in alt && ')' !in path && '\n' !in path
    ensures ProcessMediaLinks(LinkText(alt, path), "") == "!\\[" + alt + "\\](" + path + ")"
  {
    var t := Match(LinkText(alt, path), alt, '.', path);
    LinkTextTokens(alt, path);
    assert Replacements([t]) == Replaced(t) + Replacements([]);
  }

  /** In particular, an alt text without `]` or newlines is rewritten whole. */
  lemma PlainLinkRewrite(alt: string, path: string)
    requires ']' !in alt && '\n' !in alt && ')' !in path && '\n' !in path
    ensures ProcessMediaLinks(LinkText(alt, path), "") == "!\\[" + alt + "\\](" + path + ")"
  {
    PlainAltRunsWhole(alt, path);
    LinkRewrite(alt, path);
  }

  lemma {:induction false} AltScanSkips(r: RestMatcher, s: string, start: nat, a: nat, target: nat)
    requires start + 2 <= a <= target <= |s|
    requires forall k :: a <= k < target ==> AltGoesOn(r, s, k)
    ensures ScanAlt(r, s, start, a) == ScanAlt(r, s, start, target)
    decreases target - a
  {
    if a < target {
      var a1 := a + 1;
      AltScanSkips(r, s, start, a1, target);
      ScanAltNext(r, s, start, a);
    }
  }

  lemma {:induction false} PathScanFinds(s: string, b: nat, c: nat)
    requires b <= c < |s| && s[c] == ')'
    requires forall k :: b <= k < c ==> s[k] != ')' && s[k] != '\n'
    ensures ScanPath(s, b) == Some(c)
    decreases c - b
  {
    if b < c {
      PathScanFinds(s, b + 1, c);
    }
  }

  /** The base URL argument has no effect on the result. */
  lemma MediaBaseUrlIgnored(content: string, url1: string, url2: string)
    ensures ProcessMediaLinks(content, url1) == ProcessMediaLinks(content, url2)
  {
  }
}
