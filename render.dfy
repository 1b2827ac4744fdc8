/** The rendering loop of convert_post_to_md (autoStattic.py:103-113): every segment of the
    split is emitted, trimmed, either as it is or through the HTML-to-Markdown converter,
    and followed by a blank line.

    The converter (html2text, configured through module-level settings) is a parameter:
    nothing is assumed about what it returns. */
module Render {

  import opened Base
  import opened Text
  import Blocks

  /** The test of line 106, `re.search(r'wp-block', block)`: a plain substring test. */
  predicate IsRawBlock(block: string) {
    Contains(block, "wp-block")
  }

  /** The text one segment contributes before its blank line: stripped, so it neither
      starts nor ends with whitespace, and the segment itself unless it is converted. */
  function Piece(block: string, useMarkdown: bool, html2text: string -> string): (r: string)
    ensures r != [] ==> !IsSpace(r[0]) && !IsSpace(r[|r| - 1])
    ensures IsRawBlock(block) || !useMarkdown ==> |r| <= |block|
  {
    if IsRawBlock(block) || !useMarkdown then Strip(block) else Strip(html2text(block))
  }

  /** Every segment's piece followed by "\n\n", in segment order. */
  function Rendered(blocks: seq<string>, useMarkdown: bool, html2text: string -> string): string {
    if blocks == [] then ""
    else Piece(blocks[0], useMarkdown, html2text) + "\n\n" + Rendered(blocks[1..], useMarkdown, html2text)
  }

  /** The loop as written, accumulating `converted_content`. */
  method ConvertBlocks(blocks: seq<string>, useMarkdown: bool, html2text: string -> string)
    returns (converted: string)
    ensures converted == Rendered(blocks, useMarkdown, html2text)
  {
    converted := "";
    for i := 0 to |blocks|
      invariant converted + Rendered(blocks[i..], useMarkdown, html2text) == Rendered(blocks, useMarkdown, html2text)
    {
      var block := blocks[i];
      var piece;
      if Contains(block, "wp-block") {
        piece := Strip(block);
      } else {
        if useMarkdown {
          piece := Strip(html2text(block));
        } else {
          piece := Strip(block);
        }
      }
      assert piece == Piece(block, useMarkdown, html2text);
      RenderedStep(blocks, i, useMarkdown, html2text, converted);
      converted := converted + piece + "\n\n";
    }
    assert blocks[|blocks|..] == [];
  }

  lemma RenderedStep(blocks: seq<string>, i: nat, useMarkdown: bool, html2text: string -> string, acc: string)
    requires i < |blocks|
    ensures acc + Rendered(blocks[i..], useMarkdown, html2text)
            == (acc + Piece(blocks[i], useMarkdown, html2text) + "\n\n") + Rendered(blocks[i + 1..], useMarkdown, html2text)
  {
    assert blocks[i..][1..] == blocks[i + 1..];
  }

  /** The body of a post: split, then render every segment. There is always at least one
      segment, so the body always ends with a blank line. */
  function ConvertedBody(html: string, useMarkdown: bool, html2text: string -> string): (r: string)
    ensures |r| >= 2 && r[|r| - 2] == '\n' && r[|r| - 1] == '\n'
  {
    Blocks.SplitConcat(html);
    RenderedEnds(Blocks.Split(html), useMarkdown, html2text);
    Rendered(Blocks.Split(html), useMarkdown, html2text)
  }

  /** Each segment adds at least its "\n\n", and a non-empty rendering ends with it. */
  lemma {:induction false} RenderedEnds(blocks: seq<string>, useMarkdown: bool, html2text: string -> string)
    ensures var r := Rendered(blocks, useMarkdown, html2text);
            && |r| >= 2 * |blocks|
            && (blocks != [] ==> r[|r| - 2] == '\n' && r[|r| - 1] == '\n')
  {
    if blocks != [] {
      RenderedEnds(blocks[1..], useMarkdown, html2text);
    }
  }

  /** Rendering distributes over concatenation of segment lists: each segment contributes its
      own piece and one "\n\n", independently of its neighbours. */
  lemma {:induction false} RenderedAppend(a: seq<string>, b: seq<string>, useMarkdown: bool, html2text: string -> string)
    ensures Rendered(a + b, useMarkdown, html2text)
            == Rendered(a, useMarkdown, html2text) + Rendered(b, useMarkdown, html2text)
  {
    if a != [] {
      assert (a + b)[0] == a[0];
      assert (a + b)[1..] == a[1..] + b;
      RenderedAppend(a[1..], b, useMarkdown, html2text);
      var p := Piece(a[0], useMarkdown, html2text) + "\n\n";
      var ra, rb := Rendered(a[1..], useMarkdown, html2text), Rendered(b, useMarkdown, html2text);
      assert Rendered(a + b, useMarkdown, html2text) == p + (ra + rb);
      assert p + (ra + rb) == (p + ra) + rb;
    } else {
      assert a + b == b;
    }
  }

  /** One segment, even an empty one, renders as its piece and exactly one "\n\n". */
  lemma RenderedOne(block: string, useMarkdown: bool, html2text: string -> string)
    ensures Rendered([block], useMarkdown, html2text) == Piece(block, useMarkdown, html2text) + "\n\n"
  {
    assert [block][1..] == [];
  }

  /** The converter is consulted only on segments without `wp-block`, and only in Markdown
      mode: two converters that agree on those segments render the same body. */
  lemma {:induction false} ConverterSeesOnlyPlainSegments(blocks: seq<string>, useMarkdown: bool,
                                                           h1: string -> string, h2: string -> string)
    requires forall i :: 0 <= i < |blocks| && useMarkdown && !IsRawBlock(blocks[i]) ==> h1(blocks[i]) == h2(blocks[i])
    ensures Rendered(blocks, useMarkdown, h1) == Rendered(blocks, useMarkdown, h2)
  {
    if blocks != [] {
      assert forall i :: 0 <= i < |blocks| - 1 ==> blocks[1..][i] == blocks[i + 1];
      ConverterSeesOnlyPlainSegments(blocks[1..], useMarkdown, h1, h2);
    }
  }

  /** A structured block from the split comes out byte for byte: it contains `wp-block`, and
      it starts with `<` and ends with `>`, so stripping leaves it whole. */
  lemma BlockVerbatim(t: string, j: nat, useMarkdown: bool, html2text: string -> string)
    requires Blocks.IsBlock(t, j)
    ensures Piece(t, useMarkdown, html2text) == t
  {
    var w :| 4 <= w && w + 8 <= j && OccursAt(t, "wp-block", w);
    assert IsRawBlock(t);
    assert t[0] == t[..4][0] == '<';
    assert t[|t| - 1] == t[|t| - 6..][5] == '>';
    StripUnpadded(t);
  }

  /** A match contains `wp-block`, so a text without it has no match anywhere. */
  lemma MatchHasMarker(s: string, i: nat)
    requires Blocks.MatchAt(s, i).Some?
    ensures IsRawBlock(s)
  {
    var j := Find(s, ">", i + 4).value;
    var w := Find(s[i + 4..j], "wp-block", 0).value;
    Blocks.OccursInSlice(s, i + 4, j, "wp-block", w);
    assert OccursAt(s, "wp-block", i + 4 + w);
  }

  /** A body without `wp-block` anywhere is one segment, converted whole: splitting does not
      change what the converter is given. */
  lemma UnmarkedBodyConvertedWhole(html: string, html2text: string -> string)
    requires !IsRawBlock(html)
    ensures ConvertedBody(html, true, html2text) == Strip(html2text(html)) + "\n\n"
  {
    forall p: nat | p <= |html| ensures Blocks.Step(Blocks.MatchAt, html, p).None? {
      Blocks.StepMatchAt(html, p);
      if Blocks.MatchAt(html, p).Some? { MatchHasMarker(html, p); }
    }
    Blocks.SplitWithoutMatch(html, 0, 0, Blocks.MatchAt);
    RenderedOne(html, true, html2text);
  }

  /** An empty body is split into one empty segment, which still contributes its "\n\n". */
  lemma EmptyBody(useMarkdown: bool, html2text: string -> string)
    ensures ConvertedBody("", useMarkdown, html2text) == Piece("", useMarkdown, html2text) + "\n\n"
  {
    assert Blocks.Split("") == [""];
    RenderedOne("", useMarkdown, html2text);
  }
}
