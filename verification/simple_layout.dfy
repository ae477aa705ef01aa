/** `_format_simple_text` of the first processor (audio_processor.py:181-237):
    the text is cut at every period or comma followed by whitespace, the pieces
    are gathered into paragraphs of a little over 200 characters, and each
    paragraph is written as its stripped pieces joined by `". "`, ending in a
    period. */
module SimpleLayout {
  import opened Common
  import opened Strings
  import opened Chunking
  import opened SentenceSplit
  import opened Layout

  /** The break rule: more than 200 characters, counted on the unstripped pieces. */
  predicate Over200(p: seq<string>) {
    CharCount(p) > 200
  }

  /** `'. '.join(...)` of the stripped pieces, with a period added unless it
      already ends with one. */
  function ParagraphText(p: seq<string>): (t: string)
    ensures EndsWith(t, ".")
    ensures var j := JoinWith(". ", StripAll(p)); t == j || t == j + "."
  {
    var j := JoinWith(". ", StripAll(p));
    if EndsWith(j, ".") then j else j + "."
  }

  /** The paragraphs of a text. */
  function SimpleParagraphs(text: string): seq<seq<string>> {
    Paragraphs(SplitClauses(text).pieces, Over200)
  }

  function ParagraphTexts(ps: seq<seq<string>>): (r: seq<string>)
    ensures |r| == |ps|
    ensures forall k :: 0 <= k < |ps| ==> r[k] == ParagraphText(ps[k])
  {
    if ps == [] then [] else [ParagraphText(ps[0])] + ParagraphTexts(ps[1..])
  }

  /** `"FIN DE TRANSCRIPCIÓN - {n} caracteres"`. */
  function EndLine(n: nat): string {
    "FIN DE TRANSCRIPCIÓN - " + NatToString(n) + " caracteres"
  }

  /** The lines of the simple layout, before they are joined with newlines. */
  function SimpleLines(text: string): seq<string> {
    Page(PlainTitle, ParagraphTexts(SimpleParagraphs(text)), [Rule(), EndLine(|text|), Rule()])
  }

  /** `_format_simple_text(text)`. */
  function FormatSimpleText(text: string): string {
    JoinLines(SimpleLines(text))
  }

  /** The layout of the simple text: the header, then one paragraph line and one
      blank line per paragraph, each paragraph line ending with a period, then
      a footer that gives the length of the text. */
  lemma SimpleLinesShape(text: string)
    ensures |SimpleLines(text)| == 2 * |SimpleParagraphs(text)| + 7
    ensures SimpleLines(text)[..4] == Header(PlainTitle)
    ensures forall k :: 0 <= k < |SimpleParagraphs(text)| ==>
      SimpleLines(text)[4 + 2 * k] == ParagraphText(SimpleParagraphs(text)[k])
      && SimpleLines(text)[5 + 2 * k] == ""
    ensures forall k :: 0 <= k < |SimpleParagraphs(text)| ==> EndsWith(SimpleLines(text)[4 + 2 * k], ".")
    ensures SimpleLines(text)[|SimpleLines(text)| - 2] == EndLine(|text|)
  {
    var lines := SimpleLines(text);
    var n := |SimpleParagraphs(text)|;
    assert lines[|lines| - 2] == lines[4 + 2 * n..][1];
  }

  /** The paragraphs hold exactly the non-blank pieces of the split, in order and
      each once; every paragraph but the last passed 200 characters, and none
      did so before its last piece was added. */
  lemma SimpleParagraphsSpec(text: string)
    ensures Flatten(SimpleParagraphs(text)) == Filter(SplitClauses(text).pieces, NonBlank)
    ensures forall k :: 0 <= k < |SimpleParagraphs(text)| - 1 ==> CharCount(SimpleParagraphs(text)[k]) > 200
    ensures forall k :: 0 <= k < |SimpleParagraphs(text)| ==> Paragraph(SimpleParagraphs(text)[k], Over200)
  {
    ParagraphsSpec(SplitClauses(text).pieces, Over200);
  }

  /** A text with no non-blank piece (for instance an empty or all-blank text)
      gives no paragraph line: just the header and the footer. */
  lemma SimpleLinesBlank(text: string)
    requires forall i :: 0 <= i < |SplitClauses(text).pieces| ==> !NonBlank(SplitClauses(text).pieces[i])
    ensures SimpleLines(text) == Header(PlainTitle) + [Rule(), EndLine(|text|), Rule()]
  {
    var pieces := SplitClauses(text).pieces;
    ParagraphsSpec(pieces, Over200);
    FilterEmpty(pieces, NonBlank);
    var ps := SimpleParagraphs(text);
    if ps != [] {
      assert Paragraph(ps[0], Over200);
      FlattenNonEmpty(ps);
      assert false;
    }
  }
}
