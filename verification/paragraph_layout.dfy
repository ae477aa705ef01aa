/** `_format_simple_text` of the refactored processor
    (audio_processor_refactored.py:421-496): the text is cut into sentences
    after `.`, `!` and `?`; sentences are gathered into paragraphs that close
    after 300 characters, after 50 words, or on a question or exclamation once
    the paragraph has three sentences; each paragraph is written as its
    stripped sentences joined by spaces, indented by four spaces when the line
    before it is blank. Because the header ends with a blank line and every
    paragraph is followed by one, every paragraph is indented, the first one
    included. A summary with the character, word and sentence counts closes the
    page. */
module ParagraphLayout {
  import opened Common
  import opened Strings
  import opened Chunking
  import opened SentenceSplit
  import opened Layout

  /** `sentence.rstrip().endswith(('!', '?'))`. */
  predicate EndsAsking(s: string) {
    var t := RStrip(s);
    t != [] && (t[|t| - 1] == '!' || t[|t| - 1] == '?')
  }

  /** The break rule of lines 458-462, on the paragraph after the sentence was added. */
  predicate Break(p: seq<string>) {
    || CharCount(p) > 300
    || WordCount(p) > 50
    || (|p| > 2 && EndsAsking(p[|p| - 1]))
  }

  function SentenceParagraphs(text: string): seq<seq<string>> {
    Paragraphs(SplitSentences(text).pieces, Break)
  }

  /** `' '.join(current_paragraph)`, the sentences having been stripped when added. */
  function ParagraphBody(p: seq<string>): string {
    JoinWith(" ", StripAll(p))
  }

  const Indent := "    "

  /** Writing one paragraph (lines 466-473 and 480-486): indented when the last
      line written is blank, then followed by a blank line. */
  function Emit(lines: seq<string>, p: seq<string>): (r: seq<string>)
    ensures |r| == |lines| + 2 && r[..|lines|] == lines && r[|r| - 1] == ""
  {
    var t := ParagraphBody(p);
    var line := if |lines| > 0 && lines[|lines| - 1] == "" then Indent + t else t;
    lines + [line, ""]
  }

  function EmitAll(lines: seq<string>, ps: seq<seq<string>>): seq<string>
    decreases |ps|
  {
    if ps == [] then lines else EmitAll(Emit(lines, ps[0]), ps[1..])
  }

  /** The paragraph lines as they end up: each body indented. */
  function IndentedBodies(ps: seq<seq<string>>): (r: seq<string>)
    ensures |r| == |ps|
    ensures forall k :: 0 <= k < |ps| ==> r[k] == Indent + ParagraphBody(ps[k])
  {
    if ps == [] then [] else [Indent + ParagraphBody(ps[0])] + IndentedBodies(ps[1..])
  }

  /** Once the last line is blank it stays so, hence every paragraph is indented. */
  lemma {:induction false} EmitAllIndents(lines: seq<string>, ps: seq<seq<string>>)
    requires |lines| > 0 && lines[|lines| - 1] == ""
    ensures EmitAll(lines, ps) == lines + Stanzas(IndentedBodies(ps))
    decreases |ps|
  {
    if ps != [] {
      var next := Emit(lines, ps[0]);
      assert next == lines + [Indent + ParagraphBody(ps[0]), ""];
      EmitAllIndents(next, ps[1..]);
      assert IndentedBodies(ps) == [Indent + ParagraphBody(ps[0])] + IndentedBodies(ps[1..]);
      assert Stanzas(IndentedBodies(ps)) == [Indent + ParagraphBody(ps[0]), ""] + Stanzas(IndentedBodies(ps[1..]));
    }
  }

  /** The closing summary (lines 489-494). */
  function Summary(text: string): seq<string> {
    [ Rule(), "RESUMEN:",
      "- Total de caracteres: " + Grouped(|text|),
      "- Total de palabras: " + Grouped(|Words(text)|),
      "- Oraciones aproximadas: " + NatToString(|SplitSentences(text).pieces|),
      Rule() ]
  }

  function ParagraphLines(text: string): seq<string> {
    EmitAll(Header(PlainTitle), SentenceParagraphs(text)) + Summary(text)
  }

  /** `_format_simple_text(text)`. */
  function FormatSimpleText(text: string): string {
    JoinLines(ParagraphLines(text))
  }

  /** The page is the header, one indented paragraph line and one blank line per
      paragraph (the first paragraph indented too), and the summary. */
  lemma ParagraphLinesShape(text: string)
    ensures ParagraphLines(text) == Page(PlainTitle, IndentedBodies(SentenceParagraphs(text)), Summary(text))
    ensures forall k :: 0 <= k < |SentenceParagraphs(text)| ==>
      ParagraphLines(text)[4 + 2 * k] == Indent + ParagraphBody(SentenceParagraphs(text)[k])
  {
    EmitAllIndents(Header(PlainTitle), SentenceParagraphs(text));
  }

  /** The paragraphs hold exactly the non-blank sentences, in order and each
      once; every paragraph but the last met the break rule, and none met it
      before its last sentence was added. */
  lemma SentenceParagraphsSpec(text: string)
    ensures Flatten(SentenceParagraphs(text)) == Filter(SplitSentences(text).pieces, NonBlank)
    ensures forall k :: 0 <= k < |SentenceParagraphs(text)| - 1 ==> Break(SentenceParagraphs(text)[k])
    ensures forall k :: 0 <= k < |SentenceParagraphs(text)| ==> Paragraph(SentenceParagraphs(text)[k], Break)
  {
    ParagraphsSpec(SplitSentences(text).pieces, Break);
  }
}
