/** The line layout shared by every transcript file: a banner of sixty `=`, a
    title, another banner and a blank line on top; text blocks each followed by
    a blank line; a closing banner block at the bottom. */
module Layout {
  import opened Strings
  import opened Common

  /** `"=" * 60`. */
  const Width: nat := 60

  function Rule(): (r: string)
    ensures |r| == Width && forall i :: 0 <= i < Width ==> r[i] == '='
  {
    Repeat('=', Width)
  }

  /** The four opening lines. */
  function Header(title: string): (r: seq<string>)
    ensures |r| == 4 && r[1] == title && r[3] == ""
  {
    [Rule(), title, Rule(), ""]
  }

  const PlainTitle := "TRANSCRIPCIÓN DE LLAMADA"
  const TimedTitle := "TRANSCRIPCIÓN DE LLAMADA CON TIMESTAMPS"

  /** Each text followed by a blank line. */
  function Stanzas(texts: seq<string>): (r: seq<string>)
    ensures |r| == 2 * |texts|
  {
    if texts == [] then [] else [texts[0], ""] + Stanzas(texts[1..])
  }

  /** Text `k` sits on line `2k`, followed by a blank line. */
  lemma {:induction false} StanzaAt(texts: seq<string>, k: nat)
    requires k < |texts|
    ensures Stanzas(texts)[2 * k] == texts[k] && Stanzas(texts)[2 * k + 1] == ""
  {
    if k > 0 {
      StanzaAt(texts[1..], k - 1);
      assert Stanzas(texts) == [texts[0], ""] + Stanzas(texts[1..]);
    }
  }

  /** `s.strip()` of every piece. */
  function StripAll(pieces: seq<string>): (r: seq<string>)
    ensures |r| == |pieces|
    ensures forall i :: 0 <= i < |pieces| ==> r[i] == Strip(pieces[i])
  {
    Map(pieces, Strip)
  }

  /** A whole page: the header, each text followed by a blank line, the footer. */
  function Page(title: string, texts: seq<string>, footer: seq<string>): (r: seq<string>)
    ensures |r| == 4 + 2 * |texts| + |footer|
    ensures r[..4] == Header(title)
    ensures forall k :: 0 <= k < |texts| ==> r[4 + 2 * k] == texts[k] && r[5 + 2 * k] == ""
    ensures r[4 + 2 * |texts|..] == footer
  {
    var st := Stanzas(texts);
    var r := Header(title) + st + footer;
    forall k | 0 <= k < |texts| ensures r[4 + 2 * k] == texts[k] && r[5 + 2 * k] == "" {
      StanzaAt(texts, k);
      FramedAt(Header(title), st, footer, r, 2 * k);
      FramedAt(Header(title), st, footer, r, 2 * k + 1);
    }
    ConcatEnds(Header(title), st, footer);
    r
  }
}
