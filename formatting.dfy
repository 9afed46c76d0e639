/**
 * Rich chat text as aiogram's `formatting` helpers build it: a sequence of
 * spans, each plain or carrying one entity. Rendering to text plus entity
 * offsets is the concatenation of the span texts; the offsets themselves are
 * not modelled.
 */
module Formatting {

  datatype Style = Plain | Bold | Italic | Pre(language: string)

  datatype Span = Span(style: Style, text: string)

  function PlainSpan(text: string): Span { Span(Plain, text) }

  /** The text that `Text(*spans).render()` sends. */
  function RenderedText(spans: seq<Span>): string {
    if spans == [] then "" else RenderedText(spans[..|spans| - 1]) + spans[|spans| - 1].text
  }

  lemma {:induction false} RenderedTextConcat(a: seq<Span>, b: seq<Span>)
    ensures RenderedText(a + b) == RenderedText(a) + RenderedText(b)
    decreases |b|
  {
    if b == [] {
      assert a + b == a;
    } else {
      assert (a + b)[..|a + b| - 1] == a + b[..|b| - 1];
      RenderedTextConcat(a, b[..|b| - 1]);
    }
  }

  /** The text of a few spans written out, as the call sites build them. */
  lemma RenderedTextOfFew(a: Span, b: Span, c: Span)
    ensures RenderedText([a]) == a.text
    ensures RenderedText([a, b]) == a.text + b.text
    ensures RenderedText([a, b, c]) == a.text + b.text + c.text
  {
    assert [a, b][..1] == [a];
    assert [a, b, c][..2] == [a, b];
  }
}
