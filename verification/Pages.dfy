/** The pages the document processor builds, from recognised boxes or from plain text, and
    whether the validator on the other side accepts them. */
module Pages {
  import opened Utf8
  import opened Wrappers
  import opened Hashing
  import Manifest

  /** One recognised piece of text, after normalisation, with the rounded corners of its box in
      ten-thousandths of the image and its rounded score. */
  datatype Detection = Detection(text: Text, left: int, top: int, right: int, bottom: int, score: int)

  /** What a page is made from; plain text covers its page with one span. */
  datatype Source = NoText | Plain(fromPdf: bool, text: Text) | Recognised(found: seq<Detection>)

  function Clamp(low: int, high: int, value: int): int {
    if value < low then low else if value > high then high else value
  }

  function Box(d: Detection): seq<int> {
    [Clamp(0, 9_999, d.left), Clamp(0, 9_999, d.top), Clamp(1, 10_000, d.right), Clamp(1, 10_000, d.bottom)]
  }

  predicate EmptyBox(d: Detection) {
    Box(d)[0] >= Box(d)[2] || Box(d)[1] >= Box(d)[3]
  }

  function SpanOf(d: Detection): Manifest.Span {
    Manifest.Span(d.text, Box(d), Some(Clamp(0, 1_000, d.score)))
  }

  /** The spans of the detections that have a text. */
  function SpansOf(found: seq<Detection>): seq<Manifest.Span> {
    if found == [] then []
    else
      var last := found[|found| - 1];
      SpansOf(found[..|found| - 1]) + (if last.text == [] then [] else [SpanOf(last)])
  }

  predicate Degenerate(found: seq<Detection>) {
    exists d :: d in found && d.text != [] && EmptyBox(d)
  }

  /** The loop of `ocr_image`. */
  method OcrSpans(found: seq<Detection>) returns (spans: Option<seq<Manifest.Span>>)
    ensures spans == if Degenerate(found) then None else Some(SpansOf(found))
  {
    hide Box;
    var done: seq<Manifest.Span> := [];
    for i := 0 to |found|
      invariant done == SpansOf(found[..i]) && !Degenerate(found[..i])
    {
      var d := found[i];
      assert found[..i + 1][..i] == found[..i] && found[..i + 1] == found[..i] + [d];
      if d.text == [] { continue; }
      if EmptyBox(d) { return None; }
      done := done + [SpanOf(d)];
    }
    assert found[..|found|] == found;
    spans := Some(done);
  }

  /** The texts of the spans with newlines between them, from the front. */
  function TextOf(spans: seq<Manifest.Span>): Text {
    if spans == [] then []
    else if |spans| == 1 then spans[0].text
    else TextOf(spans[..|spans| - 1]) + [NEWLINE] + spans[|spans| - 1].text
  }

  /** `"\n".join` over the spans. */
  method JoinText(spans: seq<Manifest.Span>) returns (text: Text)
    ensures text == TextOf(spans)
  {
    text := [];
    for i := 0 to |spans|
      invariant text == TextOf(spans[..i])
    {
      assert spans[..i + 1][..i] == spans[..i];
      text := if i == 0 then spans[0].text else text + [NEWLINE] + spans[i].text;
    }
    assert spans[..|spans|] == spans;
  }

  /** `page_text`: refused only for the size of its text. */
  function PageText(number: int, route: string, width: int, height: int, text: Text, spans: seq<Manifest.Span>)
    : Option<Manifest.PageText>
  {
    if |Encode(text)| > Manifest.MAX_PAGE_TEXT_BYTES then None
    else Some(Manifest.PageText("knowledge.page_text.v1", number, route, if width < 1 then 1 else width,
                                if height < 1 then 1 else height, text, Sha256(Encode(text)), spans))
  }

  /** The page a source is turned into, unless the processor refuses it. */
  function Built(number: int, width: int, height: int, source: Source): Option<Manifest.PageText> {
    match source
    case NoText => PageText(number, "empty", width, height, [], [])
    case Plain(fromPdf, text) =>
      if text == [] then PageText(number, "empty", width, height, [], [])
      else PageText(number, if fromPdf then "pdfNative" else "nativeText", width, height, text,
                    [Manifest.Span(text, [0, 0, 10_000, 10_000], None)])
    case Recognised(found) =>
      if Degenerate(found) then None
      else PageText(number, "ppOcrV6Small", width, height, TextOf(SpansOf(found)), SpansOf(found))
  }

  lemma {:induction false} TextPrepend(first: Manifest.Span, spans: seq<Manifest.Span>)
    requires spans != []
    ensures TextOf([first] + spans) == first.text + [NEWLINE] + TextOf(spans)
    decreases |spans|
  {
    var all := [first] + spans;
    assert all[..|all| - 1] == [first] + spans[..|spans| - 1];
    if |spans| > 1 {
      TextPrepend(first, spans[..|spans| - 1]);
    } else {
      assert spans[..0] == [] && [first] + [] == [first];
    }
  }

  /** Both sides join spans alike, though one works from the front and one from the back. */
  lemma {:induction false} JoinsAgree(spans: seq<Manifest.Span>)
    ensures TextOf(spans) == Manifest.JoinSpans(spans)
    decreases |spans|
  {
    if |spans| > 1 {
      JoinsAgree(spans[1..]);
      TextPrepend(spans[0], spans[1..]);
      assert [spans[0]] + spans[1..] == spans;
    }
  }

  lemma {:induction false} SpansAreOk(found: seq<Detection>)
    requires !Degenerate(found)
    ensures forall i :: 0 <= i < |SpansOf(found)| ==> Manifest.SpanOk(SpansOf(found)[i])
  {
    if found != [] {
      var front, last := found[..|found| - 1], found[|found| - 1];
      assert last in found;
      SpansAreOk(front);
    }
  }

  lemma {:induction false} TextIsEmptyIff(spans: seq<Manifest.Span>)
    requires forall i :: 0 <= i < |spans| ==> spans[i].text != []
    ensures TextOf(spans) == [] <==> spans == []
  {
  }

  /** A page the processor has built passes the validator's checks of headers and spans exactly
      when its sides fit 32 bits and it has no more spans than the validator allows. */
  lemma BuiltPageIff(number: int, width: int, height: int, source: Source)
    requires Built(number, width, height, source).Some?
    ensures var p := Built(number, width, height, source).value;
            Manifest.HeaderOk(p, number) && Manifest.SpansOk(p)
            <==> width <= Manifest.MAX_DIMENSION && height <= Manifest.MAX_DIMENSION
                 && |p.spans| <= Manifest.MAX_SPANS
  {
    hide Encode, Degenerate;
    if source.Recognised? {
      var spans := SpansOf(source.found);
      SpansAreOk(source.found);
      JoinsAgree(spans);
      assert forall i :: 0 <= i < |spans| ==> Manifest.SpanOk(spans[i]);
      TextIsEmptyIff(spans);
    }
  }

  /** The text of a page, whatever it comes from. */
  function SourceText(source: Source): Text {
    match source
    case NoText => []
    case Plain(_, text) => text
    case Recognised(found) => TextOf(SpansOf(found))
  }

  /** A page is refused exactly for a box without an area or a text over the limit; otherwise it
      holds that text, with its digest, and says where it comes from. */
  lemma BuiltHolds(number: int, width: int, height: int, source: Source)
    ensures Built(number, width, height, source).None?
            <==> || (source.Recognised? && Degenerate(source.found))
                 || |Encode(SourceText(source))| > 4 * 1024 * 1024
    ensures Built(number, width, height, source).Some? ==>
              var p := Built(number, width, height, source).value;
              && p.text == SourceText(source) && p.textSha256 == Sha256(Encode(p.text)) && p.page == number
              && (p.route == "ppOcrV6Small" <==> source.Recognised?)
              && (p.route == "pdfNative" <==> source.Plain? && source.fromPdf && source.text != [])
              && (p.route == "empty" <==> source == NoText || (source.Plain? && source.text == []))
  {
    hide Degenerate, SpansOf, TextOf;
    assert |Encode([])| == 0;
  }

  /** All pages of a document, numbered from one. */
  predicate BuiltFrom(pages: seq<Manifest.PageText>, sides: seq<(int, int)>, sources: seq<Source>) {
    && |pages| == |sides| == |sources|
    && forall i :: 0 <= i < |pages| ==> Built(i + 1, sides[i].0, sides[i].1, sources[i]) == Some(pages[i])
  }

  /** So a document's manifest is valid against its canonical text exactly when all of its pages
      keep to those two bounds. */
  lemma BuiltDocumentIff(displayName: Text, pages: seq<Manifest.PageText>, sides: seq<(int, int)>,
                         sources: seq<Source>)
    requires BuiltFrom(pages, sides, sources) && pages != []
    ensures var heading := Manifest.Heading(displayName);
            var es := Manifest.Entries(heading, pages);
            Manifest.Valid(Manifest.Manifest("knowledge.derived_manifest.v1", |pages|, es),
                           Manifest.CanonicalText(heading, pages))
            <==> forall i :: 0 <= i < |pages| ==>
                   && sides[i].0 <= Manifest.MAX_DIMENSION && sides[i].1 <= Manifest.MAX_DIMENSION
                   && |pages[i].spans| <= Manifest.MAX_SPANS
  {
    hide Built, Manifest.HeaderOk, Manifest.SpansOk, Manifest.CanonicalText, Manifest.Heading, Manifest.Located, Decode;
    var heading := Manifest.Heading(displayName);
    forall i | 0 <= i < |pages|
      ensures Manifest.HeaderOk(pages[i], i + 1) && Manifest.SpansOk(pages[i])
              <==> sides[i].0 <= Manifest.MAX_DIMENSION && sides[i].1 <= Manifest.MAX_DIMENSION
                   && |pages[i].spans| <= Manifest.MAX_SPANS
    {
      BuiltPageIff(i + 1, sides[i].0, sides[i].1, sources[i]);
    }
    if Manifest.WellFormedPages(pages) { Manifest.ProducedManifestIsValid(displayName, pages); }
    var es := Manifest.Entries(heading, pages);
    EntriesHold(heading, pages);
    var m := Manifest.Manifest("knowledge.derived_manifest.v1", |pages|, es);
    if Manifest.Valid(m, Manifest.CanonicalText(heading, pages)) {
      forall i | 0 <= i < |pages| ensures Manifest.HeaderOk(pages[i], i + 1) && Manifest.SpansOk(pages[i]) {
        assert Manifest.PageOk(m, i, Manifest.CanonicalText(heading, pages));
      }
    }
  }

  lemma {:induction false} EntriesHold(heading: Bytes, pages: seq<Manifest.PageText>)
    ensures var es := Manifest.Entries(heading, pages);
            |es| == |pages| && forall i :: 0 <= i < |pages| ==> es[i].pageText == pages[i]
  {
    hide Manifest.CanonicalText, Manifest.Section, Encode, Newlines;
    if pages != [] { EntriesHold(heading, pages[..|pages| - 1]); }
  }

  /** A page wider than the validator allows is built all the same. */
  lemma WidePageIsRefused()
    ensures var p := Built(1, Manifest.MAX_DIMENSION + 1, 1_000, NoText);
            p.Some? && !Manifest.HeaderOk(p.value, 1)
  {
    assert |Encode([])| == 0;
  }
}
