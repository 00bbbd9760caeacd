/** The canonical text of a processed document and its page manifest: what the
    document processor writes, and the check the API makes before publishing it. */
module Manifest {
  import opened Utf8
  import opened Wrappers
  import opened Hashing
  import Decimal

  const MAX_OUTPUT_BYTES := 256 * 1024 * 1024
  const MAX_MANIFEST_BYTES := 64 * 1024 * 1024 - 64 * 1024
  const MAX_PAGE_TEXT_BYTES := 4 * 1024 * 1024
  const MAX_WORKBOOK_PREVIEW_BYTES := 16 * 1024 * 1024
  const MAX_DIMENSION := 4_294_967_295
  const MAX_SPANS := 200_000

  datatype Span = Span(text: Text, bbox: seq<int>, confidenceMilli: Option<int>)

  datatype PageText = PageText(
    schema: string, page: int, route: string, width: int, height: int,
    text: Text, textSha256: Digest, spans: seq<Span>)

  datatype PageEntry = PageEntry(
    pageText: PageText, startByte: int, endByte: int, startLine: int, endLine: int)

  datatype Manifest = Manifest(schema: string, pageCount: int, pages: seq<PageEntry>)

  // ---------------------------------------------------------------- validation

  predicate SpanOk(s: Span) {
    && s.text != []
    && |s.bbox| == 4
    && 0 <= s.bbox[0] < s.bbox[2] <= 10_000
    && 0 <= s.bbox[1] < s.bbox[3] <= 10_000
    && (s.confidenceMilli.Some? ==> 0 <= s.confidenceMilli.value <= 1_000)
  }

  /** The span texts joined with newlines. */
  function JoinSpans(spans: seq<Span>): Text {
    if spans == [] then []
    else if |spans| == 1 then spans[0].text
    else spans[0].text + [NEWLINE] + JoinSpans(spans[1..])
  }

  predicate SpansOk(p: PageText) {
    && |p.spans| <= MAX_SPANS
    && (forall i :: 0 <= i < |p.spans| ==> SpanOk(p.spans[i]))
    && (p.route == "empty" ==> p.text == [] && p.spans == [])
    && (p.spans != [] ==> JoinSpans(p.spans) == p.text)
    && (p.text != [] ==> p.spans != [])
  }

  predicate HeaderOk(p: PageText, number: int) {
    && p.schema == "knowledge.page_text.v1"
    && p.page == number
    && p.route in {"nativeText", "pdfNative", "ppOcrV6Small", "empty"}
    && 0 < p.width <= MAX_DIMENSION
    && 0 < p.height <= MAX_DIMENSION
    && |Encode(p.text)| <= MAX_PAGE_TEXT_BYTES
    && p.textSha256 == Sha256(Encode(p.text))
  }

  /** Entry `e` describes exactly the bytes and the lines of the canonical text that
      its page occupies: line numbers count from 1 at the start of the whole text. */
  predicate Located(e: PageEntry, canonical: Bytes) {
    && 0 <= e.startByte <= e.endByte <= |canonical|
    && canonical[e.startByte..e.endByte] == Encode(e.pageText.text)
    && e.startLine == 1 + Newlines(canonical[..e.startByte])
    && e.endLine == 1 + Newlines(canonical[..e.endByte])
  }

  predicate PageOk(m: Manifest, i: nat, canonical: Bytes)
    requires i < |m.pages|
  {
    var e := m.pages[i];
    && HeaderOk(e.pageText, i + 1)
    && SpansOk(e.pageText)
    && Located(e, canonical)
    && (i > 0 ==> m.pages[i - 1].endByte <= e.startByte)
  }

  predicate Valid(m: Manifest, canonical: Bytes) {
    && Decode(canonical).Decoded?
    && m.schema == "knowledge.derived_manifest.v1"
    && m.pageCount == |m.pages|
    && m.pages != []
    && forall i :: 0 <= i < |m.pages| ==> PageOk(m, i, canonical)
  }

  /** What acceptance says of a page: its number, the digest and size of the bytes it stands for,
      and boxes that hold text and lie within the page; without text there are none. */
  lemma ValidPageMeans(m: Manifest, canonical: Bytes, i: nat, k: nat)
    requires Valid(m, canonical) && i < |m.pages|
    ensures var e := m.pages[i]; var p := e.pageText;
            && 0 <= e.startByte <= e.endByte <= |canonical| && e.endByte - e.startByte <= 4 * 1024 * 1024
            && p.page == i + 1 && p.textSha256 == Sha256(canonical[e.startByte..e.endByte])
            && p.schema == "knowledge.page_text.v1" && 1 <= p.width <= 0xFFFF_FFFF && 1 <= p.height <= 0xFFFF_FFFF
            && (p.spans == [] <==> p.text == []) && (p.route == "empty" ==> p.spans == [])
            && (k < |p.spans| ==>
                  var s := p.spans[k];
                  && s.text != [] && |s.bbox| == 4
                  && 0 <= s.bbox[0] < s.bbox[2] <= 10_000 && 0 <= s.bbox[1] < s.bbox[3] <= 10_000
                  && (s.confidenceMilli.Some? ==> 0 <= s.confidenceMilli.value <= 1_000))
            && |p.spans| <= 200_000
  {
    hide Encode, Newlines, Decode;
    assert PageOk(m, i, canonical);
    var p := m.pages[i].pageText;
    if p.spans != [] { assert SpanOk(p.spans[0]); }
  }

  lemma NoNewlines(s: Bytes)
    ensures Newlines(s[..0]) == 0
  {
  }

  /** The validator only ever compares a page with the one before it; what it
      accepts is nevertheless the absolute description `Valid`. */
  method ValidateManifest(m: Manifest, canonical: Bytes) returns (ok: bool)
    ensures ok <==> Valid(m, canonical)
  {
    hide Encode, Newlines, Decode, HeaderOk, SpansOk;
    if !Decode(canonical).Decoded? {
      return false;
    }
    if m.schema != "knowledge.derived_manifest.v1" {
      return false;
    }
    if m.pageCount != |m.pages| || m.pages == [] {
      return false;
    }
    var previousEnd: nat, previousEndLine := 0, 1;
    NoNewlines(canonical);
    for i := 0 to |m.pages|
      invariant previousEnd <= |canonical|
      invariant previousEnd == if i == 0 then 0 else m.pages[i - 1].endByte
      invariant previousEndLine == 1 + Newlines(canonical[..previousEnd])
      invariant forall j :: 0 <= j < i ==> PageOk(m, j, canonical)
    {
      var e := m.pages[i];
      var p := e.pageText;
      var encoded := Encode(p.text);
      if !HeaderOk(p, i + 1)
        || e.startByte < previousEnd
        || e.startByte < 0
        || e.endByte != e.startByte + |encoded|
        || e.endByte > |canonical|
        || canonical[e.startByte..e.endByte] != encoded
        || e.startLine != previousEndLine + Newlines(canonical[previousEnd..e.startByte])
        || e.endLine != e.startLine + Newlines(encoded)
      {
        assert !PageOk(m, i, canonical) by {
          if PageOk(m, i, canonical) {
            NewlinesBetween(canonical, previousEnd, e.startByte);
            NewlinesBetween(canonical, e.startByte, e.endByte);
          }
        }
        return false;
      }
      NewlinesBetween(canonical, previousEnd, e.startByte);
      NewlinesBetween(canonical, e.startByte, e.endByte);
      if !SpansOk(p) {
        assert !PageOk(m, i, canonical);
        return false;
      }
      previousEnd, previousEndLine := e.endByte, e.endLine;
    }
    ok := true;
  }

  // ---------------------------------------------------------------- production

  // Fixed parts of manifest.json: `{"schema":"knowledge.derived_manifest.v1","pages":[`
  // and `],"pageCount":` with the final brace.
  const MANIFEST_OPENING := 51
  const MANIFEST_CLOSING := 15

  /** Length of the JSON the processor writes for one entry. */
  const EntryJsonSize: PageEntry -> nat

  function Heading(displayName: Text): Bytes {
    Encode(Decimal.Literal("# ") + displayName + [NEWLINE, NEWLINE])
  }

  function PageHeader(number: int): Bytes {
    Encode(Decimal.Literal("## Page ") + Decimal.PrintInt(number) + [NEWLINE, NEWLINE])
  }

  const BLANK_LINE: Bytes := [NEWLINE, NEWLINE]

  /** What one page contributes to the canonical text. */
  function Section(p: PageText): Bytes
  {
    PageHeader(p.page) + Encode(p.text) + BLANK_LINE
  }

  function Sections(pages: seq<PageText>): Bytes
  {
    if pages == [] then []
    else Sections(pages[..|pages| - 1]) + Section(pages[|pages| - 1])
  }

  /** The canonical text: the heading, then the sections of all pages in order. */
  function CanonicalText(heading: Bytes, pages: seq<PageText>): Bytes
  {
    heading + Sections(pages)
  }

  /** Where the processor says page `p` stands when `before` has been written. */
  function EntryAfter(before: Bytes, p: PageText): PageEntry
  {
    var start := |before| + |PageHeader(p.page)|;
    var line := 1 + Newlines(before) + Newlines(PageHeader(p.page));
    PageEntry(p, start, start + |Encode(p.text)|, line, line + Newlines(Encode(p.text)))
  }

  function Entries(heading: Bytes, pages: seq<PageText>): (es: seq<PageEntry>)
    ensures |es| == |pages|
  {
    if pages == [] then []
    else
      var front := pages[..|pages| - 1];
      Entries(heading, front) + [EntryAfter(CanonicalText(heading, front), pages[|pages| - 1])]
  }

  /** Bytes of manifest.json before its closing bracket. */
  function ManifestBytes(es: seq<PageEntry>): nat {
    if es == [] then MANIFEST_OPENING
    else
      ManifestBytes(es[..|es| - 1]) + (if |es| > 1 then 1 else 0) + EntryJsonSize(es[|es| - 1])
  }

  function ManifestSize(es: seq<PageEntry>): nat {
    ManifestBytes(es) + MANIFEST_CLOSING + |Decimal.Print(|es|)|
  }

  datatype Outputs = Outputs(canonical: Bytes, manifest: Manifest, manifestSize: nat,
                               previewSize: nat, workbookSize: nat)

  datatype ProcessingResult = Written(outputs: Outputs) | ProcessingError

  /** Every budget of the processor, on the finished outputs. `previewStat` is the
      preview's size when it was first inspected, `previewSize` what was copied. */
  predicate Fits(heading: Bytes, pages: seq<PageText>, previewStat: nat, previewSize: nat, workbookSize: nat)
  {
    && pages != []
    && workbookSize <= MAX_WORKBOOK_PREVIEW_BYTES
    && (forall i :: 0 <= i < |pages| ==> |Encode(pages[i].text)| <= MAX_PAGE_TEXT_BYTES)
    && |CanonicalText(heading, pages)| + previewStat + workbookSize <= MAX_OUTPUT_BYTES
    && |CanonicalText(heading, pages)| + previewSize <= MAX_OUTPUT_BYTES
    && ManifestSize(Entries(heading, pages)) <= MAX_MANIFEST_BYTES
  }

  lemma {:induction false} BudgetsGrow(heading: Bytes, pages: seq<PageText>, n: nat)
    requires n <= |pages|
    ensures |CanonicalText(heading, pages[..n])| <= |CanonicalText(heading, pages)|
    ensures ManifestBytes(Entries(heading, pages[..n])) <= ManifestBytes(Entries(heading, pages))
    decreases |pages|
  {
    hide Encode, Section, EntryAfter;
    if n < |pages| {
      var front := pages[..|pages| - 1];
      BudgetsGrow(heading, front, n);
      assert front[..n] == pages[..n];
      var es := Entries(heading, pages);
      assert es[..|es| - 1] == Entries(heading, front);
    } else {
      assert pages[..n] == pages;
    }
  }

  /** `write_bounded`: appends unless the limit would be passed. */
  method WriteBounded(output: Bytes, content: Bytes, maximum: int) returns (ok: bool, longer: Bytes)
    ensures ok <==> |output| + |content| <= maximum
    ensures longer == if ok then output + content else output
  {
    if |output| + |content| > maximum {
      return false, output;
    }
    return true, output + content;
  }

  /** One page of the loop in `write_outputs`. */
  method WritePage(before: Bytes, line: int, p: PageText, limit: int)
    returns (ok: bool, canonical: Bytes, entry: PageEntry)
    requires line == 1 + Newlines(before)
    ensures ok <==> |Encode(p.text)| <= MAX_PAGE_TEXT_BYTES && |before + Section(p)| <= limit
    ensures ok ==> canonical == before + Section(p) && entry == EntryAfter(before, p)
  {
    hide Encode, Newlines, PageHeader;
    var header := PageHeader(p.page);
    var body := Encode(p.text);
    entry := PageEntry(p, 0, 0, 0, 0);
    if |body| > MAX_PAGE_TEXT_BYTES {
      return false, before, entry;
    }
    ok, canonical := WriteBounded(before, header, limit);
    if !ok { return; }
    var startByte, startLine := |canonical|, line + Newlines(header);
    ok, canonical := WriteBounded(canonical, body, limit);
    if !ok { return; }
    var endByte, endLine := |canonical|, startLine + Newlines(body);
    ok, canonical := WriteBounded(canonical, BLANK_LINE, limit);
    if !ok { return; }
    entry := PageEntry(p, startByte, endByte, startLine, endLine);
  }

  /** The page loop of `write_outputs`. */
  method WritePages(heading: Bytes, pages: seq<PageText>, limit: int)
    returns (ok: bool, canonical: Bytes, entries: seq<PageEntry>, manifestBytes: nat)
    ensures ok <==>
      && (forall i :: 0 <= i < |pages| ==> |Encode(pages[i].text)| <= MAX_PAGE_TEXT_BYTES)
      && |CanonicalText(heading, pages)| <= limit
      && ManifestBytes(Entries(heading, pages)) <= MAX_MANIFEST_BYTES
    ensures ok ==> canonical == CanonicalText(heading, pages)
    ensures ok ==> entries == Entries(heading, pages) && manifestBytes == ManifestBytes(entries)
  {
    hide Encode, Newlines, Section, EntryAfter, Sections, CanonicalText, Entries, ManifestBytes;
    canonical, entries, manifestBytes := heading, [], MANIFEST_OPENING;
    NoPages(heading);
    BudgetsGrow(heading, pages, 0);
    if |heading| > limit {
      return false, canonical, entries, manifestBytes;
    }
    var line := Newlines(canonical) + 1;
    for i := 0 to |pages|
      invariant canonical == CanonicalText(heading, pages[..i])
      invariant |canonical| <= limit
      invariant line == 1 + Newlines(canonical)
      invariant entries == Entries(heading, pages[..i])
      invariant manifestBytes == ManifestBytes(entries) <= MAX_MANIFEST_BYTES
      invariant forall j :: 0 <= j < i ==> |Encode(pages[j].text)| <= MAX_PAGE_TEXT_BYTES
    {
      NextPage(heading, pages, i);
      BudgetsGrow(heading, pages, i + 1);
      SectionLines(canonical, pages[i]);
      var written, longer, entry := WritePage(canonical, line, pages[i], limit);
      if !written {
        return false, canonical, entries, manifestBytes;
      }
      canonical, line, entries := longer, entry.endLine + 2, entries + [entry];
      manifestBytes := manifestBytes + (if i > 0 then 1 else 0) + EntryJsonSize(entry);
      if manifestBytes > MAX_MANIFEST_BYTES {
        return false, canonical, entries, manifestBytes;
      }
    }
    assert pages[..|pages|] == pages;
    ok := true;
  }

  /** `write_outputs`: succeeds exactly when every budget fits, and then the files
      hold the canonical text of all pages and one entry for each. */
  method WriteOutputs(displayName: Text, pages: seq<PageText>, previewStat: nat, previewChunks: seq<nat>,
                        workbookSize: nat)
    returns (r: ProcessingResult)
    ensures r.Written? <==> Fits(Heading(displayName), pages, previewStat, Sum(previewChunks), workbookSize)
    ensures r.Written? ==>
      && r.outputs.canonical == CanonicalText(Heading(displayName), pages)
      && r.outputs.manifest ==
         Manifest("knowledge.derived_manifest.v1", |pages|, Entries(Heading(displayName), pages))
      && r.outputs.manifestSize == ManifestSize(Entries(Heading(displayName), pages))
      && r.outputs.previewSize == Sum(previewChunks)
      && r.outputs.workbookSize == workbookSize
  {
    hide Encode, Sections, Heading, Entries, ManifestBytes, Sum, Decimal.Print;
    if workbookSize > MAX_WORKBOOK_PREVIEW_BYTES || previewStat + workbookSize > MAX_OUTPUT_BYTES {
      return ProcessingError;
    }
    var ok, canonical, entries, manifestSize :=
      WritePages(Heading(displayName), pages, MAX_OUTPUT_BYTES - previewStat - workbookSize);
    if !ok || pages == [] {
      return ProcessingError;
    }
    manifestSize := manifestSize + MANIFEST_CLOSING + |Decimal.Print(|entries|)|;
    if manifestSize > MAX_MANIFEST_BYTES {
      return ProcessingError;
    }
    var previewSize;
    ok, previewSize := CopyPreview(previewChunks, MAX_OUTPUT_BYTES - |canonical|);
    if !ok {
      return ProcessingError;
    }
    r := Written(Outputs(canonical, Manifest("knowledge.derived_manifest.v1", |pages|, entries),
                         manifestSize, previewSize, workbookSize));
  }

  method CopyPreview(chunks: seq<nat>, maximum: nat) returns (ok: bool, written: nat)
    ensures ok <==> Sum(chunks) <= maximum
    ensures ok ==> written == Sum(chunks)
  {
    written := 0;
    for i := 0 to |chunks|
      invariant written == Sum(chunks[..i]) <= maximum
    {
      assert chunks[..i + 1][..i] == chunks[..i];
      SumGrows(chunks, i + 1);
      if written + chunks[i] > maximum {
        return false, written;
      }
      written := written + chunks[i];
    }
    assert chunks[..|chunks|] == chunks;
    ok := true;
  }

  function Sum(xs: seq<nat>): nat {
    if xs == [] then 0 else Sum(xs[..|xs| - 1]) + xs[|xs| - 1]
  }

  lemma {:induction false} SumGrows(xs: seq<nat>, n: nat)
    requires n <= |xs|
    ensures Sum(xs[..n]) <= Sum(xs)
    decreases |xs|
  {
    if n < |xs| {
      SumGrows(xs[..|xs| - 1], n);
      assert xs[..|xs| - 1][..n] == xs[..n];
    } else {
      assert xs[..n] == xs;
    }
  }

  lemma SectionLines(before: Bytes, p: PageText)
    ensures var e := EntryAfter(before, p);
            && before + Section(p) == (before + PageHeader(p.page)) + Encode(p.text) + BLANK_LINE
            && e.startLine == 1 + Newlines(before + PageHeader(p.page))
            && e.endLine == 1 + Newlines(before + PageHeader(p.page) + Encode(p.text))
            && e.endLine + 2 == 1 + Newlines(before + Section(p))
  {
    hide Encode, PageHeader, Newlines;
    NewlinesConcat(before, PageHeader(p.page));
    NewlinesConcat(before + PageHeader(p.page), Encode(p.text));
    NewlinesConcat(before + PageHeader(p.page) + Encode(p.text), BLANK_LINE);
    BlankLineNewlines();
  }

  lemma BlankLineNewlines()
    ensures Newlines(BLANK_LINE) == 2
  {
    assert Newlines(BLANK_LINE) == 1 + Newlines(BLANK_LINE[1..]);
    assert Newlines(BLANK_LINE[1..]) == 1 + Newlines(BLANK_LINE[1..][1..]);
  }

  lemma NoPages(heading: Bytes)
    ensures CanonicalText(heading, []) == heading
    ensures Entries(heading, []) == [] && ManifestBytes([]) == MANIFEST_OPENING
  {
  }

  /** One more page, one more section, one more entry. */
  lemma NextPage(heading: Bytes, pages: seq<PageText>, i: nat)
    requires i < |pages|
    ensures var before := CanonicalText(heading, pages[..i]);
            var es := Entries(heading, pages[..i]);
            var entry := EntryAfter(before, pages[i]);
            && CanonicalText(heading, pages[..i + 1]) == before + Section(pages[i])
            && Entries(heading, pages[..i + 1]) == es + [entry]
            && ManifestBytes(es + [entry]) == ManifestBytes(es) + (if i > 0 then 1 else 0) + EntryJsonSize(entry)
  {
    hide Encode, Section, EntryAfter;
    assert pages[..i + 1][..i] == pages[..i];
    var es := Entries(heading, pages[..i]);
    var entry := EntryAfter(CanonicalText(heading, pages[..i]), pages[i]);
    assert (es + [entry])[..i] == es;
  }

  // ------------------------------------------------ what is written passes the check

  /** Pages as the extraction routes hand them over. */
  predicate WellFormedPages(pages: seq<PageText>) {
    && pages != []
    && forall i :: 0 <= i < |pages| ==> HeaderOk(pages[i], i + 1) && SpansOk(pages[i])
  }

  lemma {:induction false} CanonicalDecodes(heading: Bytes, pages: seq<PageText>)
    requires exists t: Text :: Encode(t) == heading
    ensures exists t: Text :: Encode(t) == CanonicalText(heading, pages)
  {
    hide Encode, Section;
    if pages != [] {
      var front, p := pages[..|pages| - 1], pages[|pages| - 1];
      CanonicalDecodes(heading, front);
      var t: Text :| Encode(t) == CanonicalText(heading, front);
      var u := SectionDecodes(p);
      EncodeConcat(t, u);
      assert CanonicalText(heading, front) + Section(p) == CanonicalText(heading, pages);
    } else {
      assert heading == CanonicalText(heading, pages);
    }
  }

  lemma HeadingDecodes(displayName: Text)
    ensures exists t: Text :: Encode(t) == Heading(displayName)
  {
    assert Encode(Decimal.Literal("# ") + displayName + [NEWLINE, NEWLINE]) == Heading(displayName);
  }

  lemma SectionDecodes(p: PageText) returns (u: Text)
    ensures Encode(u) == Section(p)
  {
    var header := Decimal.Literal("## Page ") + Decimal.PrintInt(p.page) + [NEWLINE, NEWLINE];
    var tail: Text := [NEWLINE, NEWLINE];
    u := header + p.text + tail;
    EncodeConcat(header, p.text);
    EncodeConcat(header + p.text, tail);
    assert Encode(tail) == BLANK_LINE by {
      assert Encode(tail) == [NEWLINE] + Encode(tail[1..]);
      assert Encode(tail[1..]) == [NEWLINE] + Encode(tail[1..][1..]);
    }
  }

  /** An entry keeps describing its page when more text is appended. */
  lemma LocatedInLonger(e: PageEntry, s: Bytes, more: Bytes)
    requires Located(e, s)
    ensures Located(e, s + more)
  {
    assert (s + more)[e.startByte..e.endByte] == s[e.startByte..e.endByte];
    assert (s + more)[..e.startByte] == s[..e.startByte];
    assert (s + more)[..e.endByte] == s[..e.endByte];
  }

  lemma EntryIsLocated(before: Bytes, p: PageText)
    ensures Located(EntryAfter(before, p), before + Section(p))
  {
    var e := EntryAfter(before, p);
    var whole := before + Section(p);
    SectionLines(before, p);
    assert whole[..e.startByte] == before + PageHeader(p.page);
    assert whole[..e.endByte] == before + PageHeader(p.page) + Encode(p.text);
    assert whole[e.startByte..e.endByte] == Encode(p.text);
  }

  lemma {:induction false} EntriesAreLocated(heading: Bytes, pages: seq<PageText>, i: nat)
    requires i < |pages|
    ensures var es := Entries(heading, pages);
            && es[i].pageText == pages[i]
            && Located(es[i], CanonicalText(heading, pages))
            && es[i].endByte <= |CanonicalText(heading, pages)|
            && (i > 0 ==> es[i - 1].endByte <= es[i].startByte)
    decreases |pages|
  {
    hide Encode, Newlines, PageHeader;
    var front, last := pages[..|pages| - 1], pages[|pages| - 1];
    var before := CanonicalText(heading, front);
    var es := Entries(heading, front);
    assert CanonicalText(heading, pages) == before + Section(last);
    assert Entries(heading, pages) == es + [EntryAfter(before, last)];
    if i < |front| {
      EntriesAreLocated(heading, front, i);
      LocatedInLonger(es[i], before, Section(last));
    } else {
      EntryIsLocated(before, last);
      if i > 0 { EntriesAreLocated(heading, front, i - 1); }
    }
  }

  /** Whatever pages the extraction hands over, what the processor writes for them
      passes the publication check. */
  lemma ProducedManifestIsValid(displayName: Text, pages: seq<PageText>)
    requires WellFormedPages(pages)
    ensures Valid(Manifest("knowledge.derived_manifest.v1", |pages|, Entries(Heading(displayName), pages)),
                  CanonicalText(Heading(displayName), pages))
  {
    hide Encode, Newlines, Section, Entries, Decode, SpansOk, HeaderOk, Located, Heading;
    var canonical := CanonicalText(Heading(displayName), pages);
    var m := Manifest("knowledge.derived_manifest.v1", |pages|, Entries(Heading(displayName), pages));
    HeadingDecodes(displayName);
    CanonicalDecodes(Heading(displayName), pages);
    var t: Text :| Encode(t) == canonical;
    DecodeEncode(t);
    forall i | 0 <= i < |m.pages| ensures PageOk(m, i, canonical) {
      EntriesAreLocated(Heading(displayName), pages, i);
    }
  }
}
