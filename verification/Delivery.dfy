/** Stored material results delivered in bounded pages. A page is cut by binary
    search, its continuation is a printed cursor, and the pages that follow each other
    must rebuild the whole result. */
module Delivery {
  import opened Utf8
  import opened Wrappers
  import opened Hashing
  import opened Decimal
  import opened Evidence

  const PAGE_BUDGET := 48 * 1024
  const COLON: Scalar := 58

  datatype Kind = ReadResult | SearchResult

  datatype Snapshot = Snapshot(kind: Kind, values: seq<Item>, pageRanges: map<string, seq<PageRange>>, digest: Digest)

  datatype Continuation = NextPage(cursor: Text) | NextRead(inputRef: string, offset: int, limit: int)

  /** The variable parts of a page's message. */
  datatype Message =
    | NoContent
    | Showing(index: nat, count: nat, lines: Option<(int, int)>, totalLines: int, start: nat, end: nat, length: nat)
    | ShowingMany(first: nat, last: nat, count: nat)

  datatype Page = Page(kind: Kind, message: Message, digest: Option<Digest>, resultRef: string,
                       continuation: Option<Continuation>, items: seq<Item>)

  /** Bytes of a page's JSON, an arbitrary function of the page. */
  const JsonSize: Page -> nat

  predicate Fits(p: Page) {
    JsonSize(p) <= PAGE_BUDGET
  }

  datatype Result = Ready(page: Page) | CursorInvalid | OverBudget

  // ---------------------------------------------------------------- cursors

  function PrintCursor(index: nat, offset: nat): Text {
    Print(index) + [COLON] + Print(offset)
  }

  /** One to ten digits, a colon, one to twelve digits. */
  function ParseCursor(t: Text): Option<(nat, nat)> {
    var k := DigitsBefore(t);
    if 1 <= k <= 10 && k < |t| && t[k] == COLON && 1 <= |t| - k - 1 <= 12 && AllDigits(t[k + 1..])
    then Some((Value(t[..k]), Value(t[k + 1..])))
    else None
  }

  const INDEX_LIMIT: nat := 1_00000_00000
  const OFFSET_LIMIT: nat := 1_00000_00000_00

  lemma Limits()
    ensures PowerOfTen(10) == INDEX_LIMIT && PowerOfTen(12) == OFFSET_LIMIT
  {
    assert PowerOfTen(3) == 1000;
    assert PowerOfTen(6) == 1000 * PowerOfTen(3);
    assert PowerOfTen(9) == 1000 * PowerOfTen(6);
    assert PowerOfTen(12) == 1000 * PowerOfTen(9);
  }

  /** A printed cursor is read back exactly when both numbers fit the cursor format;
      otherwise the next call refuses it. */
  lemma CursorRoundTrip(index: nat, offset: nat)
    ensures ParseCursor(PrintCursor(index, offset))
            == if index < INDEX_LIMIT && offset < OFFSET_LIMIT then Some((index, offset)) else None
  {
    hide Print, Value, PowerOfTen, DigitsBefore;
    var t := PrintCursor(index, offset);
    DigitsBeforeRest(Print(index), [COLON] + Print(offset));
    assert t == Print(index) + ([COLON] + Print(offset));
    assert t[..|Print(index)|] == Print(index);
    assert t[|Print(index)| + 1..] == Print(offset);
    ValuePrint(index);
    ValuePrint(offset);
    DigitsNeeded(index, 10);
    DigitsNeeded(offset, 12);
    Limits();
  }

  // ---------------------------------------------------------------- one page

  function EndsWithNewline(t: Text): int {
    if t != [] && t[|t| - 1] == NEWLINE then 1 else 0
  }

  function Ranges(s: Snapshot, item: Item): seq<PageRange> {
    if item.binding.representationId in s.pageRanges then s.pageRanges[item.binding.representationId] else []
  }

  /** The locator of `text`, which follows `prefix` in an item located at `l`. */
  function Moved(l: Locator, ranges: seq<PageRange>, offset: nat, prefix: Text, text: Text): Locator {
    var startByte, startLine := l.startByte + offset, l.startLine + TextNewlines(prefix);
    var endByte := startByte + |Encode(text)|;
    var endLine := startLine + TextNewlines(text) - EndsWithNewline(text);
    var span := PageSpan(ranges, startByte, endByte);
    Locator(startByte, endByte, startLine, endLine,
            if ranges != [] then First(span) else l.pageStart, if ranges != [] then Last(span) else l.pageEnd)
  }

  function NextCursor(s: Snapshot, index: nat, end: nat): Option<(nat, nat)>
    requires index < |s.values|
  {
    if end < |Encode(s.values[index].content)| then Some((index, end))
    else if index + 1 < |s.values| then Some((index + 1, 0))
    else None
  }

  function ContinuationAfter(s: Snapshot, index: nat, end: nat): Option<Continuation>
    requires index < |s.values|
  {
    var w := s.values[index].window;
    match NextCursor(s, index, end)
    case Some(c) => Some(NextPage(PrintCursor(c.0, c.1)))
    case None =>
      if s.kind.ReadResult? && w.nextOffset.Some?
      then Some(NextRead(s.values[index].binding.inputRef, w.nextOffset.value, w.maxLines)) else None
  }

  function PieceWindow(s: Snapshot, index: nat, end: nat, locator: Option<Locator>, text: Text): Window
    requires index < |s.values|
  {
    var w := s.values[index].window;
    var last := NextCursor(s, index, end).None?;
    if s.kind.SearchResult? then w
    else Window(if locator.Some? then locator.value.startLine else w.startLine,
                if locator.Some? then locator.value.endLine else w.endLine,
                w.totalLines, |Encode(text)|, w.maxLines,
                ContinuationAfter(s, index, end).Some?, if last then w.truncatedBy else Some("bytes"), false,
                if last then w.nextOffset else None,
                if locator.Some? then locator.value.pageStart else None,
                if locator.Some? then locator.value.pageEnd else None)
  }

  /** The page holding `text`, found after `prefix` at byte `offset` of value `index`. */
  function Candidate(s: Snapshot, ref: string, index: nat, offset: nat, prefix: Text, text: Text): Page
    requires index < |s.values|
  {
    var original := s.values[index];
    var end := offset + |Encode(text)|;
    var locator := if original.locator.Some? && text != []
                   then Some(Moved(original.locator.value, Ranges(s, original), offset, prefix, text))
                   else original.locator;
    var item := Item(original.binding, text, Sha256(Encode(text)), text != [] && original.citationAllowed,
                     if text != [] then locator else None, PieceWindow(s, index, end, locator, text));
    var lines := if locator.Some? then Some((locator.value.startLine, locator.value.endLine)) else None;
    Page(s.kind, Showing(index, |s.values|, lines, original.window.totalLines, offset, end, |Encode(original.content)|),
         Some(s.digest), ref, ContinuationAfter(s, index, end), [item])
  }

  /** How many characters the binary search keeps between `low` and `high`. */
  function Search(s: Snapshot, ref: string, index: nat, offset: nat, prefix: Text, remaining: Text,
                  low: nat, high: nat): (k: nat)
    requires index < |s.values| && low <= high <= |remaining|
    ensures low <= k <= high
    decreases high - low
  {
    if low == high then low
    else
      var middle := (low + high + 1) / 2;
      if Fits(Candidate(s, ref, index, offset, prefix, remaining[..middle]))
      then Search(s, ref, index, offset, prefix, remaining, middle, high)
      else Search(s, ref, index, offset, prefix, remaining, low, middle - 1)
  }

  function Before(item: Item, offset: nat): Text {
    item.content[..WholeWithin(item.content, offset)]
  }

  function After(item: Item, offset: nat): Text {
    item.content[WholeWithin(item.content, offset)..]
  }

  function Taken(s: Snapshot, ref: string, index: nat, offset: nat): Text
    requires index < |s.values|
  {
    var before, after := Before(s.values[index], offset), After(s.values[index], offset);
    after[..Search(s, ref, index, offset, before, after, 0, |after|)]
  }

  function EmptyPage(s: Snapshot, ref: string): Page {
    Page(s.kind, NoContent, None, ref, None, [])
  }

  predicate ValidPosition(s: Snapshot, index: nat, offset: nat) {
    index < |s.values| && offset <= |Encode(s.values[index].content)|
    && Boundary(Encode(s.values[index].content), offset)
  }

  /** What a call at a position returns. */
  function PageAt(s: Snapshot, ref: string, index: nat, offset: nat): Result {
    if s.values == [] then (if index == 0 && offset == 0 then Ready(EmptyPage(s, ref)) else CursorInvalid)
    else if !ValidPosition(s, index, offset) then CursorInvalid
    else
      var text := Taken(s, ref, index, offset);
      var page := Candidate(s, ref, index, offset, Before(s.values[index], offset), text);
      if (After(s.values[index], offset) != [] && text == []) || !Fits(page) then OverBudget else Ready(page)
  }

  function PageFor(s: Snapshot, ref: string, cursor: Text): Result {
    match ParseCursor(cursor)
    case None => CursorInvalid
    case Some(c) => PageAt(s, ref, c.0, c.1)
  }

  /** `_single_page`: neither slice of the stored bytes it decodes can fail. */
  method SinglePage(s: Snapshot, ref: string, cursor: Text) returns (r: Result)
    ensures r == PageFor(s, ref, cursor)
  {
    hide Encode, Decode, WholeWithin, Candidate, ParseCursor, Fits;
    var parsed := ParseCursor(cursor);
    if parsed.None? { return CursorInvalid; }
    var index, offset := parsed.value.0, parsed.value.1;
    if s.values == [] {
      if index != 0 || offset != 0 { return CursorInvalid; }
      return Ready(EmptyPage(s, ref));
    }
    if index >= |s.values| { return CursorInvalid; }
    var original := s.values[index];
    var raw := Encode(original.content);
    if offset > |raw| || (offset < |raw| && IsContinuation(raw[offset])) { return CursorInvalid; }
    SplitDecodes(original.content, offset);
    var prefix, remaining := Decode(raw[..offset]).text, Decode(raw[offset..]).text;
    var low, high := 0, |remaining|;
    while low < high
      invariant low <= high <= |remaining|
      invariant Search(s, ref, index, offset, prefix, remaining, 0, |remaining|)
                == Search(s, ref, index, offset, prefix, remaining, low, high)
    {
      var middle := (low + high + 1) / 2;
      if Fits(Candidate(s, ref, index, offset, prefix, remaining[..middle])) {
        low := middle;
      } else {
        high := middle - 1;
      }
    }
    if remaining != [] && low == 0 { return OverBudget; }
    var page := Candidate(s, ref, index, offset, prefix, remaining[..low]);
    if !Fits(page) { return OverBudget; }
    r := Ready(page);
  }

  lemma SplitDecodes(content: Text, offset: nat)
    requires offset <= |Encode(content)| && Boundary(Encode(content), offset)
    ensures var k := WholeWithin(content, offset);
            && Decode(Encode(content)[..offset]) == Decoded(content[..k])
            && Decode(Encode(content)[offset..]) == Decoded(content[k..])
            && Encode(content[..k]) == Encode(content)[..offset] && Encode(content[k..]) == Encode(content)[offset..]
  {
    hide Encode, Decode, WholeWithin;
    var k := WholeWithin(content, offset);
    BoundaryIsPrefixEnd(content, offset);
    DecodePrefix(content, offset);
    EncodeSplit(content, k);
    DecodeEncode(content[k..]);
  }

  // ---------------------------------------------------------------- what one page is

  /** The search ends at a local maximum: what it keeps fits, one character more does not. */
  lemma {:induction false} SearchIsMaximal(s: Snapshot, ref: string, index: nat, offset: nat,
                                           prefix: Text, remaining: Text, low: nat, high: nat)
    requires index < |s.values| && low <= high <= |remaining|
    requires low == 0 || Fits(Candidate(s, ref, index, offset, prefix, remaining[..low]))
    requires high == |remaining| || !Fits(Candidate(s, ref, index, offset, prefix, remaining[..high + 1]))
    ensures var k := Search(s, ref, index, offset, prefix, remaining, low, high);
            && (k == 0 || Fits(Candidate(s, ref, index, offset, prefix, remaining[..k])))
            && (k == |remaining| || !Fits(Candidate(s, ref, index, offset, prefix, remaining[..k + 1])))
    decreases high - low
  {
    hide Candidate, Fits;
    if low < high {
      var middle := (low + high + 1) / 2;
      if Fits(Candidate(s, ref, index, offset, prefix, remaining[..middle])) {
        SearchIsMaximal(s, ref, index, offset, prefix, remaining, middle, high);
      } else {
        SearchIsMaximal(s, ref, index, offset, prefix, remaining, low, middle - 1);
      }
    }
  }

  /** A returned page fits the budget, holds the text right after its cursor, and
      could not have held one more character. It is refused exactly when no first
      character fits, or when an empty value's own fields do not. */
  lemma PageIsMaximal(s: Snapshot, ref: string, index: nat, offset: nat)
    requires ValidPosition(s, index, offset)
    ensures var before, after := Before(s.values[index], offset), After(s.values[index], offset);
            var text, r := Taken(s, ref, index, offset), PageAt(s, ref, index, offset);
            && text <= after
            && (text != after ==> !Fits(Candidate(s, ref, index, offset, before, after[..|text| + 1])))
            && (r.Ready? ==> Fits(r.page) && |r.page.items| == 1 && r.page.items[0].content == text)
            && (r.Ready? && after != [] ==> text != [])
            && (r.OverBudget? <==> if after == [] then !Fits(Candidate(s, ref, index, offset, before, []))
                                   else text == [])
            && !r.CursorInvalid?
  {
    hide Fits, Encode, WholeWithin, Candidate, Search, Boundary;
    var before, after := Before(s.values[index], offset), After(s.values[index], offset);
    SearchIsMaximal(s, ref, index, offset, before, after, 0, |after|);
    CandidateHolds(s, ref, index, offset, before, Taken(s, ref, index, offset));
    assert after == [] ==> Taken(s, ref, index, offset) == [];
  }

  lemma CandidateHolds(s: Snapshot, ref: string, index: nat, offset: nat, prefix: Text, text: Text)
    requires index < |s.values|
    ensures var page := Candidate(s, ref, index, offset, prefix, text);
            |page.items| == 1 && page.items[0].content == text
  {
    hide Encode, Moved, PieceWindow, ContinuationAfter;
  }

  /** Located evidence stays located when it is cut: the piece's range selects the
      piece, its first line counts the newlines before it, its last line is the line
      of its last byte. */
  lemma PieceCites(s: Snapshot, ref: string, index: nat, offset: nat, canonical: Bytes)
    requires ValidPosition(s, index, offset) && PageAt(s, ref, index, offset).Ready?
    requires Cites(s.values[index], canonical)
    ensures var piece := PageAt(s, ref, index, offset).page.items[0];
            && Cites(piece, canonical)
            && (piece.locator.Some? <==> piece.content != [] && s.values[index].locator.Some?)
            && (CitesLine(s.values[index], canonical) ==>
                  CitesLine(piece, canonical)
                  && (piece.locator.Some? ==>
                        var l := piece.locator.value;
                        l.endByte > 0 && l.endLine == 1 + Newlines(canonical[..l.endByte - 1])))
  {
    hide Encode, Newlines, TextNewlines, Fits, WholeWithin, Search, PageSpan;
    var original := s.values[index];
    var before, text := Before(original, offset), Taken(s, ref, index, offset);
    var page := PageAt(s, ref, index, offset).page;
    assert page == Candidate(s, ref, index, offset, before, text);
    if text != [] && original.locator.Some? {
      var l, end := original.locator.value, offset + |Encode(text)|;
      TakenIsSlice(s, ref, index, offset);
      var raw := Encode(original.content);
      SliceOfSlice(canonical, l.startByte, l.endByte, offset, end);
      SliceOfSlice(canonical, l.startByte, l.endByte, 0, offset);
      if CitesLine(original, canonical) {
        assert raw[0..offset] == raw[..offset];
        LineOfPiece(canonical, l.startByte, l.startByte + offset, l.startByte + end, before, text);
      }
    }
  }

  /** The fields a read result repeats beside its locator agree with what the page holds,
      a piece is marked truncated exactly when the page has a continuation, and the offset
      for the next read appears only on the last piece. */
  lemma PieceFields(s: Snapshot, ref: string, index: nat, offset: nat)
    requires s.kind.ReadResult? && ValidPosition(s, index, offset) && PageAt(s, ref, index, offset).Ready?
    ensures var page := PageAt(s, ref, index, offset).page;
            var piece := page.items[0];
            && piece.window.outputBytes == |Encode(piece.content)|
            && (piece.locator.Some? ==>
                  && piece.window.startLine == piece.locator.value.startLine
                  && piece.window.endLine == piece.locator.value.endLine
                  && piece.window.pageStart == piece.locator.value.pageStart
                  && piece.window.pageEnd == piece.locator.value.pageEnd)
            && (piece.window.truncated <==> page.continuation.Some?)
            && (page.continuation.Some? && page.continuation.value.NextRead? ==>
                  piece.window.nextOffset == Some(page.continuation.value.offset) == s.values[index].window.nextOffset)
            && (page.continuation.Some? && page.continuation.value.NextPage? ==> piece.window.nextOffset.None?)
  {
    hide Encode, Taken, Fits, Search, Before, Moved, TextNewlines;
  }

  /** Where the pages of a piece come from: from the byte ranges of its representation, or
      from the value when none are known. */
  predicate PagesOf(s: Snapshot, original: Item, l: Locator) {
    var ranges := Ranges(s, original);
    if ranges == [] then
      && original.locator.Some?
      && l.pageStart == original.locator.value.pageStart && l.pageEnd == original.locator.value.pageEnd
    else
      var span := PageSpan(ranges, l.startByte, l.endByte);
      l.pageStart == First(span) && l.pageEnd == Last(span)
  }

  /** What a page says of the piece it holds: whose it is, whether it may be cited, which bytes
      of which value it shows, on which pages and lines they are, and where to go on: to the rest
      of the result, or after its end to the next read if there is one. */
  lemma PageDescribesPiece(s: Snapshot, ref: string, index: nat, offset: nat)
    requires ValidPosition(s, index, offset) && PageAt(s, ref, index, offset).Ready?
    ensures var page, original := PageAt(s, ref, index, offset).page, s.values[index];
            && |page.items| == 1
            && var piece := page.items[0]; var end := offset + |Encode(piece.content)|;
            && page.kind == s.kind && page.digest == Some(s.digest) && page.resultRef == ref
            && piece.binding == original.binding
            && (piece.citationAllowed <==> original.citationAllowed && piece.content != [])
            && (piece.locator.Some? <==> original.locator.Some? && piece.content != [])
            && (piece.locator.Some? ==> PagesOf(s, original, piece.locator.value))
            && page.message.Showing? && page.message.index == index && page.message.count == |s.values|
            && page.message.start == offset && page.message.end == end
            && page.message.length == |Encode(original.content)|
            && (piece.locator.Some? ==>
                  page.message.lines == Some((piece.locator.value.startLine, piece.locator.value.endLine)))
            && (end == |Encode(original.content)| && index == |s.values| - 1 ==>
                  page.continuation == if s.kind.ReadResult? && original.window.nextOffset.Some?
                                       then Some(NextRead(original.binding.inputRef, original.window.nextOffset.value,
                                                          original.window.maxLines)) else None)
            && (s.kind.ReadResult? ==>
                  && piece.window.maxLines == original.window.maxLines
                  && piece.window.totalLines == original.window.totalLines && !piece.window.firstLineExceedsLimit
                  && piece.window.truncatedBy == if page.continuation.Some? && page.continuation.value.NextPage?
                                                 then Some("bytes") else original.window.truncatedBy)
            && (s.kind.SearchResult? ==> piece.window == original.window)
  {
    hide Encode, Taken, Fits, Search, Before, After, TextNewlines, PageSpan, Boundary;
  }

  /** A result without values has one page, with nothing on it and nothing after it. */
  lemma EmptyResult(s: Snapshot, ref: string, index: nat, offset: nat)
    requires s.values == []
    ensures PageAt(s, ref, index, offset).Ready? <==> index == 0 && offset == 0
    ensures PageAt(s, ref, 0, 0).page.items == [] && PageAt(s, ref, 0, 0).page.continuation.None?
    ensures PageAt(s, ref, 0, 0).page.resultRef == ref && PageAt(s, ref, 0, 0).page.kind == s.kind
  {
  }

  lemma TakenIsSlice(s: Snapshot, ref: string, index: nat, offset: nat)
    requires ValidPosition(s, index, offset)
    ensures var raw, text := Encode(s.values[index].content), Taken(s, ref, index, offset);
            && offset + |Encode(text)| <= |raw|
            && Encode(text) == raw[offset..offset + |Encode(text)|]
            && Encode(Before(s.values[index], offset)) == raw[..offset]
            && (offset + |Encode(text)| == |raw| <==> text == After(s.values[index], offset))
            && Boundary(raw, offset + |Encode(text)|)
            && Before(s.values[index], offset + |Encode(text)|) == Before(s.values[index], offset) + text
            && After(s.values[index], offset) == text + After(s.values[index], offset + |Encode(text)|)
  {
    hide Encode, Search, WholeWithin, Decode;
    var content := s.values[index].content;
    var raw, text := Encode(content), Taken(s, ref, index, offset);
    var j := WholeWithin(content, offset);
    SplitDecodes(content, offset);
    var after := content[j..];
    EncodeSplit(after, |text|);
    assert after[..|text|] == text;
    var k := j + |text|;
    EncodeSplit(content, k);
    EncodeSplit(content[..k], j);
    assert content[..k][..j] == content[..j] && content[..k][j..] == text;
    PrefixPosition(content, k);
    assert content[k..] == after[|text|..];
    EncodeLength(content[k..]);
    assert content[..k] == content[..j] + text;
  }

  lemma LineOfPiece(canonical: Bytes, a: nat, b: nat, c: nat, before: Text, text: Text)
    requires a <= b <= c <= |canonical| && text != []
    requires canonical[a..b] == Encode(before) && canonical[b..c] == Encode(text)
    ensures b < c
    ensures Newlines(canonical[..b]) == Newlines(canonical[..a]) + TextNewlines(before)
    ensures Newlines(canonical[..c - 1]) == Newlines(canonical[..b]) + TextNewlines(text) - EndsWithNewline(text)
  {
    hide Encode, Newlines, TextNewlines;
    NewlinesBetween(canonical, a, b);
    NewlinesBetween(canonical, b, c);
    NewlinesOfText(before);
    NewlinesOfText(text);
    EncodeLength(text);
    NewlinesBetween(canonical, c - 1, c);
    LastByte(text);
    assert canonical[c - 1] == canonical[b..c][c - b - 1];
    OneByte(canonical[c - 1..c]);
  }

  lemma OneByte(s: Bytes)
    requires |s| == 1
    ensures Newlines(s) == if s[0] == NEWLINE then 1 else 0
  {
    assert s[1..] == [];
  }

  lemma LastByte(t: Text)
    requires t != []
    ensures |Encode(t)| > 0
    ensures Encode(t)[|Encode(t)| - 1] == NEWLINE <==> t[|t| - 1] == NEWLINE
  {
    hide Encode, EncodeScalar;
    var k := |t| - 1;
    EncodeSplit(t, k);
    assert t[k..] == [t[k]];
    var e := Encode([t[k]]);
    LastOfScalar(t[k]);
    assert Encode(t)[|Encode(t)| - 1] == e[|e| - 1];
  }

  lemma LastOfScalar(c: Scalar)
    ensures var e := Encode([c]); |e| > 0 && (e[|e| - 1] == NEWLINE <==> c == NEWLINE)
  {
    assert [c][1..] == [] && Encode([c]) == EncodeScalar(c) + Encode([]);
  }

  // ---------------------------------------------------------------- following the pages

  /** The pieces collected by following `read_material_result` continuations, each with
      the index of its value, and how the walk ended. */
  datatype Chain = Chain(pieces: seq<(nat, Item)>, end: Ending)

  datatype Ending = Finished | CursorRefused | PageRefused

  function EndOf(r: Result): Ending {
    match r
    case Ready(_) => Finished
    case CursorInvalid => CursorRefused
    case OverBudget => PageRefused
  }

  lemma NextIsLater(s: Snapshot, ref: string, index: nat, offset: nat)
    requires s.values != [] && PageAt(s, ref, index, offset).Ready?
    ensures ValidPosition(s, index, offset) && |PageAt(s, ref, index, offset).page.items| == 1
    ensures var end := offset + |Encode(Taken(s, ref, index, offset))|;
            && PageAt(s, ref, index, offset).page.continuation == ContinuationAfter(s, index, end)
            && offset <= end <= |Encode(s.values[index].content)|
            && (end < |Encode(s.values[index].content)| ==> offset < end)
  {
    hide Encode, Search, WholeWithin, Fits;
    PageIsMaximal(s, ref, index, offset);
    TakenIsSlice(s, ref, index, offset);
    EncodeLength(Taken(s, ref, index, offset));
  }

  function ItemsLeft(s: Snapshot, index: nat): nat {
    if index < |s.values| then |s.values| - index else 0
  }

  function BytesLeft(s: Snapshot, index: nat, offset: nat): nat {
    if ValidPosition(s, index, offset) then |Encode(s.values[index].content)| - offset else 0
  }

  /** The cursor a page asks its reader to call with next. */
  function NextCall(r: Result): Option<Text> {
    if r.Ready? && r.page.continuation.Some? && r.page.continuation.value.NextPage?
    then Some(r.page.continuation.value.cursor) else None
  }

  /** Items left, then bytes left, decrease along the printed cursors. */
  lemma CallMovesOn(s: Snapshot, ref: string, index: nat, offset: nat)
    requires s.values != [] && PageAt(s, ref, index, offset).Ready?
    ensures |PageAt(s, ref, index, offset).page.items| == 1
    ensures var next := NextCursor(s, index, offset + |Encode(Taken(s, ref, index, offset))|);
            match NextCall(PageAt(s, ref, index, offset))
            case None => next.None?
            case Some(cursor) =>
              && next.Some? && ValidPosition(s, next.value.0, next.value.1)
              && (ParseCursor(cursor).Some? <==> next.value.0 < INDEX_LIMIT && next.value.1 < OFFSET_LIMIT)
              && (ParseCursor(cursor).Some? ==> ParseCursor(cursor) == next)
              && (ItemsLeft(s, next.value.0) < ItemsLeft(s, index)
                  || (next.value.0 == index && BytesLeft(s, index, next.value.1) < BytesLeft(s, index, offset)))
  {
    hide Encode, Search, WholeWithin, Fits, ParseCursor, PrintCursor, Taken, PageAt;
    NextIsLater(s, ref, index, offset);
    var end := offset + |Encode(Taken(s, ref, index, offset))|;
    TakenIsSlice(s, ref, index, offset);
    match NextCursor(s, index, end) {
      case None =>
      case Some(next) =>
        CursorRoundTrip(next.0, next.1);
        StartIsBoundary(s.values[next.0].content);
    }
  }

  lemma StartIsBoundary(t: Text)
    ensures Boundary(Encode(t), 0)
  {
  }

  /** Follow the printed cursors, parsing each one as the next call does. */
  function Follow(s: Snapshot, ref: string, index: nat, offset: nat): Chain
    decreases ItemsLeft(s, index), BytesLeft(s, index, offset)
  {
    var r := PageAt(s, ref, index, offset);
    if !r.Ready? || s.values == [] then Chain([], EndOf(r))
    else
      CallMovesOn(s, ref, index, offset);
      var piece := (index, r.page.items[0]);
      match NextCall(r)
      case None => Chain([piece], Finished)
      case Some(cursor) =>
        (match ParseCursor(cursor)
         case None => Chain([piece], CursorRefused)
         case Some(c) => var rest := Follow(s, ref, c.0, c.1); Chain([piece] + rest.pieces, rest.end))
  }

  /** The joined content of the pieces cut from value `k`. */
  function TextOf(pieces: seq<(nat, Item)>, k: nat): Text {
    if pieces == [] then []
    else (if pieces[0].0 == k then pieces[0].1.content else []) + TextOf(pieces[1..], k)
  }

  /** What is left of value `k` from a position on. */
  function Left(s: Snapshot, index: nat, offset: nat, k: nat): Text
    requires index < |s.values| && k < |s.values|
  {
    if k < index then [] else if k == index then After(s.values[k], offset) else s.values[k].content
  }

  /** A page takes its text off what is left; its continuation stands for the rest. */
  lemma LeftStep(s: Snapshot, ref: string, index: nat, offset: nat, k: nat)
    requires s.values != [] && PageAt(s, ref, index, offset).Ready? && k < |s.values|
    ensures ValidPosition(s, index, offset) && |PageAt(s, ref, index, offset).page.items| == 1
    ensures var end := offset + |Encode(Taken(s, ref, index, offset))|;
            var own := if k == index then PageAt(s, ref, index, offset).page.items[0].content else [];
            match NextCursor(s, index, end)
            case None => Left(s, index, offset, k) == own
            case Some(c) =>
              && c.0 < |s.values| && ValidPosition(s, c.0, c.1)
              && Left(s, index, offset, k) == own + Left(s, c.0, c.1, k)
  {
    hide Encode, WholeWithin, Taken, PageAt, Before, After, Boundary, Candidate, Fits, ContinuationAfter;
    NextIsLater(s, ref, index, offset);
    TakenIsSlice(s, ref, index, offset);
    PageIsMaximal(s, ref, index, offset);
    var end := offset + |Encode(Taken(s, ref, index, offset))|;
    match NextCursor(s, index, end) {
      case None =>
      case Some(c) =>
        WholeAfterStart(s.values[c.0]);
        StartIsBoundary(s.values[c.0].content);
    }
  }

  lemma TextOfFirst(piece: (nat, Item), rest: seq<(nat, Item)>, k: nat)
    ensures TextOf([piece] + rest, k) == (if piece.0 == k then piece.1.content else []) + TextOf(rest, k)
  {
    assert ([piece] + rest)[1..] == rest;
  }

  lemma TextOfNothing(k: nat)
    ensures TextOf([], k) == []
  {
  }

  /** Whatever pages come, what has been delivered of each value is the front of what was
      left of it; a walk that does not end in a failure has delivered all of it. */
  lemma {:induction false} EachValueRebuilds(s: Snapshot, ref: string, index: nat, offset: nat, k: nat)
    requires ValidPosition(s, index, offset) && k < |s.values|
    ensures var chain := Follow(s, ref, index, offset);
            && (chain.end.Finished? ==> TextOf(chain.pieces, k) == Left(s, index, offset, k))
            && TextOf(chain.pieces, k) <= Left(s, index, offset, k)
    decreases ItemsLeft(s, index), BytesLeft(s, index, offset)
  {
    hide Encode, Taken, PageAt, Follow, TextOf, Left, ValidPosition, NextCursor, ItemsLeft, BytesLeft, ParseCursor,
         NextCall;
    ValidIndex(s, index, offset);
    TextOfNothing(k);
    var r := PageAt(s, ref, index, offset);
    if r.Ready? {
      var end := offset + |Encode(Taken(s, ref, index, offset))|;
      LeftStep(s, ref, index, offset, k);
      FollowStep(s, ref, index, offset);
      CallMovesOn(s, ref, index, offset);
      TextOfFirst((index, r.page.items[0]), Rest(s, ref, index, end).pieces, k);
      var next := NextCursor(s, index, end);
      if next.Some? && next.value.0 < INDEX_LIMIT && next.value.1 < OFFSET_LIMIT {
        EachValueRebuilds(s, ref, next.value.0, next.value.1, k);
      }
    } else {
      FollowRefused(s, ref, index, offset);
      PageIsMaximal(s, ref, index, offset);
    }
  }

  function Joined(pieces: seq<(nat, Item)>): Text {
    if pieces == [] then [] else pieces[0].1.content + Joined(pieces[1..])
  }

  /** The contents of the values from `k` on, one after another. */
  function From(s: Snapshot, k: nat): Text
    decreases |s.values| - k
  {
    if k < |s.values| then s.values[k].content + From(s, k + 1) else []
  }

  /** All that is left from a position on. */
  function AllLeft(s: Snapshot, index: nat, offset: nat): Text
    requires index < |s.values|
  {
    After(s.values[index], offset) + From(s, index + 1)
  }

  /** The pieces come value by value, none before value `first`. */
  predicate InOrder(pieces: seq<(nat, Item)>, first: nat) {
    && (forall i :: 0 <= i < |pieces| ==> first <= pieces[i].0)
    && (forall i, j :: 0 <= i < j < |pieces| ==> pieces[i].0 <= pieces[j].0)
  }

  lemma AllLeftStep(s: Snapshot, ref: string, index: nat, offset: nat)
    requires s.values != [] && PageAt(s, ref, index, offset).Ready?
    ensures ValidPosition(s, index, offset) && |PageAt(s, ref, index, offset).page.items| == 1
    ensures var end := offset + |Encode(Taken(s, ref, index, offset))|;
            var own := PageAt(s, ref, index, offset).page.items[0].content;
            match NextCursor(s, index, end)
            case None => AllLeft(s, index, offset) == own
            case Some(c) =>
              && index <= c.0 < |s.values| && ValidPosition(s, c.0, c.1)
              && AllLeft(s, index, offset) == own + AllLeft(s, c.0, c.1)
  {
    hide Encode, Taken, PageAt, After;
    NextIsLater(s, ref, index, offset);
    LeftStep(s, ref, index, offset, index);
    var end := offset + |Encode(Taken(s, ref, index, offset))|;
    match NextCursor(s, index, end) {
      case None =>
      case Some(c) => WholeAfterStart(s.values[c.0]);
    }
  }

  lemma JoinedFirst(piece: (nat, Item), rest: seq<(nat, Item)>)
    ensures Joined([piece] + rest) == piece.1.content + Joined(rest)
  {
    assert ([piece] + rest)[1..] == rest;
  }

  lemma InOrderFirst(piece: (nat, Item), rest: seq<(nat, Item)>, next: nat)
    requires InOrder(rest, next) && piece.0 <= next
    ensures InOrder([piece] + rest, piece.0)
  {
  }

  lemma NothingJoined(first: nat)
    ensures Joined([]) == [] && InOrder([], first)
  {
  }

  /** Whatever pages come, what has been delivered, joined in the order of delivery, is the
      front of what was left: the current value from `offset`, then the following values in
      order. A walk that does not end in a failure has delivered all of it. */
  lemma {:induction false} FollowingRebuilds(s: Snapshot, ref: string, index: nat, offset: nat)
    requires ValidPosition(s, index, offset)
    ensures index < |s.values|
    ensures var chain := Follow(s, ref, index, offset);
            && InOrder(chain.pieces, index)
            && Joined(chain.pieces) <= AllLeft(s, index, offset)
            && (chain.end.Finished? ==> Joined(chain.pieces) == AllLeft(s, index, offset))
    decreases ItemsLeft(s, index), BytesLeft(s, index, offset)
  {
    hide Encode, Taken, PageAt, Follow, Joined, AllLeft, InOrder, ValidPosition, NextCursor, ItemsLeft, BytesLeft,
         ParseCursor, NextCall;
    ValidIndex(s, index, offset);
    NothingJoined(index);
    var r := PageAt(s, ref, index, offset);
    if r.Ready? {
      var end := offset + |Encode(Taken(s, ref, index, offset))|;
      AllLeftStep(s, ref, index, offset);
      FollowStep(s, ref, index, offset);
      CallMovesOn(s, ref, index, offset);
      var piece, rest := (index, r.page.items[0]), Rest(s, ref, index, end).pieces;
      JoinedFirst(piece, rest);
      var next := NextCursor(s, index, end);
      if next.Some? && next.value.0 < INDEX_LIMIT && next.value.1 < OFFSET_LIMIT {
        FollowingRebuilds(s, ref, next.value.0, next.value.1);
        InOrderFirst(piece, rest, next.value.0);
      } else {
        InOrderFirst(piece, rest, index);
      }
    } else {
      FollowRefused(s, ref, index, offset);
      PageIsMaximal(s, ref, index, offset);
    }
  }

  lemma ValidIndex(s: Snapshot, index: nat, offset: nat)
    requires ValidPosition(s, index, offset)
    ensures index < |s.values|
  {
  }

  lemma WholeAfterStart(item: Item)
    ensures After(item, 0) == item.content
  {
    assert WholeWithin(item.content, 0) == 0;
  }

  /** Within the cursor format's limits a walk fails only on a page that cannot fit. */
  lemma {:induction false} OnlyBudgetStops(s: Snapshot, ref: string, index: nat, offset: nat)
    requires ValidPosition(s, index, offset)
    requires |s.values| <= INDEX_LIMIT
    requires forall k :: 0 <= k < |s.values| ==> |Encode(s.values[k].content)| <= OFFSET_LIMIT
    ensures !Follow(s, ref, index, offset).end.CursorRefused?
    decreases ItemsLeft(s, index), BytesLeft(s, index, offset)
  {
    hide Encode, WholeWithin, Taken, PageAt, ParseCursor, Before, After;
    PageIsMaximal(s, ref, index, offset);
    var r := PageAt(s, ref, index, offset);
    if r.Ready? {
      CallMovesOn(s, ref, index, offset);
      if NextCall(r).Some? && ParseCursor(NextCall(r).value).Some? {
        var c := ParseCursor(NextCall(r).value).value;
        OnlyBudgetStops(s, ref, c.0, c.1);
      }
    }
  }

  /** Every piece of a walk cites the text its value was taken from. */
  lemma {:induction false} FollowedPiecesCite(s: Snapshot, ref: string, index: nat, offset: nat, texts: seq<Bytes>)
    requires |texts| == |s.values| && forall k :: 0 <= k < |texts| ==> Cites(s.values[k], texts[k])
    ensures forall p :: p in Follow(s, ref, index, offset).pieces ==> p.0 < |texts| && Cites(p.1, texts[p.0])
    decreases ItemsLeft(s, index), BytesLeft(s, index, offset)
  {
    hide Encode, Taken, PageAt, ParseCursor, Cites, Follow, NextCursor, ItemsLeft, BytesLeft, ValidPosition, NextCall;
    if s.values == [] || !PageAt(s, ref, index, offset).Ready? {
      FollowNothing(s, ref, index, offset);
    } else {
      NextIsLater(s, ref, index, offset);
      ValidIndex(s, index, offset);
      var end := offset + |Encode(Taken(s, ref, index, offset))|;
      PieceCites(s, ref, index, offset, texts[index]);
      FollowStep(s, ref, index, offset);
      CallMovesOn(s, ref, index, offset);
      var next := NextCursor(s, index, end);
      if next.Some? && next.value.0 < INDEX_LIMIT && next.value.1 < OFFSET_LIMIT {
        FollowedPiecesCite(s, ref, next.value.0, next.value.1, texts);
      }
    }
  }

  // ---------------------------------------------------------------- merging hits into one page

  /** A page under construction, and the value and byte offset it reaches. */
  datatype Merging = Merging(result: Result, index: nat, end: nat)

  predicate Reaches(s: Snapshot, page: Page, index: nat, end: nat) {
    && index < |s.values| && end <= |Encode(s.values[index].content)|
    && (end == 0 ==> Encode(s.values[index].content) == [])
    && page.continuation == ContinuationAfter(s, index, end)
  }

  lemma PageReaches(s: Snapshot, ref: string, index: nat, offset: nat)
    requires s.values != [] && PageAt(s, ref, index, offset).Ready?
    ensures Reaches(s, PageAt(s, ref, index, offset).page, index, offset + |Encode(Taken(s, ref, index, offset))|)
  {
    hide Encode, Taken, PageAt;
    NextIsLater(s, ref, index, offset);
  }

  function WithHits(s: Snapshot, first: nat, page: Page, index: nat, following: Page): Page {
    page.(items := page.items + following.items, continuation := following.continuation,
          message := ShowingMany(first, index, |s.values|))
  }

  lemma FollowingReaches(s: Snapshot, ref: string, first: nat, page: Page, index: nat, end: nat)
    requires Reaches(s, page, index, end)
    requires NextCursor(s, index, end).Some? && NextCursor(s, index, end).value.1 == 0
    ensures index + 1 < |s.values| && NextCursor(s, index, end) == Some((index + 1, 0))
    ensures var following := PageFor(s, ref, PrintCursor(index + 1, 0));
            following.Ready? ==>
              && following == PageAt(s, ref, index + 1, 0) && |following.page.items| == 1
              && Reaches(s, WithHits(s, first, page, index + 1, following.page), index + 1,
                         |Encode(Taken(s, ref, index + 1, 0))|)
  {
    hide Encode, Taken, PageAt, ParseCursor, PrintCursor;
    CursorRoundTrip(index + 1, 0);
    if PageFor(s, ref, PrintCursor(index + 1, 0)).Ready? {
      PageReaches(s, ref, index + 1, 0);
      NextIsLater(s, ref, index + 1, 0);
    }
  }

  /** Append whole following hits while the merged page still fits. */
  function Merged(s: Snapshot, ref: string, first: nat, page: Page, index: nat, end: nat): (m: Merging)
    requires index < |s.values|
    decreases |s.values| - index
  {
    if NextCursor(s, index, end) != Some((index + 1, 0)) then Merging(Ready(page), index, end)
    else
      var following := PageFor(s, ref, PrintCursor(index + 1, 0));
      if !following.Ready? then Merging(following, index, end)
      else
        var candidate := WithHits(s, first, page, index + 1, following.page);
        if !Fits(candidate) then Merging(Ready(page), index, end)
        else Merged(s, ref, first, candidate, index + 1, |Encode(Taken(s, ref, index + 1, 0))|)
  }

  lemma {:induction false} MergedReaches(s: Snapshot, ref: string, first: nat, page: Page, index: nat, end: nat)
    requires Reaches(s, page, index, end)
    ensures var m := Merged(s, ref, first, page, index, end);
            && (m.result.Ready? ==> Reaches(s, m.result.page, m.index, m.end))
            && (m.index > index || (m.index == index && m.end == end))
    decreases |s.values| - index
  {
    hide Encode, Taken, PageAt, PageFor, PrintCursor, NextCursor, Fits, WithHits, ContinuationAfter;
    if NextCursor(s, index, end) == Some((index + 1, 0)) {
      FollowingReaches(s, ref, first, page, index, end);
      var following := PageFor(s, ref, PrintCursor(index + 1, 0));
      if following.Ready? {
        var candidate := WithHits(s, first, page, index + 1, following.page);
        if Fits(candidate) {
          MergedReaches(s, ref, first, candidate, index + 1, |Encode(Taken(s, ref, index + 1, 0))|);
        }
      }
    }
  }

  /** The page `render_page` returns at a position. */
  function Rendered(s: Snapshot, ref: string, index: nat, offset: nat): (m: Merging) {
    var r := PageAt(s, ref, index, offset);
    if !r.Ready? || index >= |s.values| then Merging(r, index, 0)
    else
      var end := offset + |Encode(Taken(s, ref, index, offset))|;
      if s.kind.ReadResult? then Merging(r, index, end) else Merged(s, ref, index, r.page, index, end)
  }

  lemma RenderedReaches(s: Snapshot, ref: string, index: nat, offset: nat)
    requires s.values != [] && PageAt(s, ref, index, offset).Ready?
    ensures index < |s.values|
    ensures var m, end := Rendered(s, ref, index, offset), offset + |Encode(Taken(s, ref, index, offset))|;
            && (m.result.Ready? ==> Reaches(s, m.result.page, m.index, m.end))
            && (m.index > index || (m.index == index && m.end == end))
  {
    hide Encode, Taken, PageAt, Merged, ContinuationAfter;
    PageReaches(s, ref, index, offset);
    MergedReaches(s, ref, index, PageAt(s, ref, index, offset).page, index,
                  offset + |Encode(Taken(s, ref, index, offset))|);
  }

  function RenderFor(s: Snapshot, ref: string, cursor: Text): Result {
    match ParseCursor(cursor)
    case None => CursorInvalid
    case Some(c) => Rendered(s, ref, c.0, c.1).result
  }

  /** The two numbers of a cursor, read without its length limits. */
  function SplitCursor(t: Text): (nat, nat) {
    var k := DigitsBefore(t);
    if k < |t| && AllDigits(t[k + 1..]) then (Value(t[..k]), Value(t[k + 1..])) else (0, 0)
  }

  lemma SplitPrinted(index: nat, offset: nat)
    ensures SplitCursor(PrintCursor(index, offset)) == (index, offset)
  {
    hide Print, Value, DigitsBefore;
    var t := PrintCursor(index, offset);
    DigitsBeforeRest(Print(index), [COLON] + Print(offset));
    assert t == Print(index) + ([COLON] + Print(offset));
    assert t[..|Print(index)|] == Print(index);
    assert t[|Print(index)| + 1..] == Print(offset);
    ValuePrint(index);
    ValuePrint(offset);
  }

  lemma CallReaches(s: Snapshot, page: Page, index: nat, end: nat)
    requires Reaches(s, page, index, end)
    ensures match NextCursor(s, index, end)
            case None => NextCall(Ready(page)).None?
            case Some(c) => page.continuation == Some(NextPage(PrintCursor(c.0, c.1)))
  {
  }

  /** `render_page`. An oversized hit refuses the page of the hit before it as well. */
  method RenderPage(s: Snapshot, ref: string, cursor: Text) returns (r: Result)
    ensures r == RenderFor(s, ref, cursor)
  {
    hide Encode, Taken, PageAt, ParseCursor, PrintCursor, NextCursor, Fits, WithHits, SplitCursor, Boundary,
         ContinuationAfter;
    r := SinglePage(s, ref, cursor);
    if !r.Ready? { return; }
    var page := r.page;
    var start := ParseCursor(cursor).value.0;
    PageKind(s, ref, start, ParseCursor(cursor).value.1);
    if page.kind.ReadResult? || page.continuation.None? {
      StopsAtOnce(s, ref, start, ParseCursor(cursor).value.1);
      return;
    }
    ghost var offset := ParseCursor(cursor).value.1;
    PageReaches(s, ref, start, offset);
    ghost var i: nat, e: nat := start, offset + |Encode(Taken(s, ref, start, offset))|;
    ghost var goal := Merged(s, ref, start, page, i, e).result;
    while page.continuation.Some?
      invariant Reaches(s, page, i, e) && i < |s.values| && Merged(s, ref, start, page, i, e).result == goal
      decreases |s.values| - i
    {
      CallReaches(s, page, i, e);
      if !page.continuation.value.NextPage? { break; }
      var nextCursor := page.continuation.value.cursor;
      ghost var c := NextCursor(s, i, e).value;
      SplitPrinted(c.0, c.1);
      var position := SplitCursor(nextCursor);
      if position.1 != 0 { break; }
      FollowingReaches(s, ref, start, page, i, e);
      var following := SinglePage(s, ref, nextCursor);
      if !following.Ready? { return following; }
      var candidate := WithHits(s, start, page, position.0, following.page);
      if !Fits(candidate) { break; }
      i, e := i + 1, |Encode(Taken(s, ref, i + 1, 0))|;
      page := candidate;
    }
    CallReaches(s, page, i, e);
    r := Ready(page);
  }

  lemma PageKind(s: Snapshot, ref: string, index: nat, offset: nat)
    requires PageAt(s, ref, index, offset).Ready?
    ensures PageAt(s, ref, index, offset).page.kind == s.kind
    ensures PageAt(s, ref, index, offset).page.continuation.Some? ==> s.values != []
  {
    hide Encode, Taken, Fits;
  }

  lemma StopsAtOnce(s: Snapshot, ref: string, index: nat, offset: nat)
    requires PageAt(s, ref, index, offset).Ready?
    requires s.kind.ReadResult? || PageAt(s, ref, index, offset).page.continuation.None?
    ensures Rendered(s, ref, index, offset).result == PageAt(s, ref, index, offset)
  {
    hide Encode, Taken, PageAt;
    if s.values != [] { PageReaches(s, ref, index, offset); }
  }

  /** The page cannot take the next hit: it ends inside a hit or at the last one, or the next
      hit has a page that would not fit any more. */
  predicate TakesNoMore(s: Snapshot, ref: string, first: nat, page: Page, index: nat, end: nat)
    requires index < |s.values|
  {
    NextCursor(s, index, end) == Some((index + 1, 0)) ==>
      var following := PageFor(s, ref, PrintCursor(index + 1, 0));
      following.Ready? && !Fits(WithHits(s, first, page, index + 1, following.page))
  }

  lemma {:induction false} MergedTakesNoMore(s: Snapshot, ref: string, first: nat, page: Page, index: nat, end: nat)
    requires Reaches(s, page, index, end)
    ensures var m := Merged(s, ref, first, page, index, end);
            m.result.Ready? ==> m.index < |s.values| && TakesNoMore(s, ref, first, m.result.page, m.index, m.end)
    decreases |s.values| - index
  {
    hide Encode, Taken, PageAt, PageFor, PrintCursor, NextCursor, Fits, WithHits, ContinuationAfter;
    if NextCursor(s, index, end) == Some((index + 1, 0)) {
      FollowingReaches(s, ref, first, page, index, end);
      var following := PageFor(s, ref, PrintCursor(index + 1, 0));
      if following.Ready? {
        var candidate := WithHits(s, first, page, index + 1, following.page);
        if Fits(candidate) {
          MergedTakesNoMore(s, ref, first, candidate, index + 1, |Encode(Taken(s, ref, index + 1, 0))|);
        }
      }
    }
  }

  /** `render_page` goes on as long as the next hit fits: a page of search hits it returns can
      take no more. */
  lemma RenderedTakesNoMore(s: Snapshot, ref: string, index: nat, offset: nat)
    requires s.values != [] && !s.kind.ReadResult?
    ensures var m := Rendered(s, ref, index, offset);
            m.result.Ready? ==> m.index < |s.values| && TakesNoMore(s, ref, index, m.result.page, m.index, m.end)
  {
    hide Encode, Taken, PageAt, Merged, ContinuationAfter, TakesNoMore;
    if PageAt(s, ref, index, offset).Ready? {
      PageReaches(s, ref, index, offset);
      MergedTakesNoMore(s, ref, index, PageAt(s, ref, index, offset).page, index,
                        offset + |Encode(Taken(s, ref, index, offset))|);
    }
  }

  /** A merged page fits the budget as well. */
  lemma {:induction false} MergedFits(s: Snapshot, ref: string, first: nat, page: Page, index: nat, end: nat)
    requires Reaches(s, page, index, end) && Fits(page)
    ensures var m := Merged(s, ref, first, page, index, end); m.result.Ready? ==> Fits(m.result.page)
    decreases |s.values| - index
  {
    hide Encode, Taken, PageAt, PageFor, PrintCursor, NextCursor, Fits, WithHits, ContinuationAfter;
    var next := NextCursor(s, index, end);
    if next.Some? && next.value.1 == 0 {
      FollowingReaches(s, ref, first, page, index, end);
      var following := PageFor(s, ref, PrintCursor(index + 1, 0));
      if following.Ready? {
        var candidate := WithHits(s, first, page, index + 1, following.page);
        if Fits(candidate) {
          MergedFits(s, ref, first, candidate, index + 1, |Encode(Taken(s, ref, index + 1, 0))|);
        }
      }
    }
  }

  /** Every page `render_page` returns for a result with content fits the budget. */
  lemma RenderedFits(s: Snapshot, ref: string, index: nat, offset: nat)
    requires s.values != []
    ensures var r := Rendered(s, ref, index, offset).result; r.Ready? ==> Fits(r.page)
  {
    hide Encode, Taken, PageAt, Fits, Merged;
    if PageAt(s, ref, index, offset).Ready? {
      PageReaches(s, ref, index, offset);
      NextIsLater(s, ref, index, offset);
      PageIsMaximal(s, ref, index, offset);
      MergedFits(s, ref, index, PageAt(s, ref, index, offset).page, index,
                 offset + |Encode(Taken(s, ref, index, offset))|);
    }
  }

  // ---------------------------------------------------------------- merging changes nothing

  /** What a reader of `render_page` collects by following its continuations. */
  datatype Collected = Collected(items: seq<Item>, end: Ending)

  lemma RenderedMovesOn(s: Snapshot, ref: string, index: nat, offset: nat)
    requires s.values != [] && PageAt(s, ref, index, offset).Ready? && Rendered(s, ref, index, offset).result.Ready?
    ensures var m := Rendered(s, ref, index, offset);
            && m.index < |s.values|
            && match NextCursor(s, m.index, m.end)
               case None => NextCall(m.result).None?
               case Some(c) =>
                 && NextCall(m.result) == Some(PrintCursor(c.0, c.1))
                 && ParseCursor(PrintCursor(c.0, c.1)) ==
                       (if c.0 < INDEX_LIMIT && c.1 < OFFSET_LIMIT then Some(c) else None)
                 && (ItemsLeft(s, c.0) < ItemsLeft(s, index)
                     || (c.0 == index && BytesLeft(s, index, c.1) < BytesLeft(s, index, offset)))
  {
    hide Encode, Taken, PageAt, PrintCursor, Merged;
    var m := Rendered(s, ref, index, offset);
    RenderedReaches(s, ref, index, offset);
    CallReaches(s, m.result.page, m.index, m.end);
    CallMovesOn(s, ref, index, offset);
    var next := NextCursor(s, m.index, m.end);
    if next.Some? { CursorRoundTrip(next.value.0, next.value.1); }
  }

  function FollowRendered(s: Snapshot, ref: string, index: nat, offset: nat): Collected
    decreases ItemsLeft(s, index), BytesLeft(s, index, offset)
  {
    var m := Rendered(s, ref, index, offset);
    if !m.result.Ready? || s.values == [] || !PageAt(s, ref, index, offset).Ready? then Collected([], EndOf(m.result))
    else
      RenderedMovesOn(s, ref, index, offset);
      match NextCall(m.result)
      case None => Collected(m.result.page.items, Finished)
      case Some(cursor) =>
        (match ParseCursor(cursor)
         case None => Collected(m.result.page.items, CursorRefused)
         case Some(c) =>
           var rest := FollowRendered(s, ref, c.0, c.1);
           Collected(m.result.page.items + rest.items, rest.end))
  }

  function Items(pieces: seq<(nat, Item)>): seq<Item> {
    seq(|pieces|, i requires 0 <= i < |pieces| => pieces[i].1)
  }

  /** The walk over single pages from where a page ends. */
  function Rest(s: Snapshot, ref: string, index: nat, end: nat): Chain
    requires index < |s.values|
  {
    match NextCursor(s, index, end)
    case None => Chain([], Finished)
    case Some(c) =>
      if c.0 < INDEX_LIMIT && c.1 < OFFSET_LIMIT then Follow(s, ref, c.0, c.1) else Chain([], CursorRefused)
  }

  lemma FollowStep(s: Snapshot, ref: string, index: nat, offset: nat)
    requires s.values != [] && PageAt(s, ref, index, offset).Ready?
    ensures index < |s.values| && |PageAt(s, ref, index, offset).page.items| == 1
    ensures var rest := Rest(s, ref, index, offset + |Encode(Taken(s, ref, index, offset))|);
            Follow(s, ref, index, offset)
            == Chain([(index, PageAt(s, ref, index, offset).page.items[0])] + rest.pieces, rest.end)
  {
    hide Encode, Taken, PageAt, ParseCursor, PrintCursor;
    NextIsLater(s, ref, index, offset);
    CallMovesOn(s, ref, index, offset);
  }

  lemma {:induction false} MergedKeeps(s: Snapshot, ref: string, first: nat, page: Page, index: nat, end: nat)
    requires Reaches(s, page, index, end)
    ensures var m, rest := Merged(s, ref, first, page, index, end), Rest(s, ref, index, end);
            if m.result.Ready? then
              && m.index < |s.values| && rest.end == Rest(s, ref, m.index, m.end).end
              && page.items + Items(rest.pieces) == m.result.page.items + Items(Rest(s, ref, m.index, m.end).pieces)
            else rest.end == EndOf(m.result)
    decreases |s.values| - index
  {
    hide Encode, Taken, PageAt, Fits, Follow, ContinuationAfter, PrintCursor, ParseCursor, NextCursor;
    var next := NextCursor(s, index, end);
    if next.Some? && next.value.1 == 0 {
      FollowingReaches(s, ref, first, page, index, end);
      CursorRoundTrip(index + 1, 0);
      var following := PageFor(s, ref, PrintCursor(index + 1, 0));
      if following.Ready? {
        FollowStep(s, ref, index + 1, 0);
        var candidate := WithHits(s, first, page, index + 1, following.page);
        if Fits(candidate) {
          MergedKeeps(s, ref, first, candidate, index + 1, |Encode(Taken(s, ref, index + 1, 0))|);
        }
      } else if index + 1 < INDEX_LIMIT {
        FollowRefused(s, ref, index + 1, 0);
      }
    }
  }

  lemma FollowRefused(s: Snapshot, ref: string, index: nat, offset: nat)
    requires !PageAt(s, ref, index, offset).Ready?
    ensures Follow(s, ref, index, offset) == Chain([], EndOf(PageAt(s, ref, index, offset)))
  {
  }

  /** Merging hits changes how many calls a reader makes: the walk fails exactly when the
      walk over single pages does and for the same reason, and what it collects is a front
      of theirs, all of it when nothing is refused. */
  lemma {:induction false} MergedWalkIsFront(s: Snapshot, ref: string, index: nat, offset: nat)
    ensures var single, merged := Follow(s, ref, index, offset), FollowRendered(s, ref, index, offset);
            && merged.end == single.end
            && merged.items <= Items(single.pieces)
            && (single.end.Finished? ==> merged.items == Items(single.pieces))
    decreases ItemsLeft(s, index), BytesLeft(s, index, offset)
  {
    hide Encode, Taken, PageAt, Follow, ContinuationAfter, PrintCursor, ParseCursor, NextCursor, ItemsLeft, BytesLeft;
    var r, m := PageAt(s, ref, index, offset), Rendered(s, ref, index, offset);
    if !r.Ready? || s.values == [] {
      FollowNothing(s, ref, index, offset);
    } else {
      FollowStep(s, ref, index, offset);
      PageReaches(s, ref, index, offset);
      var end := offset + |Encode(Taken(s, ref, index, offset))|;
      if s.kind.SearchResult? { MergedKeeps(s, ref, index, r.page, index, end); }
      assert Items(Follow(s, ref, index, offset).pieces) == r.page.items + Items(Rest(s, ref, index, end).pieces);
      if m.result.Ready? {
        RenderedMovesOn(s, ref, index, offset);
        var tail := Rest(s, ref, m.index, m.end).pieces;
        assert Items(Follow(s, ref, index, offset).pieces) == m.result.page.items + Items(tail);
        assert tail == [] ==> Items(tail) == [];
        var next := NextCursor(s, m.index, m.end);
        if next.Some? {
          CursorRoundTrip(next.value.0, next.value.1);
          if next.value.0 < INDEX_LIMIT && next.value.1 < OFFSET_LIMIT {
            MergedWalkIsFront(s, ref, next.value.0, next.value.1);
          }
        }
      }
    }
  }

  lemma FollowNothing(s: Snapshot, ref: string, index: nat, offset: nat)
    requires !PageAt(s, ref, index, offset).Ready? || s.values == []
    ensures Follow(s, ref, index, offset) == Chain([], EndOf(PageAt(s, ref, index, offset)))
    ensures FollowRendered(s, ref, index, offset) == Collected([], EndOf(PageAt(s, ref, index, offset)))
  {
    hide PageAt;
  }

  /** Where the walk over single pages is refused, if it is. */
  function RefusedAt(s: Snapshot, ref: string, index: nat, offset: nat): Option<(nat, nat)>
    decreases ItemsLeft(s, index), BytesLeft(s, index, offset)
  {
    if !PageAt(s, ref, index, offset).Ready? then Some((index, offset))
    else if s.values == [] then None
    else
      CallMovesOn(s, ref, index, offset);
      match NextCursor(s, index, offset + |Encode(Taken(s, ref, index, offset))|)
      case None => None
      case Some(c) => if c.0 < INDEX_LIMIT && c.1 < OFFSET_LIMIT then RefusedAt(s, ref, c.0, c.1) else Some(c)
  }

  function RestRefusedAt(s: Snapshot, ref: string, index: nat, end: nat): Option<(nat, nat)>
    requires index < |s.values|
  {
    match NextCursor(s, index, end)
    case None => None
    case Some(c) => if c.0 < INDEX_LIMIT && c.1 < OFFSET_LIMIT then RefusedAt(s, ref, c.0, c.1) else Some(c)
  }

  /** The refusal is at the start of a value, where merging looks ahead. */
  predicate AtStart(refused: Option<(nat, nat)>) {
    refused.Some? && refused.value.1 == 0
  }

  lemma RefusedStep(s: Snapshot, ref: string, index: nat, offset: nat)
    ensures !PageAt(s, ref, index, offset).Ready? ==> RefusedAt(s, ref, index, offset) == Some((index, offset))
    ensures s.values != [] && PageAt(s, ref, index, offset).Ready? ==>
              index < |s.values| && RefusedAt(s, ref, index, offset)
                                    == RestRefusedAt(s, ref, index, offset + |Encode(Taken(s, ref, index, offset))|)
  {
    hide Encode, Taken, PageAt, NextCursor;
    if s.values != [] && PageAt(s, ref, index, offset).Ready? {
      NextIsLater(s, ref, index, offset);
      CallMovesOn(s, ref, index, offset);
    }
  }

  /** Looking ahead fails only at a refused start; otherwise the refusal, if any, is still
      ahead, and not right at the start of the next value. */
  lemma {:induction false} MergedMeetsRefusal(s: Snapshot, ref: string, first: nat, page: Page, index: nat, end: nat)
    requires Reaches(s, page, index, end)
    ensures var m := Merged(s, ref, first, page, index, end);
            if !m.result.Ready? then AtStart(RestRefusedAt(s, ref, index, end))
            else
              && m.index < |s.values| && RestRefusedAt(s, ref, index, end) == RestRefusedAt(s, ref, m.index, m.end)
              && var next := NextCursor(s, m.index, m.end);
                 next.Some? && next.value.1 == 0 ==>
                   next.value.0 < INDEX_LIMIT && PageAt(s, ref, next.value.0, 0).Ready?
    decreases |s.values| - index
  {
    hide Encode, Taken, PageAt, Fits, ContinuationAfter, PrintCursor, ParseCursor, NextCursor, RefusedAt;
    var next := NextCursor(s, index, end);
    if next.Some? && next.value.1 == 0 {
      FollowingReaches(s, ref, first, page, index, end);
      CursorRoundTrip(index + 1, 0);
      RefusedStep(s, ref, index + 1, 0);
      var following := PageFor(s, ref, PrintCursor(index + 1, 0));
      if following.Ready? {
        var candidate := WithHits(s, first, page, index + 1, following.page);
        if Fits(candidate) {
          MergedMeetsRefusal(s, ref, first, candidate, index + 1, |Encode(Taken(s, ref, index + 1, 0))|);
        }
      }
    }
  }

  /** Merged pages deliver all that single pages would deliver if and only if the walk is
      not refused at the start of a hit. A refusal there takes with it the page that had
      already been cut; a refusal inside a hit takes nothing. */
  lemma {:induction false} MergingLosesNothingIff(s: Snapshot, ref: string, index: nat, offset: nat)
    requires PageAt(s, ref, index, offset).Ready?
    ensures FollowRendered(s, ref, index, offset).items == Items(Follow(s, ref, index, offset).pieces)
            <==> s.kind.ReadResult? || !AtStart(RefusedAt(s, ref, index, offset))
    decreases ItemsLeft(s, index), BytesLeft(s, index, offset)
  {
    hide Encode, Taken, PageAt, Follow, RefusedAt, ContinuationAfter, PrintCursor, ParseCursor, NextCursor, ItemsLeft,
         BytesLeft;
    var r, m := PageAt(s, ref, index, offset), Rendered(s, ref, index, offset);
    if s.values == [] {
      FollowNothing(s, ref, index, offset);
      NothingRefused(s, ref, index, offset);
    } else {
      FollowStep(s, ref, index, offset);
      RefusedStep(s, ref, index, offset);
      PageReaches(s, ref, index, offset);
      var end := offset + |Encode(Taken(s, ref, index, offset))|;
      if s.kind.SearchResult? {
        MergedKeeps(s, ref, index, r.page, index, end);
        MergedMeetsRefusal(s, ref, index, r.page, index, end);
      }
      var single := Items(Follow(s, ref, index, offset).pieces);
      assert single == r.page.items + Items(Rest(s, ref, index, end).pieces);
      if m.result.Ready? {
        RenderedMovesOn(s, ref, index, offset);
        var tail := Rest(s, ref, m.index, m.end).pieces;
        assert single == m.result.page.items + Items(tail);
        assert tail == [] ==> Items(tail) == [];
        var next := NextCursor(s, m.index, m.end);
        if next.Some? && next.value.0 < INDEX_LIMIT && next.value.1 < OFFSET_LIMIT {
          var c := next.value;
          RefusedStep(s, ref, c.0, c.1);
          if PageAt(s, ref, c.0, c.1).Ready? {
            MergingLosesNothingIff(s, ref, c.0, c.1);
            SameRest(m.result.page.items, FollowRendered(s, ref, c.0, c.1).items, Items(tail));
          } else {
            FollowNothing(s, ref, c.0, c.1);
          }
        }
      }
    }
  }

  lemma NothingRefused(s: Snapshot, ref: string, index: nat, offset: nat)
    requires s.values == [] && PageAt(s, ref, index, offset).Ready?
    ensures RefusedAt(s, ref, index, offset).None? && FollowRendered(s, ref, index, offset).items == []
  {
    hide PageAt;
  }

  /** The smallest such loss: the page that ends a hit is ready, the next hit has no page.
      One by one the reader gets the first; merged, they get nothing. */
  lemma OversizedHitHidesPrevious(s: Snapshot, ref: string, index: nat, offset: nat)
    requires s.kind.SearchResult? && s.values != [] && PageAt(s, ref, index, offset).Ready? && index + 1 < |s.values|
    requires offset + |Encode(Taken(s, ref, index, offset))| == |Encode(s.values[index].content)|
    requires PageAt(s, ref, index + 1, 0).OverBudget?
    ensures Items(Follow(s, ref, index, offset).pieces) == PageAt(s, ref, index, offset).page.items != []
    ensures FollowRendered(s, ref, index, offset).items == []
  {
    hide Encode, Taken, PageAt, ContinuationAfter, PrintCursor, ParseCursor;
    var end := offset + |Encode(Taken(s, ref, index, offset))|;
    FollowStep(s, ref, index, offset);
    PageReaches(s, ref, index, offset);
    FollowNothing(s, ref, index + 1, 0);
    CursorRoundTrip(index + 1, 0);
    var r := PageAt(s, ref, index, offset);
    assert !Merged(s, ref, index, r.page, index, end).result.Ready?;
    assert Items(Follow(s, ref, index, offset).pieces) == r.page.items;
  }
}
