/** Evidence cut out of a verified canonical text: line windows for reading, stored
    segments for searching, each with the byte range it was taken from. */
module Evidence {
  import opened Utf8
  import opened Wrappers
  import opened Hashing
  import Manifest
  import Segments

  datatype Locator = Locator(startByte: int, endByte: int, startLine: int, endLine: int,
                             pageStart: Option<int>, pageEnd: Option<int>)

  /** Where a manifest page lies in the canonical text. */
  datatype PageRange = PageRange(start: int, stop: int, page: int)

  // Fields only a read result carries.
  datatype Window = Window(startLine: int, endLine: int, totalLines: int, outputBytes: int, maxLines: int,
                           truncated: bool, truncatedBy: Option<string>, firstLineExceedsLimit: bool,
                           nextOffset: Option<int>, pageStart: Option<int>, pageEnd: Option<int>)

  /** The resolved input; `details` stands for the identity fields copied unchanged. */
  datatype Binding = Binding(inputRef: string, representationId: string, citationAllowed: bool, details: string)

  datatype Item = Item(binding: Binding, content: Text, evidenceSha256: Digest, citationAllowed: bool,
                       locator: Option<Locator>, window: Window)

  const NO_WINDOW := Window(0, 0, 0, 0, 0, false, None, false, None, None, None)

  /** The item's range selects exactly its content in the canonical text. */
  predicate Cites(item: Item, canonical: Bytes) {
    && item.evidenceSha256 == Sha256(Encode(item.content))
    && (item.locator.Some? ==>
          var l := item.locator.value;
          && 0 <= l.startByte <= l.endByte <= |canonical|
          && canonical[l.startByte..l.endByte] == Encode(item.content))
  }

  /** Its first line number counts the newlines of the canonical text before it. */
  predicate CitesLine(item: Item, canonical: Bytes) {
    item.locator.Some? ==>
      var l := item.locator.value;
      0 <= l.startByte <= |canonical| && l.startLine == 1 + Newlines(canonical[..l.startByte])
  }

  predicate Overlaps(r: PageRange, start: int, end: int) {
    r.start < end && r.stop > start
  }

  predicate Within(b: int, start: int, end: int) {
    start <= b < end
  }

  /** A page and a range that are not empty meet exactly when they share a byte; an empty page
      meets a range exactly when it lies inside it. */
  lemma OverlapIff(r: PageRange, start: int, end: int)
    requires start < end && r.start <= r.stop
    ensures r.start < r.stop ==>
              (Overlaps(r, start, end) <==> exists b :: Within(b, start, end) && Within(b, r.start, r.stop))
    ensures r.start == r.stop ==> (Overlaps(r, start, end) <==> start < r.start < end)
  {
    if r.start < r.stop && Overlaps(r, start, end) {
      var b := if r.start < start then start else r.start;
      assert Within(b, start, end) && Within(b, r.start, r.stop);
    }
  }

  /** First and last page met by bytes `[start, end)`, if any. */
  function PageSpan(ranges: seq<PageRange>, start: int, end: int): (span: Option<(int, int)>)
    ensures span.None? <==> forall i :: 0 <= i < |ranges| ==> !Overlaps(ranges[i], start, end)
    ensures span.Some? ==>
              && (exists i :: 0 <= i < |ranges| && Overlaps(ranges[i], start, end) && ranges[i].page == span.value.0)
              && (exists i :: 0 <= i < |ranges| && Overlaps(ranges[i], start, end) && ranges[i].page == span.value.1)
              && forall i :: 0 <= i < |ranges| && Overlaps(ranges[i], start, end) ==>
                   span.value.0 <= ranges[i].page <= span.value.1
  {
    if ranges == [] then None
    else
      var last, rest := ranges[|ranges| - 1], PageSpan(ranges[..|ranges| - 1], start, end);
      var p := last.page;
      if !Overlaps(last, start, end) then rest
      else match rest
        case None => Some((p, p))
        case Some(span) => Some((if p < span.0 then p else span.0, if p > span.1 then p else span.1))
  }

  function First(span: Option<(int, int)>): Option<int> {
    if span.None? then None else Some(span.value.0)
  }

  function Last(span: Option<(int, int)>): Option<int> {
    if span.None? then None else Some(span.value.1)
  }

  // ---------------------------------------------------------------- lines

  /** Characters at which `str.splitlines` ends a line. */
  predicate IsBreak(c: Scalar) {
    10 <= c <= 13 || 0x1C <= c <= 0x1E || c == 0x85 || c == 0x2028 || c == 0x2029
  }

  /** Length of the first line with its terminator; CR LF is one terminator. */
  function FirstLine(t: Text): (n: nat)
    requires t != []
    ensures 1 <= n <= |t|
  {
    if IsBreak(t[0]) then (if t[0] == 13 && |t| > 1 && t[1] == 10 then 2 else 1)
    else if |t| == 1 then 1 else 1 + FirstLine(t[1..])
  }

  /** `splitlines(keepends=True)`. */
  function SplitLines(t: Text): seq<Text>
    decreases |t|
  {
    if t == [] then [] else [t[..FirstLine(t)]] + SplitLines(t[FirstLine(t)..])
  }

  function Concat(lines: seq<Text>): Text {
    if lines == [] then [] else lines[0] + Concat(lines[1..])
  }

  lemma ConcatStep(lines: seq<Text>)
    ensures Concat([]) == []
    ensures lines != [] ==> Concat(lines) == lines[0] + Concat(lines[1..])
  {
  }

  lemma {:induction false} ConcatAppend(a: seq<Text>, b: seq<Text>)
    ensures Concat(a + b) == Concat(a) + Concat(b)
  {
    hide Concat;
    ConcatStep(a);
    if a == [] {
      assert a + b == b;
    } else {
      ConcatStep(a + b);
      ConcatAppend(a[1..], b);
      assert (a + b)[1..] == a[1..] + b;
      Associates(a[0], Concat(a[1..]), Concat(b));
    }
  }

  lemma {:induction false} FirstLineNewlines(t: Text)
    requires t != []
    ensures var n := FirstLine(t); TextNewlines(t[..n]) == if t[n - 1] == NEWLINE then 1 else 0
  {
    var n := FirstLine(t);
    if IsBreak(t[0]) {
      assert n == 1 ==> t[..n][1..] == [];
      assert n == 2 ==> t[..n][1..] == [t[1]] && t[..n][1..][1..] == [];
      assert n == 2 ==> TextNewlines(t[..n][1..]) == 1;
    } else if |t| == 1 {
      assert t[..1][1..] == [];
    } else {
      FirstLineNewlines(t[1..]);
      assert t[..n][1..] == t[1..][..n - 1];
    }
  }

  /** Joining the lines gives the text back; no line is empty, and a line holds a
      newline only as its last character. */
  lemma {:induction false} LinesJoin(t: Text)
    ensures Concat(SplitLines(t)) == t
    ensures forall l :: l in SplitLines(t) ==> l != [] && TextNewlines(l) == if l[|l| - 1] == NEWLINE then 1 else 0
    decreases |t|
  {
    hide TextNewlines, FirstLine, Concat;
    ConcatStep([]);
    if t != [] {
      var n := FirstLine(t);
      var rest := SplitLines(t[n..]);
      LinesJoin(t[n..]);
      FirstLineNewlines(t);
      assert t[..n][n - 1] == t[n - 1];
      assert SplitLines(t) == [t[..n]] + rest;
      ConcatStep([t[..n]] + rest);
      assert t == t[..n] + t[n..];
    }
  }

  /** A line: no character before its terminator ends a line. */
  predicate IsLine(l: Text) {
    l != [] && forall i :: 0 <= i < |l| - 1 && IsBreak(l[i]) ==> i == |l| - 2 && l[i] == 13 && l[i + 1] == 10
  }

  /** The first of two adjacent lines is terminated, and not between a CR and its LF. */
  predicate Divided(a: Text, b: Text) {
    a != [] && b != [] && IsBreak(a[|a| - 1]) && !(a[|a| - 1] == 13 && b[0] == 10)
  }

  predicate AreLines(lines: seq<Text>) {
    && (forall i :: 0 <= i < |lines| ==> IsLine(lines[i]))
    && (forall i :: 0 <= i < |lines| - 1 ==> Divided(lines[i], lines[i + 1]))
  }

  lemma {:induction false} FirstLineIsLine(t: Text)
    requires t != []
    ensures var n := FirstLine(t); IsLine(t[..n]) && (n < |t| ==> Divided(t[..n], t[n..]))
  {
    if !IsBreak(t[0]) && |t| > 1 {
      FirstLineIsLine(t[1..]);
      var n := FirstLine(t[1..]);
      assert t[..n + 1] == [t[0]] + t[1..][..n] && t[n + 1..] == t[1..][n..];
    }
  }

  /** Wherever a text can be divided after a line, its first line ends. */
  lemma {:induction false} FirstLineIsUnique(t: Text, n: nat)
    requires 1 <= n <= |t| && IsLine(t[..n]) && (n < |t| ==> Divided(t[..n], t[n..]))
    ensures FirstLine(t) == n
  {
    if !IsBreak(t[0]) && |t| > 1 {
      if n > 1 {
        assert t[1..][..n - 1] == t[..n][1..] && t[1..][n - 1..] == t[n..];
        FirstLineIsUnique(t[1..], n - 1);
      }
    } else {
      assert n > 1 ==> t[..n][0] == t[0] && t[..n][1] == t[1];
    }
  }

  /** `splitlines` gives lines ... */
  lemma {:induction false} SplitIsLines(t: Text)
    ensures AreLines(SplitLines(t))
    decreases |t|
  {
    hide FirstLine, IsLine, Divided;
    if t != [] {
      var n := FirstLine(t);
      var rest := SplitLines(t[n..]);
      FirstLineIsLine(t);
      SplitIsLines(t[n..]);
      assert SplitLines(t) == [t[..n]] + rest;
      if rest != [] {
        assert t[n..] != [];
        FirstOfRest(t, n);
      }
    }
  }

  lemma FirstOfRest(t: Text, n: nat)
    requires 1 <= n < |t| && Divided(t[..n], t[n..])
    ensures SplitLines(t[n..]) != [] && Divided(t[..n], SplitLines(t[n..])[0])
  {
    assert SplitLines(t[n..])[0] == t[n..][..FirstLine(t[n..])];
  }

  /** ... and they are the only ones: a text divides into lines in one way. */
  lemma {:induction false} LinesAreUnique(lines: seq<Text>)
    requires AreLines(lines)
    ensures SplitLines(Concat(lines)) == lines
    decreases |lines|
  {
    hide FirstLine, IsLine, Divided, Concat;
    ConcatStep(lines);
    if lines != [] {
      var t, first, rest := Concat(lines), lines[0], lines[1..];
      assert AreLines(rest);
      LinesAreUnique(rest);
      assert t == first + Concat(rest) && t[..|first|] == first && t[|first|..] == Concat(rest);
      FirstIsFirstLine(lines, t);
      SplitStep(t, |first|);
      assert [first] + rest == lines;
    }
  }

  lemma SplitStep(t: Text, n: nat)
    requires t != [] && FirstLine(t) == n
    ensures SplitLines(t) == [t[..n]] + SplitLines(t[n..])
  {
  }

  lemma FirstIsFirstLine(lines: seq<Text>, t: Text)
    requires AreLines(lines) && lines != [] && t == lines[0] + Concat(lines[1..])
    ensures t != [] && FirstLine(t) == |lines[0]|
  {
    hide FirstLine;
    var first, rest := lines[0], lines[1..];
    assert IsLine(first);
    assert t[..|first|] == first && t[|first|..] == Concat(rest);
    if rest != [] {
      assert Divided(lines[0], lines[1]);
      assert Concat(rest)[0] == lines[1][0];
    }
    FirstLineIsUnique(t, |first|);
  }

  lemma {:induction false} TextNewlinesConcat(a: Text, b: Text)
    ensures TextNewlines(a + b) == TextNewlines(a) + TextNewlines(b)
  {
    if a == [] {
      assert a + b == b;
    } else {
      TextNewlinesConcat(a[1..], b);
      assert (a + b)[1..] == a[1..] + b;
    }
  }

  /** The first `k` lines hold at most `k` newlines, and `k` exactly when each of
      them is ended by one. */
  lemma {:induction false} NewlinesOfLines(lines: seq<Text>)
    requires forall l :: l in lines ==> l != [] && TextNewlines(l) == if l[|l| - 1] == NEWLINE then 1 else 0
    ensures TextNewlines(Concat(lines)) <= |lines|
    ensures TextNewlines(Concat(lines)) == |lines|
            <==> forall i :: 0 <= i < |lines| ==> lines[i] != [] && lines[i][|lines[i]| - 1] == NEWLINE
  {
    if lines != [] {
      NewlinesOfLines(lines[1..]);
      TextNewlinesConcat(lines[0], Concat(lines[1..]));
      assert forall i :: 1 <= i < |lines| ==> lines[i] == lines[1..][i - 1];
      assert lines[0] in lines;
    }
  }

  // ---------------------------------------------------------------- reading a window of lines

  /** `_line_locator` on lines `[offset, end)`. */
  function LineLocator(lines: seq<Text>, offset: nat, end: nat, ranges: seq<PageRange>): Locator
    requires offset <= end <= |lines|
  {
    var startByte, stop := |Encode(Concat(lines[..offset]))|, |Encode(Concat(lines[..end]))|;
    var endByte := if startByte + 1 > stop then startByte + 1 else stop;
    var span := PageSpan(ranges, startByte, endByte);
    Locator(startByte, endByte, offset + 1, end, First(span), Last(span))
  }

  /** What a read of `limit` lines from `offset` must return. */
  predicate Reads(item: Item, content: Text, binding: Binding, ranges: seq<PageRange>, offset: nat, limit: nat) {
    var lines := SplitLines(content);
    && offset <= |lines|
    && var end := offset + Min(limit, |lines| - offset);
       var w := item.window;
    && item.binding == binding
    && item.content == Concat(lines[offset..end])
    && item.citationAllowed == (binding.citationAllowed && item.content != [])
    && (item.locator.Some? <==> end > offset)
    && (item.locator.Some? ==>
          var span := PageSpan(ranges, item.locator.value.startByte, item.locator.value.endByte);
          && item.locator.value.startLine == w.startLine && item.locator.value.endLine == w.endLine
          && item.locator.value.pageStart == w.pageStart == First(span)
          && item.locator.value.pageEnd == w.pageEnd == Last(span))
    && w.startLine == offset + 1 && w.endLine == end && w.totalLines == |lines|
    && w.outputBytes == |Encode(item.content)| && w.maxLines == limit
    && (w.truncated <==> end < |lines|)
    && w.truncatedBy == (if end < |lines| then Some("lines") else None)
    && !w.firstLineExceedsLimit
    && w.nextOffset == (if end < |lines| then Some(end) else None)
  }

  lemma EmptyConcat(lines: seq<Text>)
    requires forall l :: l in lines ==> l != []
    ensures Concat(lines) == [] <==> lines == []
  {
    if lines != [] { assert lines[0] in lines; }
  }

  lemma WindowIsSlice(content: Text, offset: nat, end: nat)
    requires offset <= end <= |SplitLines(content)|
    ensures var lines, canonical := SplitLines(content), Encode(content);
            var a, b := |Encode(Concat(lines[..offset]))|, |Encode(Concat(lines[..end]))|;
            && a <= b <= |canonical| && canonical[a..b] == Encode(Concat(lines[offset..end]))
            && (end > offset <==> Concat(lines[offset..end]) != [])
            && (end > offset ==> a < b)
  {
    hide Encode, SplitLines, Concat;
    var lines := SplitLines(content);
    LinesJoin(content);
    ConcatAppend(lines[..end], lines[end..]);
    ConcatAppend(lines[..offset], lines[offset..end]);
    assert lines[..end] + lines[end..] == lines;
    assert lines[..offset] + lines[offset..end] == lines[..end];
    var p, w, z := Concat(lines[..offset]), Concat(lines[offset..end]), Concat(lines[end..]);
    EncodeConcat(p + w, z);
    EncodeConcat(p, w);
    assert Encode(content) == Encode(p) + Encode(w) + Encode(z);
    EncodeLength(w);
    EmptyConcat(lines[offset..end]);
  }

  /** `read_evidence` over the whole window: its byte range is exact for every text. */
  method ReadEvidence(content: Text, binding: Binding, ranges: seq<PageRange>, offset: nat, limit: nat)
    returns (r: Option<Item>)
    ensures r.None? <==> offset > |SplitLines(content)|
    ensures r.Some? ==> Reads(r.value, content, binding, ranges, offset, limit) && Cites(r.value, Encode(content))
    ensures r.Some? && r.value.locator.Some? ==>
              r.value.locator.value.startLine == offset + 1
              && r.value.locator.value.startByte == |Encode(Concat(SplitLines(content)[..offset]))|
  {
    hide Encode, SplitLines, Concat, PageSpan;
    var lines := SplitLines(content);
    if offset > |lines| { return None; }
    var selected, truncatedBy := [], None;
    var i := offset;
    while i < |lines|
      invariant offset <= i <= |lines|
      invariant selected == lines[offset..i] && |selected| <= limit && truncatedBy.None?
    {
      if |selected| == limit {
        truncatedBy := Some("lines");
        break;
      }
      selected := selected + [lines[i]];
      i := i + 1;
    }
    var end := offset + |selected|;
    var truncated := end < |lines|;
    if !truncated { truncatedBy := None; }
    var text := Concat(selected);
    WindowIsSlice(content, offset, end);
    assert selected == lines[offset..end];
    var locator := if text != [] then Some(LineLocator(lines, offset, end, ranges)) else None;
    var pageStart := if locator.Some? then locator.value.pageStart else None;
    var pageEnd := if locator.Some? then locator.value.pageEnd else None;
    var window := Window(offset + 1, end, |lines|, |Encode(text)|, limit, truncated, truncatedBy, false,
                         if truncated then Some(end) else None, pageStart, pageEnd);
    r := Some(Item(binding, text, Sha256(Encode(text)), binding.citationAllowed && text != [], locator, window));
  }

  /** The line number of a read is the newline count of the text before it exactly
      when every earlier line is ended by a newline, and not by another separator. */
  lemma ReadLineIff(item: Item, content: Text, offset: nat)
    requires offset < |SplitLines(content)| && item.locator.Some?
    requires item.locator.value.startLine == offset + 1
    requires item.locator.value.startByte == |Encode(Concat(SplitLines(content)[..offset]))|
    ensures CitesLine(item, Encode(content))
            <==> forall i :: 0 <= i < offset ==> var l := SplitLines(content)[i]; l != [] && l[|l| - 1] == NEWLINE
  {
    hide Encode, SplitLines, Concat, Newlines, TextNewlines;
    var lines := SplitLines(content);
    var front := lines[..offset];
    LinesJoin(content);
    ConcatAppend(front, lines[offset..]);
    assert front + lines[offset..] == lines;
    EncodeConcat(Concat(front), Concat(lines[offset..]));
    assert Encode(content)[..|Encode(Concat(front))|] == Encode(Concat(front));
    NewlinesOfText(Concat(front));
    NewlinesOfLines(front);
    assert forall i :: 0 <= i < offset ==> lines[i] == front[i];
  }

  const SEPARATED: Text := [97, 0x2028, 98]

  lemma SeparatedLines()
    ensures SplitLines(SEPARATED) == [[97, 0x2028], [98]]
  {
    var t := SEPARATED;
    assert t[1..] == [0x2028, 98] && FirstLine(t[1..]) == 1;
    assert FirstLine(t) == 2 && t[..2] == [97, 0x2028] && t[2..] == [98];
    assert FirstLine([98]) == 1 && [98][..1] == [98] && [98][1..] == [];
    assert SplitLines([98]) == [[98]];
  }

  /** A text of two lines divided by a line separator: the read of the second one says
      line 2, and no newline comes before it. */
  method SeparatorShiftsLine(binding: Binding, ranges: seq<PageRange>, limit: nat) returns (item: Item)
    requires limit > 0
    ensures Reads(item, SEPARATED, binding, ranges, 1, limit) && item.content == [98] && item.locator.Some?
    ensures item.locator.value.startLine == 2 && !CitesLine(item, Encode(SEPARATED))
  {
    hide Encode, SplitLines, Concat, PageSpan, CitesLine;
    SeparatedLines();
    var lines := SplitLines(SEPARATED);
    var r := ReadEvidence(SEPARATED, binding, ranges, 1, limit);
    item := r.value;
    ReadLineIff(item, SEPARATED, 1);
    assert lines[0][|lines[0]| - 1] != NEWLINE;
    assert lines[1..2] == [[98]] && [[98]][1..] == [];
    ConcatStep([[98]]);
  }

  /** Reads of `limit` lines, the first at `offset` and each at the `nextOffset` of the one
      before; the last one has none. */
  predicate ReadsOn(items: seq<Item>, content: Text, binding: Binding, ranges: seq<PageRange>, offset: nat, limit: nat)
    decreases |items|
  {
    && items != [] && Reads(items[0], content, binding, ranges, offset, limit)
    && var next := items[0].window.nextOffset;
       if next.None? then |items| == 1
       else next.value >= 0 && ReadsOn(items[1..], content, binding, ranges, next.value, limit)
  }

  function Contents(items: seq<Item>): Text {
    if items == [] then [] else items[0].content + Contents(items[1..])
  }

  /** Reading on from the start returns the whole text, whatever the window size; and there
      is no more to read on than there are lines, because each read moves on. */
  lemma {:induction false} ReadingOnRebuilds(items: seq<Item>, content: Text, binding: Binding, ranges: seq<PageRange>,
                                             offset: nat, limit: nat)
    requires ReadsOn(items, content, binding, ranges, offset, limit)
    ensures offset <= |SplitLines(content)|
    ensures Contents(items) == Concat(SplitLines(content)[offset..])
    ensures offset == 0 ==> Contents(items) == content
    ensures limit > 0 ==> |items| <= |SplitLines(content)| - offset + 1
    decreases |items|
  {
    hide SplitLines, Concat, Reads, Contents;
    var lines := SplitLines(content);
    ReadFacts(items[0], content, binding, ranges, offset, limit);
    var end := offset + Min(limit, |lines| - offset);
    LinesJoin(content);
    ContentsStep(items);
    assert lines[0..] == lines;
    if end < |lines| {
      ReadingOnRebuilds(items[1..], content, binding, ranges, end, limit);
      ConcatAppend(lines[offset..end], lines[end..]);
      assert lines[offset..end] + lines[end..] == lines[offset..];
    } else {
      assert lines[offset..end] == lines[offset..];
    }
  }

  lemma ReadFacts(item: Item, content: Text, binding: Binding, ranges: seq<PageRange>, offset: nat, limit: nat)
    requires Reads(item, content, binding, ranges, offset, limit)
    ensures var lines := SplitLines(content);
            && offset <= |lines|
            && var end := offset + Min(limit, |lines| - offset);
               item.content == Concat(lines[offset..end])
               && item.window.nextOffset == if end < |lines| then Some(end) else None
  {
  }

  lemma ContentsStep(items: seq<Item>)
    requires items != []
    ensures Contents(items) == items[0].content + Contents(items[1..])
    ensures |items| == 1 ==> Contents(items) == items[0].content
  {
  }

  // ---------------------------------------------------------------- search hits

  const MAX_SEARCH_SNIPPET_BYTES := 8 * 1024

  /** The part of a segment that a hit shows. */
  function Snippet(text: Text, fullWindow: bool): Text {
    if fullWindow then text else text[..WholeWithin(text, MAX_SEARCH_SNIPPET_BYTES)]
  }

  /** `search_evidence` for a stored segment. */
  function SearchEvidence(s: Segments.Segment, binding: Binding, fullWindow: bool): Item {
    var content := Snippet(s.piece.text, fullWindow);
    var l := Locator(s.piece.startByte, s.piece.startByte + |Encode(content)|,
                     s.piece.startLine, s.piece.startLine + TextNewlines(content),
                     Some(s.piece.page), Some(s.piece.page));
    Item(binding, content, Sha256(Encode(content)), binding.citationAllowed, Some(l), NO_WINDOW)
  }

  /** A front of a located piece is located at the piece's start. */
  lemma FrontLocates(p: Segments.Piece, canonical: Bytes, k: nat)
    requires Segments.Locates(p, canonical) && k <= |p.text|
    ensures var content := p.text[..k]; var end := p.startByte + |Encode(content)|;
            && end <= p.endByte && canonical[p.startByte..end] == Encode(content)
            && p.startLine + TextNewlines(content) == 1 + Newlines(canonical[..end])
  {
    hide Encode, Newlines, TextNewlines, Boundary;
    var content := p.text[..k];
    var end := p.startByte + |Encode(content)|;
    EncodeSplit(p.text, k);
    assert canonical[p.startByte..p.endByte][..|Encode(content)|] == canonical[p.startByte..end];
    NewlinesOfText(content);
    NewlinesBetween(canonical, p.startByte, end);
  }

  lemma SnippetFront(text: Text, fullWindow: bool) returns (k: nat)
    requires text != []
    ensures 0 < k <= |text| && Snippet(text, fullWindow) == text[..k]
    ensures fullWindow ==> k == |text|
    ensures !fullWindow ==> |Encode(text[..k])| <= MAX_SEARCH_SNIPPET_BYTES
    ensures !fullWindow && k < |text| ==> |Encode(text[..k + 1])| > MAX_SEARCH_SNIPPET_BYTES
  {
    hide Encode, WholeWithin;
    EncodeLength(text[..1]);
    k := if fullWindow then |text| else WholeWithin(text, MAX_SEARCH_SNIPPET_BYTES);
    assert text[..|text|] == text;
  }

  /** Every hit on a validated representation cites the segment it came from: its range
      selects exactly what it shows, its lines count newlines, and what it shows is the
      whole segment or the longest front of it within the snippet limit. */
  lemma HitsCite(id: string, m: Manifest.Manifest, canonical: Bytes, k: nat, binding: Binding, fullWindow: bool)
    requires Manifest.Valid(m, canonical) && k < |Segments.SegmentsOf(id, m)|
    ensures var p := Segments.SegmentsOf(id, m)[k].piece;
            var hit := SearchEvidence(Segments.SegmentsOf(id, m)[k], binding, fullWindow);
            var l := hit.locator.value;
            && Cites(hit, canonical) && CitesLine(hit, canonical)
            && l.startByte == p.startByte && l.endLine == 1 + Newlines(canonical[..l.endByte])
            && [] < hit.content <= p.text
            && (fullWindow ==> hit.content == p.text && l.endByte == p.endByte && l.endLine == p.endLine)
            && (!fullWindow ==> |Encode(hit.content)| <= MAX_SEARCH_SNIPPET_BYTES)
            && (!fullWindow && hit.content < p.text ==>
                  |Encode(p.text[..|hit.content| + 1])| > MAX_SEARCH_SNIPPET_BYTES)
  {
    hide Encode, Newlines, TextNewlines, Manifest.Valid, Segments.SegmentsOf, Snippet, Boundary, WholeWithin;
    Segments.SegmentsAreExact(id, m, canonical);
    var p := Segments.SegmentsOf(id, m)[k].piece;
    assert Segments.Locates(p, canonical);
    assert p.text != [] by { assert !Blank(p.text); }
    var n := SnippetFront(p.text, fullWindow);
    FrontLocates(p, canonical, n);
    assert fullWindow ==> p.text[..n] == p.text;
  }

  /** `_bounded_utf8_prefix`: the longest front of the text within the byte limit. */
  method BoundedPrefix(value: Text, maximumBytes: nat) returns (r: Text)
    ensures r == value[..WholeWithin(value, maximumBytes)]
  {
    hide Encode, Decode, WholeWithin;
    var encoded := Encode(value);
    if |encoded| <= maximumBytes {
      assert value[..|value|] == value;
      WholeWithinUnique(value, maximumBytes, |value|);
      return value;
    }
    var end := maximumBytes;
    ghost var k := WholeWithin(value, maximumBytes);
    PrefixBoundary(value, k);
    while end > 0 && IsContinuation(encoded[end])
      invariant |Encode(value[..k])| <= end <= maximumBytes
    {
      end := end - 1;
    }
    FirstIsNoContinuation(value);
    BoundaryIsPrefixEnd(value, end);
    assert value[..|value|] == value;
    WholeWithinUnique(value, end, k);
    DecodePrefix(value, end);
    r := Decode(encoded[..end]).text;
  }

  lemma PrefixBoundary(t: Text, k: nat)
    requires k <= |t| && |Encode(t[..k])| < |Encode(t)|
    ensures !IsContinuation(Encode(t)[|Encode(t[..k])|])
  {
    hide WholeWithin;
    EncodeSplit(t, k);
    EncodeLength(t[k..]);
    assert Encode(t)[|Encode(t[..k])|] == Encode(t[k..])[0];
  }

  lemma FirstIsNoContinuation(t: Text)
    requires |Encode(t)| > 0
    ensures !IsContinuation(Encode(t)[0])
  {
  }
}
