/** Cutting published pages into bounded segments that never split a character. */
module Segments {
  import opened Utf8
  import opened Hashing
  import Manifest

  const MAX_SEGMENT_BYTES := 32 * 1024

  datatype Piece = Piece(page: int, startByte: int, endByte: int, startLine: int, endLine: int, text: Text)

  datatype Segment = Segment(segmentId: Digest, ordinal: nat, textSha256: Digest, piece: Piece)

  /** Digest of the canonical JSON `[representationId, ordinal, textHash]`. */
  const SegmentIdentity: (string, nat, Digest) -> Digest

  // ---------------------------------------------------------------- specification

  /** The longest front of `t` that fits in a segment. */
  function Front(t: Text): (k: nat)
    requires t != []
    ensures 0 < k <= |t|
  {
    var k := WholeWithin(t, MAX_SEGMENT_BYTES);
    EncodeLength(t[..k + if k < |t| then 1 else 0]);
    k
  }

  /** The pieces of one page's remaining text, located from `start` and `line`. */
  function Pieces(page: int, start: int, line: int, t: Text): seq<Piece>
    decreases |t|
  {
    if t == [] then []
    else
      var p := t[..Front(t)];
      var end, endLine := start + |Encode(p)|, line + TextNewlines(p);
      [Piece(page, start, end, line, endLine, p)] + Pieces(page, end, endLine, t[Front(t)..])
  }

  function PagePieces(e: Manifest.PageEntry): seq<Piece> {
    Pieces(e.pageText.page, e.startByte, e.startLine, e.pageText.text)
  }

  function AllPieces(pages: seq<Manifest.PageEntry>): seq<Piece> {
    if pages == [] then [] else AllPieces(pages[..|pages| - 1]) + PagePieces(pages[|pages| - 1])
  }

  function NonBlank(pieces: seq<Piece>): seq<Piece> {
    if pieces == [] then []
    else
      var last := pieces[|pieces| - 1];
      NonBlank(pieces[..|pieces| - 1]) + (if Blank(last.text) then [] else [last])
  }

  function Number(id: string, pieces: seq<Piece>): (ss: seq<Segment>)
    ensures |ss| == |pieces|
    ensures forall i :: 0 <= i < |ss| ==> ss[i].ordinal == i && ss[i].piece == pieces[i]
  {
    seq(|pieces|, i requires 0 <= i < |pieces| =>
      var h := Sha256(Encode(pieces[i].text));
      Segment(SegmentIdentity(id, i, h), i, h, pieces[i]))
  }

  /** The segments of a manifest: its non-blank pieces, numbered from zero. */
  function SegmentsOf(id: string, m: Manifest.Manifest): seq<Segment> {
    Number(id, NonBlank(AllPieces(m.pages)))
  }

  // ---------------------------------------------------------------- the loops

  /** The backoff loop: from a full window it retreats to the last position at which
      the bytes decode, and always finds one before reaching `start`. */
  method CutWindow(encoded: Bytes, start: nat, ghost rest: Text) returns (ok: bool, end: nat, bounded: Text)
    requires rest != [] && start <= |encoded| && encoded[start..] == Encode(rest)
    ensures ok && bounded == rest[..Front(rest)]
    ensures end == start + |Encode(bounded)| <= |encoded|
  {
    hide Encode, Decode, WholeWithin;
    end := if |encoded| < start + MAX_SEGMENT_BYTES then |encoded| else start + MAX_SEGMENT_BYTES;
    ghost var target := start + |Encode(rest[..Front(rest)])|;
    WindowTarget(rest, end - start);
    while end > start && !Decode(encoded[start..end]).Decoded?
      invariant start < target <= end <= |encoded|
      invariant end - start <= MAX_SEGMENT_BYTES
      invariant Front(rest) < |rest| ==> end - start < |Encode(rest[..Front(rest) + 1])|
      decreases end
    {
      StopsAtTarget(rest, end - start);
      assert encoded[start..][..end - start] == encoded[start..end];
      end := end - 1;
    }
    StopsAtTarget(rest, end - start);
    assert encoded[start..][..end - start] == encoded[start..end];
    if end == start {
      return false, end, [];
    }
    ok, bounded := true, Decode(encoded[start..end]).text;
  }

  lemma WindowTarget(rest: Text, window: nat)
    requires rest != []
    requires window == if |Encode(rest)| < MAX_SEGMENT_BYTES then |Encode(rest)| else MAX_SEGMENT_BYTES
    ensures 0 < |Encode(rest[..Front(rest)])| <= window
    ensures Front(rest) < |rest| ==> window < |Encode(rest[..Front(rest) + 1])|
  {
    hide Encode;
    var k := Front(rest);
    EncodeLength(rest[..k]);
    EncodeSplit(rest, k);
  }

  /** Within the window the decodable lengths end at the piece of the specification. */
  lemma StopsAtTarget(rest: Text, n: nat)
    requires rest != [] && n <= |Encode(rest)|
    requires |Encode(rest[..Front(rest)])| <= n
    requires Front(rest) < |rest| ==> n < |Encode(rest[..Front(rest) + 1])|
    ensures if n == |Encode(rest[..Front(rest)])| then Decode(Encode(rest)[..n]) == Decoded(rest[..Front(rest)])
            else !Decode(Encode(rest)[..n]).Decoded?
  {
    hide Encode, Decode, WholeWithin;
    WholeWithinUnique(rest, n, Front(rest));
    DecodePrefix(rest, n);
  }

  lemma PiecesStep(page: int, start: int, line: int, t: Text)
    requires t != []
    ensures var p := t[..Front(t)];
            Pieces(page, start, line, t) ==
            [Piece(page, start, start + |Encode(p)|, line, line + TextNewlines(p), p)]
            + Pieces(page, start + |Encode(p)|, line + TextNewlines(p), t[Front(t)..])
  {
    hide Encode, Front, TextNewlines;
  }

  /** `_segments`: the error branch for an unsplittable window is never taken. */
  method CutSegments(id: string, m: Manifest.Manifest) returns (ok: bool, segments: seq<Segment>)
    ensures ok && segments == SegmentsOf(id, m)
  {
    hide Encode, Pieces, Front, TextNewlines, NonBlank, Number, AllPieces;
    segments := [];
    ghost var done: seq<Piece> := [];
    EmptyCut(id);
    for i := 0 to |m.pages|
      invariant done == AllPieces(m.pages[..i])
      invariant segments == Number(id, NonBlank(done))
    {
      var e := m.pages[i];
      var t := e.pageText.text;
      var encoded := Encode(t);
      var start, line := 0, e.startLine;
      ghost var rest, before := t, done;
      while start < |encoded|
        invariant start <= |encoded| && encoded[start..] == Encode(rest)
        invariant segments == Number(id, NonBlank(done))
        invariant done + Pieces(e.pageText.page, e.startByte + start, line, rest) == before + PagePieces(e)
        decreases |encoded| - start
      {
        EmptyText(rest);
        var cut, end, bounded := CutWindow(encoded, start, rest);
        if !cut {
          return false, segments;
        }
        PiecesStep(e.pageText.page, e.startByte + start, line, rest);
        EncodeSplit(rest, Front(rest));
        assert encoded[end..] == encoded[start..][end - start..];
        EncodeLength(bounded);
        var piece := Piece(e.pageText.page, e.startByte + start, e.startByte + end,
                           line, line + TextNewlines(bounded), bounded);
        AppendPiece(id, done, piece);
        if !Blank(bounded) {
          var h := Sha256(Encode(bounded));
          segments := segments + [Segment(SegmentIdentity(id, |segments|, h), |segments|, h, piece)];
        }
        ghost var more := Pieces(e.pageText.page, e.startByte + end, line + TextNewlines(bounded), rest[Front(rest)..]);
        assert done + ([piece] + more) == (done + [piece]) + more;
        done, rest := done + [piece], rest[Front(rest)..];
        line := line + TextNewlines(bounded);
        start := end;
      }
      EmptyText(rest);
      NoPieces(e.pageText.page, e.startByte + start, line);
      NextPagePieces(m.pages, i);
      assert done == before + PagePieces(e);
    }
    assert m.pages[..|m.pages|] == m.pages;
    ok := true;
  }

  lemma EmptyText(t: Text)
    ensures t == [] <==> |Encode(t)| == 0
  {
    EncodeLength(t);
  }

  lemma NoPieces(page: int, start: int, line: int)
    ensures Pieces(page, start, line, []) == []
  {
  }

  lemma EmptyCut(id: string)
    ensures AllPieces([]) == [] && Number(id, NonBlank([])) == []
  {
  }

  lemma NextPagePieces(pages: seq<Manifest.PageEntry>, i: nat)
    requires i < |pages|
    ensures AllPieces(pages[..i + 1]) == AllPieces(pages[..i]) + PagePieces(pages[i])
  {
    assert pages[..i + 1][..i] == pages[..i];
  }

  lemma NumberAppend(id: string, pieces: seq<Piece>, piece: Piece)
    ensures var h := Sha256(Encode(piece.text));
            Number(id, pieces + [piece])
            == Number(id, pieces) + [Segment(SegmentIdentity(id, |pieces|, h), |pieces|, h, piece)]
  {
    hide Encode;
  }

  lemma NonBlankAppend(done: seq<Piece>, piece: Piece)
    ensures NonBlank(done + [piece]) == NonBlank(done) + (if Blank(piece.text) then [] else [piece])
  {
    hide Blank;
    assert (done + [piece])[..|done|] == done;
  }

  lemma AppendPiece(id: string, done: seq<Piece>, piece: Piece)
    ensures var k := |NonBlank(done)|; var h := Sha256(Encode(piece.text));
            Number(id, NonBlank(done + [piece])) == Number(id, NonBlank(done))
            + (if Blank(piece.text) then [] else [Segment(SegmentIdentity(id, k, h), k, h, piece)])
  {
    hide Encode, Number, NonBlank, Blank;
    NonBlankAppend(done, piece);
    NumberAppend(id, NonBlank(done), piece);
    assert NonBlank(done) + [] == NonBlank(done);
  }

  // ---------------------------------------------------------------- what segments are

  function Joined(pieces: seq<Piece>): Text {
    if pieces == [] then [] else pieces[0].text + Joined(pieces[1..])
  }

  /** The pieces of a page are its text, cut in order into parts of 1 to 32768
      bytes, each full to within 3 bytes except the last. */
  lemma {:induction false} PiecesPartition(page: int, start: int, line: int, t: Text)
    ensures var ps := Pieces(page, start, line, t);
            && Joined(ps) == t
            && (forall i :: 0 <= i < |ps| ==> 1 <= |Encode(ps[i].text)| <= MAX_SEGMENT_BYTES)
            && (forall i :: 0 <= i < |ps| - 1 ==> MAX_SEGMENT_BYTES - 3 <= |Encode(ps[i].text)|)
    decreases |t|
  {
    hide Encode, Front, TextNewlines;
    if t != [] {
      var k := Front(t);
      var p := t[..k];
      PiecesPartition(page, start + |Encode(p)|, line + TextNewlines(p), t[k..]);
      var tail := Pieces(page, start + |Encode(p)|, line + TextNewlines(p), t[k..]);
      var ps := Pieces(page, start, line, t);
      PiecesStep(page, start, line, t);
      assert ps[1..] == tail;
      assert t == p + t[k..];
      FrontSize(t);
      assert tail == [] ==> |ps| == 1;
      if |ps| > 1 { assert t[k..] != [] by { NoPieces(page, start + |Encode(p)|, line + TextNewlines(p)); } }
    }
  }

  lemma FrontSize(t: Text)
    requires t != []
    ensures 1 <= |Encode(t[..Front(t)])| <= MAX_SEGMENT_BYTES
    ensures Front(t) < |t| ==> MAX_SEGMENT_BYTES - 3 <= |Encode(t[..Front(t)])|
  {
    hide EncodeScalar;
    var k := Front(t);
    EncodeLength(t[..k]);
    if k < |t| {
      EncodeConcat(t[..k], [t[k]]);
      assert t[..k + 1] == t[..k] + [t[k]];
      assert Encode([t[k]]) == EncodeScalar(t[k]) + Encode([t[k]][1..]);
    }
  }

  /** The piece's locator selects exactly its text, and its line numbers count the
      newlines of the whole canonical text before its two ends. */
  predicate Locates(p: Piece, canonical: Bytes) {
    && 0 <= p.startByte <= p.endByte <= |canonical|
    && canonical[p.startByte..p.endByte] == Encode(p.text)
    && Boundary(canonical, p.startByte) && Boundary(canonical, p.endByte)
    && p.startLine == 1 + Newlines(canonical[..p.startByte])
    && p.endLine == 1 + Newlines(canonical[..p.endByte])
  }

  lemma SliceStartsCharacter(canonical: Bytes, start: nat, end: nat, t: Text)
    requires start < end <= |canonical| && canonical[start..end] == Encode(t)
    ensures Boundary(canonical, start)
  {
    assert canonical[start] == canonical[start..end][0];
    EncodeLength(t);
  }

  lemma {:induction false} PiecesLocate(page: int, start: nat, line: int, t: Text, canonical: Bytes, i: nat)
    requires start + |Encode(t)| <= |canonical| && canonical[start..start + |Encode(t)|] == Encode(t)
    requires line == 1 + Newlines(canonical[..start])
    requires Boundary(canonical, start) && Boundary(canonical, start + |Encode(t)|)
    requires i < |Pieces(page, start, line, t)|
    ensures Locates(Pieces(page, start, line, t)[i], canonical)
    ensures Pieces(page, start, line, t)[i].page == page
    decreases |t|
  {
    hide Encode, Front, TextNewlines, Newlines;
    if t == [] {
      NoPieces(page, start, line);
      assert false;
    }
    var k := Front(t);
    var p, rest := t[..k], t[k..];
    var mid := start + |Encode(p)|;
    EncodeSplit(t, k);
    var whole := canonical[start..start + |Encode(t)|];
    assert whole[..|Encode(p)|] == canonical[start..mid];
    assert whole[|Encode(p)|..] == canonical[mid..mid + |Encode(rest)|];
    NewlinesBetween(canonical, start, mid);
    NewlinesOfText(p);
    EmptyText(rest);
    if rest != [] { SliceStartsCharacter(canonical, mid, mid + |Encode(rest)|, rest); }
    PiecesStep(page, start, line, t);
    if i > 0 {
      PiecesLocate(page, mid, line + TextNewlines(p), rest, canonical, i - 1);
    }
  }

  lemma PageBoundaries(m: Manifest.Manifest, canonical: Bytes, i: nat)
    requires Manifest.Valid(m, canonical) && i < |m.pages|
    requires m.pages[i].pageText.text != []
    ensures 0 <= m.pages[i].startByte <= m.pages[i].endByte
    ensures Boundary(canonical, m.pages[i].startByte) && Boundary(canonical, m.pages[i].endByte)
  {
    hide Encode, Decode, Newlines, Manifest.HeaderOk, Manifest.SpansOk;
    var e := m.pages[i];
    assert Manifest.PageOk(m, i, canonical);
    EmptyText(e.pageText.text);
    SliceStartsCharacter(canonical, e.startByte, e.endByte, e.pageText.text);
    EncodeDecode(canonical);
    AfterText(Decode(canonical).text, e.startByte, e.endByte, e.pageText.text);
  }

  /** Where a decodable slice of a text ends, a character ends. */
  lemma AfterText(whole: Text, start: nat, end: nat, t: Text)
    requires start <= end <= |Encode(whole)| && Encode(whole)[start..end] == Encode(t)
    requires Boundary(Encode(whole), start)
    ensures Boundary(Encode(whole), end)
  {
    hide Encode, Decode, WholeWithin;
    var j := WholeWithin(whole, start);
    BoundaryIsPrefixEnd(whole, start);
    EncodeSplit(whole, j);
    var rest := whole[j..];
    assert Encode(rest)[..end - start] == Encode(whole)[start..end];
    DecodePrefix(rest, end - start);
    DecodeEncode(t);
    BoundaryIsPrefixEnd(rest, end - start);
    assert end < |Encode(whole)| ==> Encode(whole)[end] == Encode(rest)[end - start];
  }

  lemma NoPagesNoPieces(pages: seq<Manifest.PageEntry>)
    ensures AllPieces(pages[..0]) == []
  {
  }

  /** Every piece, blank or not, of a manifest that passed validation is located
      exactly, on character boundaries, on its own page. */
  lemma {:induction false} AllPiecesLocate(m: Manifest.Manifest, canonical: Bytes, n: nat, i: nat)
    requires Manifest.Valid(m, canonical) && n <= |m.pages|
    requires i < |AllPieces(m.pages[..n])|
    ensures Locates(AllPieces(m.pages[..n])[i], canonical)
  {
    hide Encode, Decode, Newlines, Pieces, Locates, Manifest.HeaderOk, Manifest.SpansOk;
    NoPagesNoPieces(m.pages);
    NextPagePieces(m.pages, n - 1);
    var front := AllPieces(m.pages[..n - 1]);
    if i < |front| {
      AllPiecesLocate(m, canonical, n - 1, i);
    } else {
      var e := m.pages[n - 1];
      assert Manifest.PageOk(m, n - 1, canonical);
      if e.pageText.text == [] {
        NoPieces(e.pageText.page, e.startByte, e.startLine);
        assert false;
      }
      PageBoundaries(m, canonical, n - 1);
      PiecesLocate(e.pageText.page, e.startByte, e.startLine, e.pageText.text, canonical, i - |front|);
    }
  }

  lemma {:induction false} NonBlankMembers(pieces: seq<Piece>)
    ensures forall p :: p in NonBlank(pieces) <==> p in pieces && !Blank(p.text)
  {
    if pieces != [] { NonBlankMembers(pieces[..|pieces| - 1]); }
  }

  /** Segments of a validated manifest: contiguous ordinals, no blank segment, every
      locator exact; and every non-blank piece of the partition has its segment. */
  lemma SegmentsAreExact(id: string, m: Manifest.Manifest, canonical: Bytes)
    requires Manifest.Valid(m, canonical)
    ensures var ss := SegmentsOf(id, m);
            && (forall k :: 0 <= k < |ss| ==>
                    ss[k].ordinal == k && !Blank(ss[k].piece.text) && Locates(ss[k].piece, canonical))
            && (forall p :: p in AllPieces(m.pages) && !Blank(p.text) ==>
                  exists k :: 0 <= k < |ss| && ss[k].piece == p)
  {
    hide Encode, Decode, Newlines, Pieces, Locates, NonBlank, AllPieces, Blank, Manifest.PageOk;
    var ps := AllPieces(m.pages);
    var ss := SegmentsOf(id, m);
    NonBlankMembers(ps);
    assert m.pages[..|m.pages|] == m.pages;
    forall k | 0 <= k < |ss| ensures !Blank(ss[k].piece.text) && Locates(ss[k].piece, canonical) {
      assert ss[k].piece in NonBlank(ps);
      var i :| 0 <= i < |ps| && ps[i] == ss[k].piece;
      AllPiecesLocate(m, canonical, |m.pages|, i);
    }
    forall p | p in ps && !Blank(p.text) ensures exists k :: 0 <= k < |ss| && ss[k].piece == p {
      var k :| 0 <= k < |NonBlank(ps)| && NonBlank(ps)[k] == p;
      assert ss[k].piece == p;
    }
  }
}
