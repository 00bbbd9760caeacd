/** Reading a captured command output back in ranges: the chunked reader refines a
    slice of the flat text, at every offset a caller may ask for. */
module Transcript {
  import opened Utf8
  import opened Wrappers
  import opened Hashing

  const CHUNK: nat := 65536

  datatype Chunk = Chunk(data: Bytes, sha256: Digest)

  // Chunk rows are unique per index, so a capture holds them as a map.
  datatype Capture = Capture(byteLength: nat, chunkSize: nat, chunks: map<nat, Chunk>)

  datatype Range =
    | Page(text: Text, next: nat)
    | Unavailable
    | ChunkMissing
    | ChunkCorrupt
    | BoundaryInvalid

  /** The rows with index in `[lo, hi)`, in index order. */
  function Rows(chunks: map<nat, Chunk>, lo: nat, hi: nat): (rows: seq<(nat, Chunk)>)
    requires lo <= hi
    ensures |rows| <= hi - lo
    ensures |rows| == hi - lo <==> forall i :: lo <= i < hi ==> i in chunks
    ensures |rows| == hi - lo ==> forall i :: lo <= i < hi && i in chunks ==> rows[i - lo] == (i, chunks[i])
  {
    if lo == hi then []
    else Rows(chunks, lo, hi - 1) + (if hi - 1 in chunks then [(hi - 1, chunks[hi - 1])] else [])
  }

  /** Row `i` holds as many bytes as its place in the capture demands, under their hash. */
  predicate Intact(c: Capture, i: nat) {
    && i in c.chunks
    && |c.chunks[i].data| == Min(c.chunkSize, c.byteLength - i * c.chunkSize)
    && c.chunks[i].sha256 == Sha256(c.chunks[i].data)
  }

  function Joined(c: Capture, lo: nat, hi: nat): Bytes
    requires lo <= hi && forall i :: lo <= i < hi ==> Intact(c, i)
  {
    if lo == hi then []
    else
      assert Intact(c, hi - 1);
      Joined(c, lo, hi - 1) + c.chunks[hi - 1].data
  }

  /** A capture of `t` as the publisher stores it: every chunk whole and in its place. */
  ghost predicate Captures(c: Capture, t: Text) {
    && c.chunkSize == CHUNK && c.byteLength == |Encode(t)|
    && forall i: nat :: i * CHUNK < c.byteLength ==>
         Intact(c, i) && c.chunks[i].data == Encode(t)[i * CHUNK..Min((i + 1) * CHUNK, c.byteLength)]
  }

  lemma CaptureSizes(c: Capture, t: Text)
    requires Captures(c, t)
    ensures c.chunkSize == CHUNK && c.byteLength == |Encode(t)|
  {
  }

  /** Where the window of a read at `offset` ends before it is moved to a boundary. */
  function WindowEnd(length: nat, offset: nat): nat {
    Min(offset + CHUNK, length)
  }

  /** The page at `offset` of the flat text, and where the next page starts. */
  function FlatPage(t: Text, offset: nat): (page: (Text, nat))
    requires offset <= |Encode(t)|
  {
    var j, k := WholeWithin(t, offset), WholeWithin(t, WindowEnd(|Encode(t)|, offset));
    WholeWithinMonotone(t, offset, WindowEnd(|Encode(t)|, offset));
    (t[j..k], |Encode(t[..k])|)
  }

  lemma WholeWithinMonotone(t: Text, i: nat, j: nat)
    requires i <= j
    ensures WholeWithin(t, i) <= WholeWithin(t, j)
  {
    hide Encode, WholeWithin;
    PrefixLengths(t, WholeWithin(t, j) + 1, WholeWithin(t, i));
  }

  lemma SlicesJoin(s: Bytes, i: nat, j: nat, k: nat)
    requires i <= j <= k <= |s|
    ensures s[i..j] + s[j..k] == s[i..k]
  {
  }

  lemma {:induction false} JoinedIsSlice(c: Capture, t: Text, lo: nat, hi: nat)
    requires Captures(c, t) && lo < hi && (hi - 1) * CHUNK < c.byteLength
    requires forall i :: lo <= i < hi ==> Intact(c, i)
    ensures Joined(c, lo, hi) == Encode(t)[lo * CHUNK..Min(hi * CHUNK, c.byteLength)]
    decreases hi
  {
    hide Encode;
    if lo == hi - 1 {
      assert Joined(c, lo, lo) == [];
    } else {
      JoinedIsSlice(c, t, lo, hi - 1);
      assert Intact(c, hi - 1);
      SlicesJoin(Encode(t), lo * CHUNK, (hi - 1) * CHUNK, Min(hi * CHUNK, c.byteLength));
    }
  }

  /** What decoding a window of a text gives, when the window starts at `offset`. */
  lemma WindowDecodes(t: Text, offset: nat, end: nat)
    requires offset < end <= |Encode(t)|
    ensures Boundary(Encode(t), offset) ==>
              var j, k := WholeWithin(t, offset), WholeWithin(t, end);
              var d := Decode(Encode(t)[offset..end]);
              && j <= k && |Encode(t[..j])| == offset && offset <= |Encode(t[..k])| <= end < |Encode(t[..k])| + 4
              && (end == offset + CHUNK ==> offset < |Encode(t[..k])|)
              && if |Encode(t[..k])| == end then d == Decoded(t[j..k])
                 else d == Malformed(|Encode(t[..k])| - offset, true)
    ensures !Boundary(Encode(t), offset) ==> Decode(Encode(t)[offset..end]) == Malformed(0, false)
  {
    hide Decode, Encode, WholeWithin;
    if Boundary(Encode(t), offset) {
      BoundaryIsPrefixEnd(t, offset);
      var j := WholeWithin(t, offset);
      var rest := t[j..];
      EncodeSplit(t, j);
      assert Encode(t)[offset..end] == Encode(rest)[..end - offset];
      DecodePrefix(rest, end - offset);
      var m := WholeWithin(rest, end - offset);
      SplitPrefix(t, j, m);
      if m < |rest| { SplitPrefix(t, j, m + 1); }
      WholeWithinUnique(t, end, j + m);
      assert rest[..m] == t[j..j + m];
    } else {
      DecodeInside(Encode(t)[offset..end]);
    }
  }

  lemma SplitPrefix(t: Text, j: nat, m: nat)
    requires j + m <= |t|
    ensures |Encode(t[..j + m])| == |Encode(t[..j])| + |Encode(t[j..][..m])|
  {
    EncodeSplit(t[..j + m], j);
    assert t[..j + m][..j] == t[..j];
    assert t[..j + m][j..] == t[j..][..m];
  }

  /** The slice taken out of the joined chunks is the flat window. */
  lemma WindowOfJoined(c: Capture, t: Text, offset: nat, end: nat)
    requires Captures(c, t) && offset < end <= c.byteLength && end <= offset + CHUNK
    ensures var first, last := offset / CHUNK, (end - 1) / CHUNK;
            && first <= last && (forall i :: first <= i <= last ==> Intact(c, i))
            && var joined, start := Joined(c, first, last + 1), offset % CHUNK;
               start + end - offset <= |joined| && joined[start..start + end - offset] == Encode(t)[offset..end]
  {
    hide Encode, Joined;
    var first, last := offset / CHUNK, (end - 1) / CHUNK;
    forall i | first <= i <= last ensures Intact(c, i) {
      assert i * CHUNK < c.byteLength;
    }
    JoinedIsSlice(c, t, first, last + 1);
    SliceOfSlice(Encode(t), first * CHUNK, Min((last + 1) * CHUNK, c.byteLength),
                 offset % CHUNK, offset % CHUNK + end - offset);
  }

  predicate AllPresent(c: Capture, first: nat, last: nat) {
    forall i :: first <= i <= last ==> i in c.chunks
  }

  predicate AllIntact(c: Capture, first: nat, last: nat) {
    forall i :: first <= i <= last ==> Intact(c, i)
  }

  lemma IntactIsPresent(c: Capture, first: nat, last: nat)
    ensures AllIntact(c, first, last) ==> AllPresent(c, first, last)
  {
    if AllIntact(c, first, last) {
      forall i | first <= i <= last ensures i in c.chunks { assert Intact(c, i); }
    }
  }

  /** A chunk is used exactly when it is there, its digest is that of its bytes, and they reach
      to the next chunk or to the end of the capture. */
  lemma IntactIff(c: Capture, i: nat)
    ensures Intact(c, i)
            <==> && i in c.chunks && Sha256(c.chunks[i].data) == c.chunks[i].sha256
                 && var end := i * c.chunkSize + |c.chunks[i].data|;
                    end <= c.byteLength && end <= (i + 1) * c.chunkSize
                    && (end == c.byteLength || end == (i + 1) * c.chunkSize)
  {
    assert (i + 1) * c.chunkSize == i * c.chunkSize + c.chunkSize;
  }

  datatype Fetched = Fetched(bytes: Bytes) | Missing | Corrupt

  /** Checks the chunks from `first` to `last` and joins them. */
  method JoinChunks(c: Capture, first: nat, last: nat) returns (f: Fetched)
    requires first <= last
    ensures f == if !AllPresent(c, first, last) then Missing
                 else if !AllIntact(c, first, last) then Corrupt
                 else Fetched(Joined(c, first, last + 1))
    ensures f.Missing? <==> exists i :: first <= i <= last && i !in c.chunks
  {
    IntactIsPresent(c, first, last);
    var joined := [];
    var rows := Rows(c.chunks, first, last + 1);
    if |rows| != last - first + 1 { return Missing; }
    var index := first;
    while index <= last
      invariant first <= index <= last + 1
      invariant forall i :: first <= i < index ==> Intact(c, i)
      invariant joined == Joined(c, first, index)
    {
      var row := rows[index - first];
      var data := row.1.data;
      var expected := Min(c.chunkSize, c.byteLength - index * c.chunkSize);
      if row.0 != index || |data| != expected || row.1.sha256 != Sha256(data) {
        assert !Intact(c, index);
        return Corrupt;
      }
      joined := joined + data;
      index := index + 1;
    }
    f := Fetched(joined);
  }

  /** Reads one range. On a capture of a text it succeeds exactly where a character
      starts, returns the flat text's own page, and reports damage otherwise. */
  method ReadOutputRange(capture: Option<Capture>, offset: int, byteLength: nat) returns (r: Range)
    ensures r.Unavailable? <==>
              || capture.None? || capture.value.byteLength != byteLength
              || capture.value.chunkSize != CHUNK || !(0 <= offset <= byteLength)
    ensures !r.Unavailable? && offset == byteLength ==> r == Page([], offset)
    ensures !r.Unavailable? && offset < byteLength ==>
              var c, first, last := capture.value, offset / CHUNK, (WindowEnd(byteLength, offset) - 1) / CHUNK;
              && (r.ChunkMissing? <==> !AllPresent(c, first, last))
              && (r.ChunkCorrupt? <==> AllPresent(c, first, last) && !AllIntact(c, first, last))
    ensures forall t :: capture.Some? && Captures(capture.value, t) && byteLength == |Encode(t)|
                        && 0 <= offset <= byteLength ==>
              r == if Boundary(Encode(t), offset) then Page(FlatPage(t, offset).0, FlatPage(t, offset).1)
                   else BoundaryInvalid
  {
    hide Encode, Decode, Captures, FlatPage, Boundary, Sha256, AllPresent;
    if capture.None? { return Unavailable; }
    var c := capture.value;
    forall t | Captures(c, t) ensures c.chunkSize == CHUNK && c.byteLength == |Encode(t)| {
      CaptureSizes(c, t);
    }
    if c.byteLength != byteLength || c.chunkSize != CHUNK || !(0 <= offset <= byteLength) { return Unavailable; }
    if offset == byteLength {
      forall t | Captures(c, t) && byteLength == |Encode(t)|
        ensures Boundary(Encode(t), offset) && FlatPage(t, offset) == ([], offset)
      {
        EndPage(t);
      }
      return Page([], offset);
    }
    var end := Min(offset + CHUNK, byteLength);
    var first, last := offset / CHUNK, (end - 1) / CHUNK;
    forall t | Captures(c, t) && byteLength == |Encode(t)|
      ensures AllIntact(c, first, last)
    {
      WindowOfJoined(c, t, offset, end);
    }
    IntactIsPresent(c, first, last);
    var fetched := JoinChunks(c, first, last);
    if fetched.Missing? { return ChunkMissing; }
    if fetched.Corrupt? { return ChunkCorrupt; }
    var joined := fetched.bytes;
    var start := offset % c.chunkSize;
    JoinedLength(c, first, last + 1);
    var data := joined[start..start + end - offset];
    r := Delivered(data, offset, end, byteLength);
    forall t | Captures(c, t) && byteLength == |Encode(t)|
      ensures r == if Boundary(Encode(t), offset) then Page(FlatPage(t, offset).0, FlatPage(t, offset).1)
                   else BoundaryInvalid
    {
      WindowOfJoined(c, t, offset, end);
      WindowIsDelivered(t, offset, end);
    }
  }

  /** The page of a window's bytes: all of it, or all but a split last character. */
  function Delivered(data: Bytes, offset: nat, end: nat, byteLength: nat): Range {
    match Decode(data)
    case Decoded(text) => Page(text, end)
    case Malformed(start, cutOff) =>
      if !cutOff || start == 0 || end == byteLength then BoundaryInvalid
      else match Decode(data[..start])
        case Decoded(text) => Page(text, offset + start)
        case Malformed(_, _) => BoundaryInvalid
  }

  lemma DeliveredWhole(data: Bytes, offset: nat, end: nat, byteLength: nat, text: Text)
    requires Decode(data) == Decoded(text)
    ensures Delivered(data, offset, end, byteLength) == Page(text, end)
  {
    hide Decode;
  }

  lemma DeliveredCut(data: Bytes, offset: nat, end: nat, byteLength: nat, start: nat, text: Text)
    requires Decode(data) == Malformed(start, true) && 0 < start <= |data| && end != byteLength
    requires Decode(data[..start]) == Decoded(text)
    ensures Delivered(data, offset, end, byteLength) == Page(text, offset + start)
  {
    hide Decode;
  }

  lemma DeliveredNot(data: Bytes, offset: nat, end: nat, byteLength: nat)
    requires Decode(data) == Malformed(0, false)
    ensures Delivered(data, offset, end, byteLength) == BoundaryInvalid
  {
    hide Decode;
  }

  /** What a front of the window that ends with a whole character decodes to. */
  lemma WholeFront(t: Text, offset: nat, end: nat)
    requires offset < end <= |Encode(t)| && Boundary(Encode(t), offset)
    ensures var j, k := WholeWithin(t, offset), WholeWithin(t, end); var cut := |Encode(t[..k])|;
            && j <= k && offset <= cut <= end
            && (offset < cut ==> Decode(Encode(t)[offset..cut]) == Decoded(t[j..k]))
            && (cut < end ==> Decode(Encode(t)[offset..end]) == Malformed(cut - offset, true))
            && (end == offset + CHUNK ==> offset < cut)
  {
    hide Encode, Decode, WholeWithin, Boundary;
    WindowDecodes(t, offset, end);
    var k := WholeWithin(t, end);
    var cut := |Encode(t[..k])|;
    if offset < cut < end {
      WholeWithinUnique(t, cut, k);
      WindowDecodes(t, offset, cut);
    }
  }

  lemma WindowIsDelivered(t: Text, offset: nat, end: nat)
    requires offset < |Encode(t)| && end == WindowEnd(|Encode(t)|, offset)
    ensures Delivered(Encode(t)[offset..end], offset, end, |Encode(t)|)
            == if Boundary(Encode(t), offset) then Page(FlatPage(t, offset).0, FlatPage(t, offset).1)
               else BoundaryInvalid
  {
    hide Encode, Decode, WholeWithin, Boundary, Delivered;
    var data := Encode(t)[offset..end];
    if Boundary(Encode(t), offset) {
      WholeFront(t, offset, end);
      var j, k := WholeWithin(t, offset), WholeWithin(t, end);
      var cut := |Encode(t[..k])|;
      if end == |Encode(t)| {
        assert t[..|t|] == t;
        WholeWithinUnique(t, end, |t|);
      }
      if cut == end {
        DeliveredWhole(data, offset, end, |Encode(t)|, t[j..k]);
      } else {
        assert data[..cut - offset] == Encode(t)[offset..cut];
        DeliveredCut(data, offset, end, |Encode(t)|, cut - offset, t[j..k]);
      }
    } else {
      WindowDecodes(t, offset, end);
      DeliveredNot(data, offset, end, |Encode(t)|);
    }
  }

  lemma EndPage(t: Text)
    ensures Boundary(Encode(t), |Encode(t)|) && FlatPage(t, |Encode(t)|) == ([], |Encode(t)|)
  {
    hide Encode, WholeWithin;
    assert t[..|t|] == t;
    WholeWithinUnique(t, |Encode(t)|, |t|);
    assert t[|t|..|t|] == [];
  }

  lemma {:induction false} JoinedLength(c: Capture, lo: nat, hi: nat)
    requires lo < hi && c.chunkSize == CHUNK && (hi - 1) * CHUNK < c.byteLength
    requires forall i :: lo <= i < hi ==> Intact(c, i)
    ensures lo * CHUNK + |Joined(c, lo, hi)| == Min(hi * CHUNK, c.byteLength)
    decreases hi
  {
    if lo == hi - 1 {
      assert Joined(c, lo, lo) == [];
    } else {
      JoinedLength(c, lo, hi - 1);
      assert Intact(c, hi - 1);
    }
  }

  /** A page starts where asked, ends on a boundary at most three bytes short of the
      window, and moves on unless the text has ended. */
  lemma PageAdvances(t: Text, offset: nat)
    requires offset <= |Encode(t)| && Boundary(Encode(t), offset)
    ensures var (text, next) := FlatPage(t, offset);
            && offset <= next <= |Encode(t)| && Boundary(Encode(t), next)
            && Encode(text) == Encode(t)[offset..next]
            && next <= WindowEnd(|Encode(t)|, offset) < next + 4
            && (offset < |Encode(t)| ==> offset < next)
            && (offset + CHUNK >= |Encode(t)| ==> next == |Encode(t)|)
  {
    hide Encode, WholeWithin, Boundary;
    if offset == |Encode(t)| {
      EndPage(t);
      assert Encode(t)[offset..offset] == [];
      EncodeStep([]);
    } else {
      WindowPositions(t, offset);
      var j, k := WholeWithin(t, offset), WholeWithin(t, WindowEnd(|Encode(t)|, offset));
      SliceEncodes(t, j, k);
      PrefixPosition(t, k);
    }
  }

  lemma WindowPositions(t: Text, offset: nat)
    requires offset < |Encode(t)| && Boundary(Encode(t), offset)
    ensures var end := WindowEnd(|Encode(t)|, offset);
            var j, k := WholeWithin(t, offset), WholeWithin(t, end);
            var next := |Encode(t[..k])|;
            && j <= k && |Encode(t[..j])| == offset < next <= end < next + 4
            && (end == |Encode(t)| ==> next == end)
  {
    hide Encode, Decode, WholeWithin;
    var end := WindowEnd(|Encode(t)|, offset);
    WindowDecodes(t, offset, end);
    BoundaryIsPrefixEnd(t, end);
  }

  lemma SliceEncodes(t: Text, j: nat, k: nat)
    requires j <= k <= |t|
    ensures |Encode(t[..j])| <= |Encode(t[..k])| <= |Encode(t)|
    ensures Encode(t[j..k]) == Encode(t)[|Encode(t[..j])|..|Encode(t[..k])|]
  {
    EncodeSplit(t, k);
    EncodeSplit(t[..k], j);
    assert t[..k][..j] == t[..j];
    assert t[..k][j..] == t[j..k];
  }

  /** Every page from `offset` on, each read starting where the last one ended. */
  function AllPages(t: Text, offset: nat): Text
    requires offset <= |Encode(t)| && Boundary(Encode(t), offset)
    decreases |Encode(t)| - offset
  {
    PageAdvances(t, offset);
    var (text, next) := FlatPage(t, offset);
    if offset == |Encode(t)| then [] else text + AllPages(t, next)
  }

  /** Reading on from the start rebuilds the whole text. */
  lemma {:induction false} ReadingRebuilds(t: Text, offset: nat)
    requires offset <= |Encode(t)| && Boundary(Encode(t), offset)
    ensures AllPages(t, offset) == t[WholeWithin(t, offset)..]
    ensures offset == 0 ==> AllPages(t, offset) == t
    decreases |Encode(t)| - offset
  {
    hide Encode, WholeWithin, Boundary;
    PageAdvances(t, offset);
    assert offset == 0 ==> WholeWithin(t, offset) == 0 by { if offset == 0 { StartsAtZero(t); } }
    if offset == |Encode(t)| {
      EndPage(t);
      assert t[..|t|] == t;
      WholeWithinUnique(t, offset, |t|);
    } else {
      var next := FlatPage(t, offset).1;
      ReadingRebuilds(t, next);
      var j, k := WholeWithin(t, offset), WholeWithin(t, WindowEnd(|Encode(t)|, offset));
      WholeWithinMonotone(t, offset, WindowEnd(|Encode(t)|, offset));
      PrefixLengths(t, k, k);
      PrefixPosition(t, k);
      assert t[j..] == t[j..k] + t[k..];
    }
  }

  lemma StartsAtZero(t: Text)
    ensures WholeWithin(t, 0) == 0
  {
  }
}
