/** The processor's output as it crosses from the container to the API: the archive
    limits, the declared sizes, and why what the processor writes meets both. */
module Archive {
  import opened Utf8
  import opened Wrappers
  import opened Hashing
  import Decimal
  import Manifest

  const MIB := 1024 * 1024

  // ---------------------------------------------------------------- the declared output

  datatype Output = Output(
    representationId: string,
    canonicalSize: int, canonicalSha: Digest,
    previewSize: int, previewSha: Option<Digest>,
    workbookSize: int, workbookSha: Option<Digest>,
    manifest: Manifest.Manifest)

  predicate IsHexDigit(c: char) {
    '0' <= c <= '9' || 'a' <= c <= 'f'
  }

  predicate IsSha256(d: Digest) {
    && |d| == 71
    && d[..7] == "sha256:"
    && forall i :: 7 <= i < 71 ==> IsHexDigit(d[i])
  }

  /** `validate_commit`. */
  predicate ValidCommit(o: Output) {
    && o.canonicalSize > 0 && o.previewSize >= 0 && o.workbookSize >= 0
    && o.canonicalSize + o.previewSize + o.workbookSize <= Manifest.MAX_OUTPUT_BYTES
    && IsSha256(o.canonicalSha)
    && (if o.previewSize != 0 then o.previewSha.Some? && IsSha256(o.previewSha.value) else o.previewSha.None?)
    && (if o.workbookSize != 0 then o.workbookSha.Some? && IsSha256(o.workbookSha.value) else o.workbookSha.None?)
  }

  // ---------------------------------------------------------------- the archive

  datatype Name = CanonicalMd | ManifestJson | PreviewPdf | WorkbookJson | OutputDirectory | Other(path: string)

  datatype Entry = Entry(name: Name, isFile: bool, isDirectory: bool, size: int)

  predicate IsRoot(e: Entry) {
    e.name == OutputDirectory && e.isDirectory
  }

  function SizeLimit(name: Name, maximum: int): int {
    if name == ManifestJson then 64 * MIB
    else if name == WorkbookJson then 16 * MIB
    else maximum
  }

  predicate EntryOk(e: Entry, maximum: int) {
    IsRoot(e) || (
      && e.name in {CanonicalMd, ManifestJson, PreviewPdf, WorkbookJson}
      && e.isFile
      && 0 <= e.size <= SizeLimit(e.name, maximum))
  }

  /** What a member may be: the directory itself, or one of the four files within its limit. */
  lemma MemberIff(e: Entry, maximum: int)
    ensures EntryOk(e, maximum)
            <==> if e.isDirectory && e.name == OutputDirectory then true
                 else && e.isFile && !e.name.Other? && e.name != OutputDirectory && e.size >= 0
                      && e.size <= match e.name
                                   case ManifestJson => 64 * MIB
                                   case WorkbookJson => 16 * MIB
                                   case _ => maximum
  {
  }

  /** Bytes of everything but the manifest and the directory itself. */
  function Payload(entries: seq<Entry>): int {
    if entries == [] then 0
    else
      var last := entries[|entries| - 1];
      Payload(entries[..|entries| - 1]) + (if IsRoot(last) || last.name == ManifestJson then 0 else last.size)
  }

  predicate DistinctFiles(entries: seq<Entry>) {
    forall i, j :: 0 <= i < j < |entries| && !IsRoot(entries[i]) && !IsRoot(entries[j]) ==>
      entries[i].name != entries[j].name
  }

  predicate EntriesOk(entries: seq<Entry>, maximum: int) {
    && (forall i :: 0 <= i < |entries| ==> EntryOk(entries[i], maximum))
    && DistinctFiles(entries)
    && Payload(entries) <= maximum
  }

  /** What `unpack_outputs` accepts: the stream as it arrives and its members. */
  predicate Unpacks(chunks: seq<nat>, entries: seq<Entry>, maximum: int) {
    Manifest.Sum(chunks) <= maximum + 65 * MIB && EntriesOk(entries, maximum)
  }

  lemma {:induction false} PayloadGrows(entries: seq<Entry>, maximum: int, n: nat)
    requires n <= |entries|
    requires forall i :: 0 <= i < |entries| ==> EntryOk(entries[i], maximum)
    ensures Payload(entries[..n]) <= Payload(entries)
    decreases |entries|
  {
    if n < |entries| {
      var front := entries[..|entries| - 1];
      PayloadGrows(front, maximum, n);
      assert front[..n] == entries[..n];
    } else {
      assert entries[..n] == entries;
    }
  }

  lemma PayloadAppend(entries: seq<Entry>, e: Entry)
    ensures Payload([]) == 0
    ensures Payload(entries + [e]) == Payload(entries) + (if IsRoot(e) || e.name == ManifestJson then 0 else e.size)
  {
    assert (entries + [e])[..|entries|] == entries;
  }

  /** The member loop of `unpack_outputs`: it stops at the first offending member,
      yet accepts exactly the archives that are in order as a whole. */
  method UnpackOutputs(chunks: seq<nat>, entries: seq<Entry>, maximum: nat) returns (ok: bool)
    ensures ok <==> Unpacks(chunks, entries, maximum)
  {
    hide Payload, Manifest.Sum;
    var received: nat;
    ok, received := Manifest.CopyPreview(chunks, maximum + 64 * MIB + MIB);
    if !ok {
      return;
    }
    var seen: set<Name>, total := {}, 0;
    PayloadAppend([], Entry(OutputDirectory, false, true, 0));
    for i := 0 to |entries|
      invariant forall j :: 0 <= j < i ==> EntryOk(entries[j], maximum)
      invariant forall j :: 0 <= j < i && !IsRoot(entries[j]) ==> entries[j].name in seen
      invariant forall n :: n in seen ==> exists j :: 0 <= j < i && !IsRoot(entries[j]) && entries[j].name == n
      invariant DistinctFiles(entries[..i])
      invariant total == Payload(entries[..i]) <= maximum
    {
      var e := entries[i];
      assert entries[..i + 1] == entries[..i] + [e];
      PayloadAppend(entries[..i], e);
      if IsRoot(e) {
        continue;
      }
      if e.name !in {CanonicalMd, ManifestJson, PreviewPdf, WorkbookJson} || !e.isFile || e.name in seen {
        return false;
      }
      seen := seen + {e.name};
      if e.size < 0 || e.size > SizeLimit(e.name, maximum) {
        return false;
      }
      if e.name != ManifestJson {
        total := total + e.size;
        if total > maximum {
          if EntriesOk(entries, maximum) { PayloadGrows(entries, maximum, i + 1); }
          return false;
        }
      }
    }
    assert entries[..|entries|] == entries;
    ok := true;
  }

  // ------------------------------------------------ the producer against these limits

  /** The archive of a finished run: the directory and the files that exist. */
  function Packed(w: Manifest.Outputs): seq<Entry> {
    [Entry(OutputDirectory, false, true, 0),
     Entry(CanonicalMd, true, false, |w.canonical|),
     Entry(ManifestJson, true, false, w.manifestSize)]
    + (if w.previewSize > 0 then [Entry(PreviewPdf, true, false, w.previewSize)] else [])
    + (if w.workbookSize > 0 then [Entry(WorkbookJson, true, false, w.workbookSize)] else [])
  }

  /** The output the worker declares for those files; digests are of what it read. */
  function Declared(id: string, w: Manifest.Outputs, canonicalSha: Digest, previewSha: Digest,
                      workbookSha: Digest): Output
  {
    Output(id, |w.canonical|, canonicalSha,
           w.previewSize, if w.previewSize > 0 then Some(previewSha) else None,
           w.workbookSize, if w.workbookSize > 0 then Some(workbookSha) else None, w.manifest)
  }

  lemma PackedPayload(w: Manifest.Outputs)
    ensures Payload(Packed(w)) == |w.canonical| + w.previewSize + w.workbookSize
  {
    var files := [Entry(OutputDirectory, false, true, 0)];
    PayloadAppend([], files[0]);
    assert [] + [files[0]] == files;
    PayloadAppend(files, Entry(CanonicalMd, true, false, |w.canonical|));
    files := files + [Entry(CanonicalMd, true, false, |w.canonical|)];
    PayloadAppend(files, Entry(ManifestJson, true, false, w.manifestSize));
    files := files + [Entry(ManifestJson, true, false, w.manifestSize)];
    if w.previewSize > 0 {
      PayloadAppend(files, Entry(PreviewPdf, true, false, w.previewSize));
      files := files + [Entry(PreviewPdf, true, false, w.previewSize)];
    }
    if w.workbookSize > 0 {
      PayloadAppend(files, Entry(WorkbookJson, true, false, w.workbookSize));
      files := files + [Entry(WorkbookJson, true, false, w.workbookSize)];
    }
    assert Packed(w) == files;
  }

  /** What a run of the processor left behind, by the contract of `WriteOutputs`. */
  predicate Produced(displayName: Text, pages: seq<Manifest.PageText>, previewStat: nat, w: Manifest.Outputs) {
    var heading := Manifest.Heading(displayName);
    && Manifest.Fits(heading, pages, previewStat, w.previewSize, w.workbookSize)
    && w.canonical == Manifest.CanonicalText(heading, pages)
    && w.manifest == Manifest.Manifest("knowledge.derived_manifest.v1", |pages|, Manifest.Entries(heading, pages))
    && w.manifestSize == Manifest.ManifestSize(Manifest.Entries(heading, pages))
  }

  lemma CanonicalNotEmpty(displayName: Text, pages: seq<Manifest.PageText>)
    ensures |Manifest.CanonicalText(Manifest.Heading(displayName), pages)| > 0
  {
    hide Encode, Manifest.Sections;
    EncodeLength(Decimal.Literal("# ") + displayName + [NEWLINE, NEWLINE]);
  }

  /** Bytes of all the files a run left. */
  function FileBytes(w: Manifest.Outputs): int {
    |w.canonical| + w.previewSize + w.workbookSize + w.manifestSize
  }

  /** The chunks carry the files and at most one MiB of archive headers and padding. */
  predicate Streams(w: Manifest.Outputs, chunks: seq<nat>) {
    FileBytes(w) <= Manifest.Sum(chunks) <= FileBytes(w) + MIB
  }

  /** A finished run passes `unpack_outputs` and `validate_commit` exactly when its
      files fit the output budget together ... */
  lemma ProducedAcceptedIff(displayName: Text, pages: seq<Manifest.PageText>, previewStat: nat, w: Manifest.Outputs,
                            chunks: seq<nat>, id: string, a: Digest, b: Digest, c: Digest)
    requires Produced(displayName, pages, previewStat, w) && Streams(w, chunks)
    requires IsSha256(a) && IsSha256(b) && IsSha256(c)
    ensures Unpacks(chunks, Packed(w), Manifest.MAX_OUTPUT_BYTES) <==>
            |w.canonical| + w.previewSize + w.workbookSize <= Manifest.MAX_OUTPUT_BYTES
    ensures ValidCommit(Declared(id, w, a, b, c)) <==>
            |w.canonical| + w.previewSize + w.workbookSize <= Manifest.MAX_OUTPUT_BYTES
  {
    hide Manifest.CanonicalText, Manifest.Entries, Manifest.ManifestBytes, Manifest.Heading, IsSha256, Payload,
         Manifest.Sum;
    PackedPayload(w);
    CanonicalNotEmpty(displayName, pages);
  }

  /** ... which its own budgets give as long as the preview did not grow between
      being inspected and being copied ... */
  lemma StablePreviewIsAccepted(displayName: Text, pages: seq<Manifest.PageText>, previewStat: nat, w: Manifest.Outputs,
                                chunks: seq<nat>, id: string, a: Digest, b: Digest, c: Digest)
    requires Produced(displayName, pages, previewStat, w) && w.previewSize <= previewStat && Streams(w, chunks)
    requires IsSha256(a) && IsSha256(b) && IsSha256(c)
    ensures Unpacks(chunks, Packed(w), Manifest.MAX_OUTPUT_BYTES)
    ensures ValidCommit(Declared(id, w, a, b, c))
  {
    hide Manifest.CanonicalText, Manifest.Entries, Manifest.ManifestBytes, Manifest.Heading, IsSha256, Payload,
         Manifest.Sum;
    ProducedAcceptedIff(displayName, pages, previewStat, w, chunks, id, a, b, c);
  }

  /** ... and not otherwise: the copy is bounded by what the canonical text leaves,
      not by what the workbook needs as well. So whatever is written with a workbook can be
      refused, in any stream, after its preview has grown. */
  lemma GrowingPreviewIsRefused(displayName: Text, pages: seq<Manifest.PageText>, previewStat: nat, workbookSize: nat)
    returns (w: Manifest.Outputs)
    requires Manifest.Fits(Manifest.Heading(displayName), pages, previewStat, previewStat, workbookSize)
    requires workbookSize > 0
    ensures Produced(displayName, pages, previewStat, w)
    ensures w.workbookSize == workbookSize && w.previewSize > previewStat
    ensures forall chunks :: !Unpacks(chunks, Packed(w), Manifest.MAX_OUTPUT_BYTES)
  {
    hide Manifest.CanonicalText, Manifest.Entries, Manifest.ManifestBytes, Manifest.Heading, Payload, EntryOk,
         Manifest.Sum;
    var heading := Manifest.Heading(displayName);
    var canonical := Manifest.CanonicalText(heading, pages);
    var es := Manifest.Entries(heading, pages);
    w := Manifest.Outputs(canonical, Manifest.Manifest("knowledge.derived_manifest.v1", |pages|, es),
                          Manifest.ManifestSize(es), Manifest.MAX_OUTPUT_BYTES - |canonical|, workbookSize);
    PackedPayload(w);
  }
}
