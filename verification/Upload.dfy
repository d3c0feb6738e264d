/**
 * Uploading one file: a reader that counts what it hands on and stops one byte past the limit, and a
 * sequence of put, promote and row creation that either all happens or is cleaned up.
 */
module Upload {
  import opened Arithmetic
  import opened Prelude
  import opened Artifacts
  import opened LocalStore

  // ----- Reading -----

  /** What the client sends: bytes that arrive in pieces of its own choosing, and may stop arriving. */
  class ByteSource {
    const content: Bytes
    const breaksAt: Option<nat>
    const pace: nat -> nat
    var position: nat

    constructor (content: Bytes, breaksAt: Option<nat>, pace: nat -> nat)
      ensures this.content == content && this.breaksAt == breaksAt && this.pace == pace && position == 0
    {
      this.content, this.breaksAt, this.pace := content, breaksAt, pace;
      position := 0;
    }

    ghost predicate Valid()
      reads this
    {
      position <= |content|
    }

    /** How far reading can get before it ends or raises. */
    function Reach(): nat {
      if breaksAt.Some? && breaksAt.value < |content| then breaksAt.value else |content|
    }

    predicate Broken()
      reads this
    {
      breaksAt.Some? && breaksAt.value <= position
    }

    /** `read(size)`: at most `size` bytes, possibly fewer, none only at the end; or an exception. */
    method Read(size: nat) returns (r: Option<Bytes>)
      requires Valid()
      modifies this`position
      ensures Valid()
      ensures r.None? <==> old(Broken())
      ensures r.None? ==> position == old(position)
      ensures r.Some? ==> old(position) <= position <= Reach() && r.value == content[old(position)..position] && |r.value| <= size
      ensures r.Some? && size > 0 ==> (r.value == [] <==> old(position) == |content|)
    {
      if Broken() {
        return None;
      }
      var available := Min(size, Reach() - position);
      var n := if available == 0 then 0 else Min(available, if pace(position) == 0 then 1 else pace(position));
      var start := position;
      position := position + n;
      r := Some(content[start..position]);
    }
  }

  datatype ReadResult = Chunk(bytes: Bytes) | TooLarge(observed: nat) | SourceFailed

  class SizeLimitedReader {
    const source: ByteSource
    const maxSizeBytes: nat
    ghost const start: nat
    var bytesRead: nat

    constructor (source: ByteSource, maxSizeBytes: nat)
      requires source.Valid()
      ensures this.source == source && this.maxSizeBytes == maxSizeBytes && start == source.position && bytesRead == 0
      ensures Valid()
    {
      this.source, this.maxSizeBytes := source, maxSizeBytes;
      bytesRead := 0;
      start := source.position;
    }

    /** The count is exact, and at most one byte past the limit. */
    ghost predicate Valid()
      reads this, source
    {
      source.Valid() && source.position == start + bytesRead && bytesRead <= maxSizeBytes + 1
    }

    /** `read(size)`, for any size: everything handed on fits in the limit, and the first byte past it raises. */
    method Read(size: int) returns (r: ReadResult)
      requires Valid()
      modifies this`bytesRead, source`position
      ensures Valid() && old(source.position) <= source.position
      ensures size == 0 ==> r == Chunk([]) && source.position == old(source.position)
      ensures r.SourceFailed? ==> old(source.Broken()) && source.position == old(source.position)
      ensures r.TooLarge? ==>
        !old(source.Broken()) && bytesRead == r.observed == maxSizeBytes + 1 && source.position <= source.Reach()
      ensures r.Chunk? && size != 0 ==>
        && !old(source.Broken())
        && bytesRead <= maxSizeBytes && source.position <= source.Reach()
        && r.bytes == source.content[old(source.position)..source.position]
        && (size > 0 ==> |r.bytes| <= size)
        && (r.bytes == [] <==> old(source.position) == |source.content|)
    {
      if size == 0 {
        return Chunk([]);
      }
      var remainingProbe := maxSizeBytes - bytesRead + 1;
      var requestSize := if size < 0 then remainingProbe else Min(size, remainingProbe);
      var chunk := source.Read(requestSize);
      if chunk.None? {
        return SourceFailed;
      }
      bytesRead := bytesRead + |chunk.value|;
      if bytesRead > maxSizeBytes {
        return TooLarge(bytesRead);
      }
      r := Chunk(chunk.value);
    }
  }

  /** What reading a source to its end through the limit comes to. */
  function Drained(content: Bytes, breaksAt: Option<nat>, start: nat, maxSizeBytes: nat): ReadResult
    requires start <= |content|
  {
    if breaksAt.Some? && breaksAt.value <= start + maxSizeBytes && breaksAt.value <= |content| then SourceFailed
    else if |content| - start > maxSizeBytes then TooLarge(maxSizeBytes + 1)
    else Chunk(content[start..])
  }

  /**
   * A source that does not break is drained exactly when what is left of it fits in the limit, and is too large by its
   * first byte past the limit otherwise; one that breaks within reach fails.
   */
  lemma DrainsExactlyWhen(content: Bytes, breaksAt: Option<nat>, start: nat, maxSizeBytes: nat)
    requires start <= |content|
    ensures var drained, fits := Drained(content, breaksAt, start, maxSizeBytes), |content| <= start + maxSizeBytes;
            var breaks := breaksAt.Some? && breaksAt.value <= if fits then |content| else start + maxSizeBytes;
      && (drained == SourceFailed <==> breaks)
      && (drained == Chunk(content[start..]) <==> fits && !breaks)
      && (drained == TooLarge(maxSizeBytes + 1) <==> !fits && !breaks)
  {
  }

  /** Staging a payload: however it is chunked and however the source paces itself, the outcome is the same. */
  method StagePayload(reader: SizeLimitedReader, chunkSize: nat) returns (r: ReadResult)
    requires reader.Valid() && reader.bytesRead == 0 && chunkSize > 0
    modifies reader`bytesRead, reader.source`position
    ensures reader.Valid()
    ensures r == Drained(reader.source.content, reader.source.breaksAt, old(reader.source.position), reader.maxSizeBytes)
  {
    var source := reader.source;
    var staged: Bytes := [];
    while true
      invariant reader.Valid() && old(source.position) <= source.position
      invariant source.position == old(source.position) || source.position <= source.Reach()
      invariant reader.bytesRead <= reader.maxSizeBytes
      invariant staged == source.content[old(source.position)..source.position]
      decreases |source.content| - source.position
    {
      var chunk := reader.Read(chunkSize);
      if !chunk.Chunk? {
        return chunk;
      }
      if chunk.bytes == [] {
        break;
      }
      staged := staged + chunk.bytes;
    }
    r := Chunk(staged);
  }

  // ----- The upload -----

  datatype ArtifactRow = ArtifactRow(uri: string, checksum: Digest, sizeBytes: nat, contentType: Option<string>, state: ArtifactState)

  class ArtifactRepository {
    var rows: seq<ArtifactRow>

    constructor ()
      ensures rows == []
    {
      rows := [];
    }

    /** `create` stores the row or raises. */
    method Create(row: ArtifactRow, raises: bool) returns (created: bool)
      modifies this
      ensures created == !raises
      ensures rows == if created then old(rows) + [row] else old(rows)
    {
      if raises {
        return false;
      }
      rows := rows + [row];
      created := true;
    }
  }

  function StripLeft(text: string): string {
    if text != "" && Blank(text[0]) then StripLeft(text[1..]) else text
  }

  function StripRight(text: string): string {
    if text != "" && Blank(text[|text| - 1]) then StripRight(text[..|text| - 1]) else text
  }

  function NormalizedContentType(contentType: Option<string>): Option<string> {
    if contentType.None? then None
    else
      var normalized := StripRight(StripLeft(contentType.value));
      if normalized == "" then None else Some(normalized)
  }

  /** The blanks: space, tab, line feed, vertical tab, form feed, carriage return, and the four separators. */
  lemma BlanksAre(c: char)
    ensures Blank(c) <==> c as int in {0x20, 0x09, 0x0A, 0x0B, 0x0C, 0x0D, 0x1C, 0x1D, 0x1E, 0x1F}
  {
  }

  /** `text` is `inner` between blanks, and `inner` neither begins nor ends with one. */
  predicate IsStripped(text: string, inner: string, left: nat, right: nat) {
    && left <= right <= |text| && inner == text[left..right]
    && (forall i | 0 <= i < left :: Blank(text[i])) && (forall i | right <= i < |text| :: Blank(text[i]))
    && (inner != "" ==> !Blank(inner[0]) && !Blank(inner[|inner| - 1]))
  }

  lemma {:induction false} StripLeftStrips(text: string) returns (left: nat)
    ensures left <= |text| && StripLeft(text) == text[left..] && (forall i | 0 <= i < left :: Blank(text[i]))
    ensures StripLeft(text) != "" ==> !Blank(StripLeft(text)[0])
  {
    left := 0;
    if text != "" && Blank(text[0]) {
      left := StripLeftStrips(text[1..]);
      left := left + 1;
    }
  }

  lemma {:induction false} StripRightStrips(text: string) returns (right: nat)
    ensures right <= |text| && StripRight(text) == text[..right] && (forall i | right <= i < |text| :: Blank(text[i]))
    ensures StripRight(text) != "" ==> !Blank(StripRight(text)[|StripRight(text)| - 1])
  {
    right := |text|;
    if text != "" && Blank(text[|text| - 1]) {
      right := StripRightStrips(text[..|text| - 1]);
      assert text[..|text| - 1][..right] == text[..right];
    }
  }

  /** Stripping a text has one result. */
  lemma StrippedIsUnique(text: string, a: string, i: nat, j: nat, b: string, k: nat, l: nat)
    requires IsStripped(text, a, i, j) && IsStripped(text, b, k, l)
    ensures a == b
  {
    if a != "" && b != "" {
      assert a[0] == text[i] && b[0] == text[k] && a[|a| - 1] == text[j - 1] && b[|b| - 1] == text[l - 1];
    }
  }

  /** A content type is kept without the blanks around it, and dropped when there is nothing else; none stays none. */
  lemma ContentTypeIsStripped(contentType: Option<string>)
    ensures contentType.None? ==> NormalizedContentType(contentType) == None
    ensures contentType.Some? && (forall c | c in contentType.value :: Blank(c)) ==> NormalizedContentType(contentType) == None
    ensures contentType.Some? && (exists c | c in contentType.value :: !Blank(c)) ==>
      && NormalizedContentType(contentType).Some? && NormalizedContentType(contentType).value != ""
      && exists left: nat, right: nat :: IsStripped(contentType.value, NormalizedContentType(contentType).value, left, right)
  {
    if contentType.Some? {
      var text := contentType.value;
      var left := StripLeftStrips(text);
      var right := StripRightStrips(StripLeft(text));
      var inner := StripRight(StripLeft(text));
      assert IsStripped(text, inner, left, left + right) by {
        assert inner == text[left..left + right];
        assert forall i | left + right <= i < |text| :: text[i] == StripLeft(text)[i - left];
        if inner != "" {
          assert inner[0] == StripLeft(text)[0];
        }
      }
      if c :| c in text && !Blank(c) {
        var i :| 0 <= i < |text| && text[i] == c;
        assert left <= i < left + right;
      }
      if inner != "" {
        assert inner[0] in text;
      }
    }
  }

  /** After how many of its two file operations each store call raises (3 or more: it does not), and whether `create` raises. */
  datatype Faults = Faults(put: nat, promote: nat, create: bool, deleteTemporary: nat, deleteReady: nat)
  {
    /** Both deletes get through their file operations. */
    predicate DeletesWork() { deleteTemporary >= 2 && deleteReady >= 2 }
  }

  datatype UploadError = InvalidSizeHint | UploadTooLarge(observed: nat) | SourceRaised | StoreRaised | RepositoryRaised

  datatype UploadedArtifact = UploadedArtifact(row: ArtifactRow, stat: ArtifactStat)

  /** Why an upload fails: the first thing that goes wrong, if anything does. */
  function Failure(sizeHint: Option<int>, maxSizeBytes: nat, drained: ReadResult, faults: Faults): Option<UploadError> {
    if sizeHint.Some? && sizeHint.value < 0 then Some(InvalidSizeHint)
    else if sizeHint.Some? && sizeHint.value > maxSizeBytes then Some(UploadTooLarge(sizeHint.value))
    else if drained.TooLarge? then Some(UploadTooLarge(drained.observed))
    else if drained.SourceFailed? then Some(SourceRaised)
    else if faults.put <= 2 || faults.promote <= 2 then Some(StoreRaised)
    else if faults.create then Some(RepositoryRaised)
    else None
  }

  /** An upload succeeds exactly when the hint, if any, is in range, the source can be drained and no call raises. */
  lemma UploadFailsExactlyWhen(sizeHint: Option<int>, maxSizeBytes: nat, drained: ReadResult, faults: Faults)
    ensures var failure, hinted := Failure(sizeHint, maxSizeBytes, drained, faults), sizeHint.None? || 0 <= sizeHint.value <= maxSizeBytes;
      && (failure.None? <==> hinted && drained.Chunk? && faults.put > 2 && faults.promote > 2 && !faults.create)
      && (failure == Some(InvalidSizeHint) <==> sizeHint.Some? && sizeHint.value < 0)
      && (sizeHint.Some? && sizeHint.value > maxSizeBytes ==> failure == Some(UploadTooLarge(sizeHint.value)))
      && (hinted && drained.TooLarge? ==> failure == Some(UploadTooLarge(drained.observed)))
      && (failure == Some(SourceRaised) <==> hinted && drained.SourceFailed?)
      && (failure == Some(StoreRaised) <==> hinted && drained.Chunk? && (faults.put <= 2 || faults.promote <= 2))
      && (failure == Some(RepositoryRaised) <==> hinted && drained.Chunk? && faults.put > 2 && faults.promote > 2 && faults.create)
  {
  }

  class UploadService {
    const store: LocalArtifactStore
    const repository: ArtifactRepository
    const maxSizeBytes: nat

    constructor (store: LocalArtifactStore, repository: ArtifactRepository, maxSizeBytes: nat)
      ensures this.store == store && this.repository == repository && this.maxSizeBytes == maxSizeBytes
    {
      this.store, this.repository, this.maxSizeBytes := store, repository, maxSizeBytes;
    }

    /** `_cleanup`: both deletes are attempted, whatever the first one does. */
    method Cleanup(key: string, faults: Faults)
      modifies store
      ensures faults.DeletesWork() ==> store.FilesOf(key) == NO_FILES
      ensures store.OnlyChanges(key)
    {
      ghost var before := store.FilesOf(key);
      var temporary := store.Delete(TemporaryRef(key), faults.deleteTemporary);
      ghost var between := store.FilesOf(key);
      var ready := store.Delete(ReadyRef(key), faults.deleteReady);
      ExecUnfolds(before, Operation.Delete(Temporary), faults.deleteTemporary);
      ExecUnfolds(between, Operation.Delete(Ready), faults.deleteReady);
    }

    /** The guarded part: put, promote, create. */
    method PutPromoteCreate(reader: SizeLimitedReader, key: string, contentType: Option<string>, chunkSize: nat, faults: Faults)
      returns (r: Result<UploadedArtifact, UploadError>)
      requires reader.Valid() && reader.bytesRead == 0 && reader.maxSizeBytes == maxSizeBytes && chunkSize > 0
      requires store.FilesOf(key) == NO_FILES
      modifies reader`bytesRead, reader.source`position, store, repository
      ensures reader.Valid()
      ensures var drained := Drained(reader.source.content, reader.source.breaksAt, old(reader.source.position), maxSizeBytes);
        && (r.Ok? <==> Failure(None, maxSizeBytes, drained, faults).None?)
        && (r.Err? ==> Failure(None, maxSizeBytes, drained, faults) == Some(r.error))
      ensures r.Ok? ==> Stored(reader.source.content[old(reader.source.position)..], key, contentType, r.value)
      ensures repository.rows == if r.Ok? then old(repository.rows) + [r.value.row] else old(repository.rows)
      ensures store.OnlyChanges(key)
    {
      var staged := StagePayload(reader, chunkSize);
      if staged.TooLarge? {
        return Err(UploadTooLarge(staged.observed));
      }
      if staged.SourceFailed? {
        return Err(SourceRaised);
      }
      var put := store.Put(TemporaryRef(key), staged.bytes, contentType, faults.put);
      ExecUnfolds(NO_FILES, Operation.Put(staged.bytes, contentType), faults.put);
      if !put.Finished? {
        return Err(StoreRaised);
      }
      var promoted := store.Promote(TemporaryRef(key), faults.promote);
      ExecUnfolds(Files(Some(staged.bytes), Some(Sidecared(staged.bytes, contentType)), None, None), Operation.Promote, faults.promote);
      if !promoted.Finished? {
        return Err(StoreRaised);
      }
      var stat := promoted.value;
      var row := ArtifactRow("artifact://" + stat.ref.key, stat.checksum, stat.sizeBytes, stat.contentType, Ready);
      var created := repository.Create(row, faults.create);
      r := if created then Ok(UploadedArtifact(row, stat)) else Err(RepositoryRaised);
    }

    /** The ready blob is the payload, nothing is left temporary, and the row and the stat describe it. */
    ghost predicate Stored(payload: Bytes, key: string, contentType: Option<string>, uploaded: UploadedArtifact)
      reads store
    {
      && store.FilesOf(key) == Files(None, None, Some(payload), Some(Sidecared(payload, contentType)))
      && uploaded.stat == Describe(ReadyRef(key), payload, contentType)
      && uploaded.row == ArtifactRow("artifact://" + key, Sha256(payload), |payload|, contentType, Ready)
    }

    /**
     * All or nothing, under a fresh key: the whole source is stored, ready, with one row that describes it,
     * exactly when nothing goes wrong; otherwise there is no row, and, deletes working, no blob either. Never
     * more than one byte past the limit is taken from the source.
     */
    method Upload(source: ByteSource, key: string, contentType: Option<string>, sizeHint: Option<int>, chunkSize: nat, faults: Faults)
      returns (r: Result<UploadedArtifact, UploadError>)
      requires source.Valid() && chunkSize > 0
      requires store.FilesOf(key) == NO_FILES
      modifies source`position, store, repository
      ensures var drained := Drained(source.content, source.breaksAt, old(source.position), maxSizeBytes);
        && (r.Ok? <==> Failure(sizeHint, maxSizeBytes, drained, faults).None?)
        && (r.Err? ==> Failure(sizeHint, maxSizeBytes, drained, faults) == Some(r.error))
      ensures r.Ok? ==> Stored(source.content[old(source.position)..], key, NormalizedContentType(contentType), r.value)
      ensures r.Ok? ==>
        && r.value.row.uri == "artifact://" + key && r.value.row.state == Ready && r.value.row.sizeBytes == r.value.stat.sizeBytes <= maxSizeBytes
        && r.value.row.checksum == r.value.stat.checksum == Sha256(source.content[old(source.position)..])
        && r.value.row.contentType == r.value.stat.contentType == NormalizedContentType(contentType) && r.value.stat.ref == ReadyRef(key)
      ensures r.Err? && faults.DeletesWork() ==> store.FilesOf(key) == NO_FILES
      ensures repository.rows == if r.Ok? then old(repository.rows) + [r.value.row] else old(repository.rows)
      ensures store.OnlyChanges(key)
      ensures old(source.position) <= source.position <= old(source.position) + maxSizeBytes + 1
    {
      if sizeHint.Some? {
        if sizeHint.value < 0 {
          return Err(InvalidSizeHint);
        }
        if sizeHint.value > maxSizeBytes {
          return Err(UploadTooLarge(sizeHint.value));
        }
      }
      var limited := new SizeLimitedReader(source, maxSizeBytes);
      r := PutPromoteCreate(limited, key, NormalizedContentType(contentType), chunkSize, faults);
      if r.Err? {
        Cleanup(key, faults);
      }
    }
  }
}
