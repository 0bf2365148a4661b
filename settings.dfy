/**
 * Settings page: page-size validation and its default, the export
 * envelope, the validate-and-merge import, and clearing the playlist.
 */
module Settings {
  import opened Records
  import opened Storage

  const DefaultPageSize: int := 5
  const MinPageSize: int := 1
  const MaxPageSize: int := 50

  /** The settings record written by a successful save. */
  datatype Settings = Settings(paginationSize: int)

  /**
   * `handleSave`'s check of `parseInt(value, 10)` (`None` is `NaN`): the
   * settings to persist, or `None` when the value is rejected and nothing is saved.
   */
  function ValidateSave(parsed: Option<int>): (r: Option<Settings>)
    ensures r.Some? <==> parsed.Some? && MinPageSize <= parsed.value <= MaxPageSize
    ensures r.Some? ==> r.value == Settings(parsed.value)
  {
    if parsed.None? || parsed.value < MinPageSize || parsed.value > MaxPageSize then None
    else Some(Settings(parsed.value))
  }

  /** `settings.paginationSize || 5`: a missing or falsy (0) stored size reads as 5. */
  function LoadedPageSize(stored: Option<int>): (size: int)
    ensures size != 0
    ensures stored.None? || stored == Some(0) ==> size == DefaultPageSize
    ensures stored.Some? && stored.value != 0 ==> size == stored.value
  {
    match stored
    case Some(n) => if n != 0 then n else DefaultPageSize
    case None => DefaultPageSize
  }

  /** The boundary values: 0, 51 and NaN are rejected; 1 and 50 are accepted. */
  lemma SaveBoundaries()
    ensures ValidateSave(Some(0)).None? && ValidateSave(Some(51)).None? && ValidateSave(None).None?
    ensures ValidateSave(Some(1)) == Some(Settings(1)) && ValidateSave(Some(50)) == Some(Settings(50))
  {
  }

  /** A size accepted by save is loaded back unchanged. */
  lemma SaveThenLoad(parsed: Option<int>)
    requires ValidateSave(parsed).Some?
    ensures LoadedPageSize(Some(ValidateSave(parsed).value.paginationSize)) == parsed.value
  {
  }

  /** The exported file: `{version, exportedAt, totalVideos, playlist}`. */
  datatype ExportFile = ExportFile(version: string, exportedAt: int, totalVideos: int, playlist: seq<VideoRecord>)

  datatype ExportResult = NothingToExport | Exported(file: ExportFile)

  /** `handleExport` on the playlist as read: refuses an empty playlist, otherwise the whole playlist and its size. */
  function ExportPlaylist(p: seq<VideoRecord>, exportedAt: int): (r: ExportResult)
    ensures r.NothingToExport? <==> p == []
    ensures r.Exported? ==> r.file.playlist == p && r.file.totalVideos == |p| && r.file.version == "1.0"
    ensures r.Exported? ==> r.file.exportedAt == exportedAt
  {
    if |p| == 0 then NothingToExport
    else Exported(ExportFile("1.0", exportedAt, |p|, p))
  }

  /** Two records are the same entry when they share both `videoId` and `addedAt`. */
  predicate SameEntry(a: VideoRecord, b: VideoRecord) {
    a.videoId == b.videoId && a.addedAt == b.addedAt
  }

  /** `existingPlaylist.some(v => v.videoId === video.videoId && v.addedAt === video.addedAt)`. */
  function AlreadyPresent(existing: seq<VideoRecord>, v: VideoRecord): (b: bool)
    ensures b <==> exists i :: 0 <= i < |existing| && SameEntry(existing[i], v)
  {
    if existing == [] then false
    else SameEntry(existing[0], v) || AlreadyPresent(existing[1..], v)
  }

  /** The imported records, in order, that no existing record duplicates. */
  function NewRecords(existing: seq<VideoRecord>, imported: seq<VideoRecord>): (r: seq<VideoRecord>)
    ensures |r| <= |imported|
  {
    if imported == [] then []
    else
      var last := imported[|imported| - 1];
      NewRecords(existing, imported[..|imported| - 1]) + (if AlreadyPresent(existing, last) then [] else [last])
  }

  /** How many imported records an existing record duplicates (the skipped count). */
  function CountPresent(existing: seq<VideoRecord>, imported: seq<VideoRecord>): (n: nat)
    ensures n + |NewRecords(existing, imported)| == |imported|
  {
    if imported == [] then 0
    else CountPresent(existing, imported[..|imported| - 1])
         + (if AlreadyPresent(existing, imported[|imported| - 1]) then 1 else 0)
  }

  /**
   * The merge loop of `handleImport`: `merged` is the existing playlist
   * followed by the new records, and `addedCount` counts them.
   */
  method MergePlaylists(existing: seq<VideoRecord>, imported: seq<VideoRecord>)
    returns (merged: seq<VideoRecord>, addedCount: nat)
    ensures merged == existing + NewRecords(existing, imported)
    ensures |merged| == |existing| + addedCount
    ensures addedCount + CountPresent(existing, imported) == |imported|
  {
    merged := existing;
    addedCount := 0;
    var i := 0;
    while i < |imported|
      invariant 0 <= i <= |imported|
      invariant merged == existing + NewRecords(existing, imported[..i])
      invariant |merged| == |existing| + addedCount
      invariant addedCount + CountPresent(existing, imported[..i]) == i
    {
      var video := imported[i];
      assert imported[..i + 1][..i] == imported[..i];
      var exists_ := AlreadyPresent(existing, video);
      if !exists_ {
        merged := merged + [video];
        addedCount := addedCount + 1;
      }
      i := i + 1;
    }
    assert imported[..i] == imported;
  }

  /**
   * A record is new exactly when no existing record shares its `videoId` and
   * `addedAt`; every new record comes from the import.
   */
  lemma {:induction false} NewRecordsMembership(existing: seq<VideoRecord>, imported: seq<VideoRecord>, v: VideoRecord)
    ensures v in NewRecords(existing, imported) <==> v in imported && !AlreadyPresent(existing, v)
  {
    if imported != [] {
      var init := imported[..|imported| - 1];
      NewRecordsMembership(existing, init, v);
      assert imported == init + [imported[|imported| - 1]];
    }
  }

  /** Filtering distributes over concatenation, so the imported order is kept. */
  lemma {:induction false} NewRecordsAppend(existing: seq<VideoRecord>, a: seq<VideoRecord>, b: seq<VideoRecord>)
    ensures NewRecords(existing, a + b) == NewRecords(existing, a) + NewRecords(existing, b)
    decreases |b|
  {
    if b == [] {
      assert a + b == a;
    } else {
      var binit := b[..|b| - 1];
      NewRecordsAppend(existing, a, binit);
      assert (a + b)[..|a + b| - 1] == a + binit;
      assert (a + b)[|a + b| - 1] == b[|b| - 1];
    }
  }

  /** Merging into an empty playlist returns the imported list exactly. */
  lemma {:induction false} MergeIntoEmpty(imported: seq<VideoRecord>)
    ensures NewRecords([], imported) == imported
    ensures CountPresent([], imported) == 0
  {
    if imported != [] {
      MergeIntoEmpty(imported[..|imported| - 1]);
      assert imported == imported[..|imported| - 1] + [imported[|imported| - 1]];
    }
  }

  /** Importing a playlist into itself adds nothing: every record duplicates itself. */
  lemma MergeIntoSelf(p: seq<VideoRecord>)
    ensures NewRecords(p, p) == []
  {
    NoNewRecords(p, p);
  }

  /** When every imported record is already present, nothing is added. */
  lemma {:induction false} NoNewRecords(existing: seq<VideoRecord>, imported: seq<VideoRecord>)
    requires forall v :: v in imported ==> AlreadyPresent(existing, v)
    ensures NewRecords(existing, imported) == []
  {
    if imported != [] {
      var init := imported[..|imported| - 1];
      assert forall v :: v in init ==> v in imported;
      NoNewRecords(existing, init);
      assert imported[|imported| - 1] in imported;
    }
  }

  /** A second import of the same file adds nothing more. */
  lemma MergeIdempotent(existing: seq<VideoRecord>, imported: seq<VideoRecord>)
    ensures NewRecords(existing + NewRecords(existing, imported), imported) == []
  {
    var merged := existing + NewRecords(existing, imported);
    forall v | v in imported ensures AlreadyPresent(merged, v) {
      if AlreadyPresent(existing, v) {
        var i :| 0 <= i < |existing| && SameEntry(existing[i], v);
        assert merged[i] == existing[i];
      } else {
        NewRecordsMembership(existing, imported, v);
        var k :| 0 <= k < |NewRecords(existing, imported)| && NewRecords(existing, imported)[k] == v;
        assert merged[|existing| + k] == v;
      }
    }
    NoNewRecords(merged, imported);
  }

  /** Two copies of the same new record in one file are both added: the check is against the existing playlist only. */
  lemma DuplicatesInOneFileKept(existing: seq<VideoRecord>, v: VideoRecord)
    requires !AlreadyPresent(existing, v)
    ensures NewRecords(existing, [v, v]) == [v, v]
  {
    assert [v, v][..1] == [v];
    assert [v][..0] == [];
  }

  /** Export, then import of that file into an empty playlist, gives the playlist back with nothing skipped. */
  lemma ExportImportRoundTrip(p: seq<VideoRecord>, exportedAt: int)
    requires p != []
    ensures ExportPlaylist(p, exportedAt).Exported?
    ensures var f := ExportPlaylist(p, exportedAt).file;
            [] + NewRecords([], f.playlist) == p && CountPresent([], f.playlist) == 0
  {
    MergeIntoEmpty(p);
  }

  /** What was read from the chosen file: none chosen, unreadable/unparsable, or parsed JSON. */
  datatype ImportInput =
    | NoFileSelected
    | Unreadable
      /** `playlist` is `None` when the field is missing or not an array. */
    | Parsed(playlist: Option<seq<VideoRecord>>)

  datatype ImportStatus = Ignored | InvalidFormat | Cancelled | Imported(added: nat, skipped: nat) | ImportFailed

  /**
   * `handleImport`. `confirmed` is the answer to the confirmation prompt. A
   * failed read of the existing playlist merges into `[]`, so the write then
   * replaces the stored playlist with the new records alone.
   */
  method HandleImport(store: PlaylistStore, input: ImportInput, confirmed: bool, readFails: bool, writeFails: bool)
    returns (status: ImportStatus)
    modifies store
    ensures input.NoFileSelected? ==> status == Ignored
    ensures input.Unreadable? ==> status == ImportFailed
    ensures input.Parsed? && input.playlist.None? ==> status == InvalidFormat
    ensures input.Parsed? && input.playlist.Some? && !confirmed ==> status == Cancelled
    ensures input.Parsed? && input.playlist.Some? && confirmed && writeFails ==> status == ImportFailed
    ensures input.Parsed? && input.playlist.Some? && confirmed && !writeFails ==> status.Imported?
    ensures !status.Imported? ==> store.stored == old(store.stored)
    ensures status.Imported? ==>
              && input.Parsed? && input.playlist.Some? && confirmed && !writeFails
              && var existing := ReadPlaylist(old(store.stored), readFails);
                 var imported := input.playlist.value;
                 && store.stored == Some(existing + NewRecords(existing, imported))
                 && status.added == |NewRecords(existing, imported)|
                 && status.skipped == CountPresent(existing, imported)
  {
    match input
    case NoFileSelected =>
      return Ignored;
    case Unreadable =>
      return ImportFailed;
    case Parsed(playlist) =>
      if playlist.None? {
        return InvalidFormat;
      }
      if !confirmed {
        return Cancelled;
      }
      var existing := store.GetPlaylist(readFails);
      var merged, addedCount := MergePlaylists(existing, playlist.value);
      var ok := store.Write(merged, writeFails);
      if !ok {
        return ImportFailed;
      }
      status := Imported(addedCount, |playlist.value| - addedCount);
  }

  datatype ClearStatus = AlreadyEmpty | ClearCancelled | Cleared | ClearFailed

  /**
   * `handleClear`: an empty playlist (as read) is reported and nothing is
   * written; otherwise, once confirmed, `[]` is written. A failed write is not
   * caught by the page (`ClearFailed`).
   */
  method HandleClear(store: PlaylistStore, confirmed: bool, readFails: bool, writeFails: bool) returns (status: ClearStatus)
    modifies store
    ensures ReadPlaylist(old(store.stored), readFails) == [] <==> status == AlreadyEmpty
    ensures status == Cleared <==> ReadPlaylist(old(store.stored), readFails) != [] && confirmed && !writeFails
    ensures status == Cleared ==> store.stored == Some([])
    ensures status != Cleared ==> store.stored == old(store.stored)
  {
    var playlist := store.GetPlaylist(readFails);
    if |playlist| == 0 {
      return AlreadyEmpty;
    }
    if !confirmed {
      return ClearCancelled;
    }
    var ok := store.Write([], writeFails);
    status := if ok then Cleared else ClearFailed;
  }
}
