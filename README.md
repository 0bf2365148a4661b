# Patreon YouTube playlist extension — a Dafny model of its core

The extension finds YouTube links in Patreon messages and puts an "Add to Playlist" button after each one. The records it adds go into a single playlist in the browser's local storage. A popup shows that playlist split into unseen and seen videos, sorted newest first, five per page. A settings page validates the page size and exports, imports and clears the playlist.

This project models the sequential core of that behaviour and proves what it promises:

- `records.dfy` (module `Records`): the `VideoRecord` entity, with `seenAt` as `Option<int>` and timestamps as integers, and an `Option` type.
- `youtube.dfy` (module `YouTube`): the URL classifier, as pure functions over strings.
  - `extractVideoId` is a leftmost match with a greedy capture for each of its four regular expressions. The patterns are tried in order and the first one that matches wins.
  - `isYouTubeUrl` is a containment test for two host names.
- `storage.dfy` (module `Storage`): the playlist store.
  - It is a class whose field is the stored value.
  - Each operation reads the whole playlist, changes it and writes it back.
  - The operations are specified by pure functions: filter-by-id, find-first-and-set-`seenAt`, and an existence query.
- `settings.dfy` (module `Settings`):
  - page-size validation and its default;
  - the export envelope;
  - the import merge, as a loop with its invariants, proved against a filter function;
  - import and clear, run against the store.
- `viewer.dfy` (module `Viewer`):
  - the popup's partition into unseen and seen records;
  - the newest-first sort, by insertion;
  - JavaScript `slice` pagination;
  - the previous/next controls;
  - the two page cursors, as a class;
  - the card handlers.
- `detector.dfy` (module `Detector`), the content script:
  - the processed-anchor set and the scan loop, proved against a recursive specification of one pass;
  - the choice of a button's initial label;
  - the click state machine of a button;
  - the duplicate prompt;
  - the rescan trigger of the mutation observer.

Environment behaviour becomes parameters:

- A storage read or write that throws: `readFails` and `writeFails`.
- The current time: `now` and `exportedAt`.
- The generated record id: `freshId`.
- The metadata lookup's answer: `meta`.
- The user's answer to a confirmation: `confirmed`.

A failed read behaves as the source's `getPlaylist` does: it is swallowed and reads as `[]`. So an add, import or remove after a failed read writes a playlist built from `[]`, which replaces whatever was stored, and the contracts say so. A failed write stores nothing.

## Model

| member | source | states |
|---|---|---|
| YouTube.IdRunLength | utils/youtube.js:14-17 | the greedy `[^&?\s]+` run: every character in it is allowed, and it ends at the end of the input or before a `&`, `?` or white-space character |
| YouTube.FindMatch | utils/youtube.js:21 | the leftmost index where the marker is followed by an allowed character; no earlier index matches; `None` only when no index matches |
| YouTube.MatchPattern | utils/youtube.js:21-22 | one pattern yields no capture exactly when no position has its marker followed by an allowed character |
| YouTube.MatchPatternCapture | utils/youtube.js:14-23 | a capture is a non-empty, maximal run of allowed characters, directly after the marker at its leftmost match |
| YouTube.FirstMatch | utils/youtube.js:20-27 | the result is null exactly when every pattern fails; otherwise it is the capture of the first pattern, in order, that matches |
| YouTube.ExtractVideoId | utils/youtube.js:10-11 | empty input yields null |
| YouTube.ExtractVideoIdSound | utils/youtube.js:13-25 | a non-null id is a maximal run of allowed characters after one of the four markers, and it comes from the first pattern that matches |
| YouTube.ExtractVideoIdNone | utils/youtube.js:20-27 | null exactly when no marker is followed by at least one allowed character |
| YouTube.WatchPatternWins | utils/youtube.js:13-25 | whenever the `watch?v=` pattern matches, its capture is the result |
| YouTube.WatchBeatsShortLink | utils/youtube.js:14-15 | a string with a `youtu.be/` link before a `watch?v=` URL yields the `watch?v=` id |
| YouTube.MobileMatchIsWatchMatch | utils/youtube.js:14-17 | every mobile-watch match is a watch match two characters later, with the same capture start |
| YouTube.MobilePatternNeverDecides | utils/youtube.js:13-25 | the result equals the first-match search over the first three patterns: the fourth never decides |
| YouTube.ContainsFrom | utils/youtube.js:38 | true exactly when the substring occurs at or after the given index |
| YouTube.IsYouTubeUrl | utils/youtube.js:35-38 | false for empty input; otherwise true exactly when `youtube.com` or `youtu.be` occurs anywhere |
| YouTube.MatchContainsHost | utils/youtube.js:13-38 | wherever one of the four patterns matches, the string contains one of the two host names, so it passes the YouTube URL test |
| YouTube.ExtractImpliesYouTubeUrl | utils/youtube.js:10-38 | a non-null video id implies the URL is recognised as a YouTube URL |
| Storage.ReadPlaylist | utils/storage.js:9-16 | a failed read or a missing `playlist` key gives `[]`; otherwise the stored sequence |
| Storage.WithoutId | utils/storage.js:44 | the filtered playlist holds exactly the records of other ids |
| Storage.WithoutIdCounts | utils/storage.js:44 | each record of another id keeps its multiplicity; records of the removed id are all gone |
| Storage.WithoutIdAppend | utils/storage.js:44 | filtering distributes over concatenation, so the relative order of the rest is kept |
| Storage.WithoutIdAbsent | utils/storage.js:44-46 | removing an id that no record carries writes back the same playlist (and still reports success) |
| Storage.WithoutIdKeepsUnique | utils/storage.js:44 | filtering keeps record ids unique |
| Storage.FindById | utils/storage.js:61 | the index of the first record with the id, or `None` when no record has it |
| Storage.SetSeenAt | utils/storage.js:61-67 | nothing to write exactly when no record has the id; otherwise only the first record with the id changes, and only in `seenAt` |
| Storage.HasVideoId | utils/storage.js:107 | true exactly when some record has this `videoId` |
| Storage.SetSeenAtKeepsIds | utils/storage.js:61-64 | setting `seenAt` changes no id, so the same record stays first with the id |
| Storage.SeenThenUnseen | utils/storage.js:58-97 | marking seen then unseen is marking unseen; it restores the playlist when the record was unseen before |
| Storage.UnseenIdempotent | utils/storage.js:81-92 | marking unseen twice equals marking unseen once |
| Storage.OperationsKeepIdsUnique | utils/storage.js:24-97 | appending a record with a fresh id, removing, and setting `seenAt` keep record ids unique |
| Storage.PlaylistStore.GetPlaylist | utils/storage.js:9-16 | the stored sequence, or `[]` when the key is unset or the read fails |
| Storage.PlaylistStore.Write | utils/storage.js:28 | a successful write stores the playlist; a failing one stores nothing and reports failure |
| Storage.PlaylistStore.AddVideo | utils/storage.js:24-34 | on success stores the playlist as read plus the record at the end; length grows by one and the old elements keep their places; after a failed read only `[video]` is stored |
| Storage.PlaylistStore.RemoveVideo | utils/storage.js:41-51 | on success stores the playlist without the id's records; success does not depend on a match |
| Storage.PlaylistStore.MarkAsSeen | utils/storage.js:58-74 | true and written exactly when a record has the id and the write succeeds; otherwise nothing changes |
| Storage.PlaylistStore.MarkAsUnseen | utils/storage.js:81-97 | the same for `seenAt := null` |
| Storage.PlaylistStore.IsVideoInPlaylist | utils/storage.js:104-112 | true exactly when some record as read has this `videoId`; false when the read fails |
| Settings.ValidateSave | settings/settings.js:44-56 | accepts exactly an integer in [1, 50], and writes exactly `{paginationSize: value}` |
| Settings.SaveBoundaries | settings/settings.js:48 | 0, 51 and NaN are rejected; 1 and 50 are accepted |
| Settings.LoadedPageSize | settings/settings.js:25-28 | a missing or zero size loads as 5; any other stored size loads as itself |
| Settings.SaveThenLoad | settings/settings.js:25-56 | a saved size loads back unchanged |
| Settings.ExportPlaylist | settings/settings.js:68-82 | refuses exactly the empty playlist; otherwise version `"1.0"`, the whole playlist, and `totalVideos` equal to its length |
| Settings.AlreadyPresent | settings/settings.js:137-139 | true exactly when an existing record has the same `videoId` and `addedAt` |
| Settings.NewRecords | settings/settings.js:132-145 | never more new records than imported ones |
| Settings.MergePlaylists | settings/settings.js:132-145 | merged = existing, unchanged, followed by the imported records that are not duplicates; the length is existing plus added; added + skipped = imported |
| Settings.NewRecordsMembership | settings/settings.js:135-144 | a record is added exactly when it is imported and has no duplicate among the existing records |
| Settings.NewRecordsAppend | settings/settings.js:135-145 | the merge keeps the imported order |
| Settings.MergeIntoEmpty | settings/settings.js:132-145 | merging into an empty playlist returns the imported list exactly, with nothing skipped |
| Settings.NoNewRecords | settings/settings.js:135-145 | when every imported record is already present, nothing is added |
| Settings.MergeIntoSelf | settings/settings.js:137-139 | importing a playlist into itself adds nothing |
| Settings.MergeIdempotent | settings/settings.js:129-148 | a second import of the same file adds nothing more |
| Settings.DuplicatesInOneFileKept | settings/settings.js:137 | two copies of a new record in one file are both added |
| Settings.ExportImportRoundTrip | settings/settings.js:68-145 | exporting then importing into an empty playlist gives the playlist back, skipping nothing |
| Settings.HandleImport | settings/settings.js:104-158 | no file: ignored; unreadable: failure; missing or non-array `playlist`: rejected; not confirmed: cancelled; and none of these write. Otherwise the import succeeds exactly when the write succeeds: the merge of the playlist as read is written, with counts of added and skipped records |
| Settings.CountPresent | settings/settings.js:151 | the skipped count: the records added and the records skipped together number the imported records |
| Settings.HandleClear | settings/settings.js:163-180 | an empty playlist is reported and nothing is written; otherwise `[]` is written exactly when confirmed and the write succeeds |
| Viewer.Unseen | popup/playlist.js:37 | every unseen record has no `seenAt` |
| Viewer.Seen | popup/playlist.js:38 | every seen record has `seenAt` |
| Viewer.PartitionIsPermutation | popup/playlist.js:37-42 | the two partitions together are a permutation of the playlist, and their counts sum to its length |
| Viewer.Insert | popup/playlist.js:73-77 | inserting into a newest-first sequence keeps it newest first and adds exactly one element |
| Viewer.SortNewestFirst | popup/playlist.js:73-77 | the result is a permutation, with keys non-increasing: `seenAt` for seen records, `addedAt` for unseen ones |
| Viewer.TotalPages | popup/playlist.js:80 | `ceil(n/5)`: the fewest pages of five that hold n records |
| Viewer.SliceIndex | popup/playlist.js:83 | how `slice` reads an index: within [0, n], and an in-range index is kept |
| Viewer.PageContents | popup/playlist.js:80-83 | page p shows the sorted records at indices [(p-1)*5, min(p*5, n)): one to five records on a real page, none past the last page |
| Viewer.PagesFromSuffix | popup/playlist.js:80-83 | pages p onwards, concatenated, are the sorted partition from index (p-1)*5 on |
| Viewer.PagesCoverPartition | popup/playlist.js:80-83 | pages 1..totalPages, concatenated, give back the sorted partition |
| Viewer.TwelveRecords | popup/playlist.js:80-83 | 12 records make 3 pages, and page 3 holds items 11 and 12 |
| Viewer.JsSlice | popup/playlist.js:83 | `Array.prototype.slice` on non-negative bounds: the sub-sequence when the bounds are in range, clipped at the end, empty when the start is past the end; never longer than the input, and only its elements |
| Viewer.PageItems | popup/playlist.js:80-83 | a page holds at most five records, all from the sorted partition |
| Viewer.RenderPartition | popup/playlist.js:56-106 | empty state exactly for an empty partition; a listing shows at most five of the partition's records; controls only with more than one page |
| Viewer.RenderPartitionSpec | popup/playlist.js:56-106 | empty state exactly for an empty partition; controls exactly when there are more than five records; previous disabled exactly on page 1 and next exactly on the last page; the cards are the page's slice of the sorted partition |
| Viewer.StaleCursor | popup/playlist.js:80-106 | a cursor past the last page shows no cards, and its next control stays enabled |
| Viewer.PlaylistViewer.constructor | popup/playlist.js:13-14 | both cursors start at page 1 |
| Viewer.PlaylistViewer.LoadAndRender | popup/playlist.js:33-47 | counts of unseen and seen records that sum to the playlist's length; each partition rendered at its own cursor |
| Viewer.PlaylistViewer.PressPrevious | popup/playlist.js:259-267 | an enabled press moves only its own partition's cursor, back by one; cursors stay at least 1 |
| Viewer.PlaylistViewer.PressNext | popup/playlist.js:278-286 | an enabled press moves only its own partition's cursor, forward by one; a cursor within the pages stays within them |
| Viewer.HandleVideoClick | popup/playlist.js:173-181 | opening a card marks its record seen only when it was unseen |
| Viewer.HandleToggleSeen | popup/playlist.js:200-206 | a seen record is marked unseen and an unseen one seen |
| Viewer.HandleRemoveVideo | popup/playlist.js:187-193 | the record is removed only after confirmation |
| Detector.WithVideoId | content/detector.js:52 | exactly the records with this `videoId` |
| Detector.AnyWatched | content/detector.js:54 | true exactly when some record has a `seenAt` |
| Detector.InitialLabel | content/detector.js:52-70 | "Already watched" exactly when some record of the video is seen; "In Playlist" exactly when some record has the video and none of them is seen; "Add" exactly when none has it |
| Detector.CaptionAfterAdd | content/detector.js:52-70 | after an unseen record of a video is added, its button starts as "In Playlist", or stays "Already watched" |
| Detector.ButtonFor | content/detector.js:46-77 | at most one button, for this anchor, and none exactly when no video id can be extracted from its `href` |
| Detector.YouTubeAnchors | content/detector.js:34-35 | exactly the anchors of the page whose `href` is a YouTube URL |
| Detector.Scan | content/detector.js:28-38 | one pass injects no more buttons than the page has links |
| Detector.ScanComplete | content/detector.js:28-36 | every anchor of the page not yet processed, whose `href` is a YouTube URL with an extractable id, gets its button in the pass, carrying that id, the `href` and the label chosen from the playlist |
| Detector.ScanAnchors | content/detector.js:28-38 | every button of a pass belongs to a YouTube anchor of the page that was not yet processed |
| Detector.ScanButtons | content/detector.js:46-77 | every button carries the id extracted from its anchor's `href`, that `href` as its URL, and the label chosen from the playlist |
| Detector.ScanOneButtonPerAnchor | content/detector.js:28-38 | within one pass no anchor gets two buttons |
| Detector.LaterPassSkipsProcessed | content/detector.js:30-35 | a later pass never injects a button for an anchor an earlier pass processed |
| Detector.YouTubeAnchorWithoutId | content/detector.js:34-48 | a YouTube anchor with no extractable id is still marked processed, and gets no button |
| Detector.LinkDetector.constructor | content/detector.js:7 | the processed set starts empty |
| Detector.LinkDetector.ProcessLinks | content/detector.js:25-39 | exactly the YouTube anchors of the page are added to the processed set, and the buttons injected are one pass of the scan, so by `Detector.ScanComplete` every new YouTube anchor with a video id gets its button |
| Detector.ShouldRescan | content/detector.js:295-302 | true exactly when some mutation record added nodes |
| Detector.LinkDetector.OnMutations | content/detector.js:294-307 | a rescan happens exactly when some mutation record added nodes; otherwise nothing changes |
| Detector.PromptAnswer | content/detector.js:237-253 | still open exactly while only clicks inside the dialog happened; true exactly when the confirm button is the first resolving click |
| Detector.PlaylistButton.constructor | content/detector.js:73-77 | the button carries the video id, the URL and the chosen label, and is enabled |
| Detector.NewRecord | content/detector.js:137-146 | the new record carries the fresh id, the URL, the video id, the metadata fields and the current time, and is unseen |
| Detector.PlaylistButton.HandleClick | content/detector.js:119-171 | only an enabled button takes a click; declined exactly for a duplicate that the user does not confirm, and then nothing changes. Otherwise the button is disabled and the unseen record with the fresh id, URL and video id is appended. Success shows "In Playlist"; failure shows "Error" and leaves the button disabled |
| Detector.PlaylistButton.ResetAfterError | content/detector.js:165-169 | applies only to a button disabled with "Error"; it shows "Add" again and is enabled |

## Left out

- `fetchVideoMetadata` (utils/youtube.js) is a network request. Its answer, or its fallback fields, is the `meta` parameter of `Detector.PlaylistButton.HandleClick`.
- `generateUniqueId` draws on the clock and a random source. The id is the `freshId` parameter, and uniqueness of ids is a precondition of `Storage.OperationsKeepIdsUnique`, not a guarantee.
- Timestamps are integers. The source keeps ISO date strings and compares them with `===` for the import's duplicate check, and through `new Date` for sorting. Integer equality and order stand for both.
- `formatDate`, `escapeHtml`, card and modal markup, colours, hover effects, notifications and status messages are presentation. They are not modelled.
- `JSON.parse`, `file.text()`, the Blob download and `browser.tabs.create` are not modelled. The import takes an already parsed optional sequence, and a parse failure is the `Unreadable` input.
- Imported entries are assumed to be well-formed records. The source checks only that `playlist` is an array.
- `getSettings` and `saveSettings` are defined in none of the modelled files. The save is modelled up to the settings value it would write, and the load from the stored size.
- `parseInt` is not modelled. The save takes the parsed value, with `None` for NaN.
- The browser storage change listener, `MutationObserver` registration, `setTimeout` delays and interleaving between asynchronous operations are not modelled. This includes the lost update when two read-modify-write operations overlap. Each operation is modelled as one uninterrupted step.
- Within one scan, `addPlaylistButton` re-reads the playlist for every anchor. The model labels a pass against one playlist value, which is what a pass sees when nothing else writes meanwhile.
- The processed set is a weak set. Garbage collection of removed anchors is not modelled.
- The viewer always pages by five and ignores the saved page size. The model keeps this.
- The detector tests `seenAt !== null`, while the viewer tests truthiness. With `seenAt` as `Option<int>` the two coincide. An imported record whose `seenAt` is missing rather than null would differ in the source.
- YouTube.ExtractVideoId: a null or undefined URL is not representable, since the input is a string. The only caller passes the `href` of an `a[href]` element, which is always a string.
- Storage.PlaylistStore.MarkAsSeen: the time `now` is a parameter with no constraint, so the model does not state that `seenAt` is not before `addedAt`. The source does not ensure it either: the clock can go back, and imported records carry any `addedAt`.
- Strings are sequences of Unicode characters rather than UTF-16 code units.
- Viewer.SortNewestFirst: states sortedness and permutation, not the order among records with equal keys.
- Storage.PlaylistStore.Write: a failing write is taken to store nothing. The storage API gives no such guarantee.
- Settings.HandleClear: the page does not catch a failing write. The model reports it as `ClearFailed` and leaves the store unchanged.
