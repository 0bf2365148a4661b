/**
 * Playlist viewer (the popup): the playlist is split into unseen and seen
 * records, each part is sorted newest first and shown a page of five at a
 * time, each with its own page cursor.
 */
module Viewer {
  import opened Records
  import opened Storage

  /** The popup's fixed page size (the saved setting is not consulted). */
  const ItemsPerPage: nat := 5

  /** `playlist.filter(video => !video.seenAt)`. */
  function Unseen(p: seq<VideoRecord>): (r: seq<VideoRecord>)
    ensures forall v :: v in r ==> v.seenAt.None?
  {
    if p == [] then []
    else (if p[0].seenAt.None? then [p[0]] else []) + Unseen(p[1..])
  }

  /** `playlist.filter(video => video.seenAt)`. */
  function Seen(p: seq<VideoRecord>): (r: seq<VideoRecord>)
    ensures forall v :: v in r ==> v.seenAt.Some?
  {
    if p == [] then []
    else (if p[0].seenAt.Some? then [p[0]] else []) + Seen(p[1..])
  }

  /** The two partitions together are a permutation of the playlist. */
  lemma {:induction false} PartitionIsPermutation(p: seq<VideoRecord>)
    ensures multiset(Unseen(p)) + multiset(Seen(p)) == multiset(p)
    ensures |Unseen(p)| + |Seen(p)| == |p|
  {
    if p != [] {
      PartitionIsPermutation(p[1..]);
      assert p == [p[0]] + p[1..];
    }
  }

  /** The timestamp a partition is sorted by: `seenAt` for seen records (null reads as 0), `addedAt` for unseen ones. */
  function SortKey(v: VideoRecord, isSeen: bool): int {
    if isSeen then v.seenAt.GetOr(0) else v.addedAt
  }

  /** Newest first: the keys do not increase along the sequence. */
  ghost predicate SortedNewestFirst(s: seq<VideoRecord>, isSeen: bool) {
    forall i, j :: 0 <= i < j < |s| ==> SortKey(s[i], isSeen) >= SortKey(s[j], isSeen)
  }

  /** Insert `x` into a newest-first sequence, ahead of the records with the same key. */
  function Insert(x: VideoRecord, s: seq<VideoRecord>, isSeen: bool): (r: seq<VideoRecord>)
    requires SortedNewestFirst(s, isSeen)
    ensures SortedNewestFirst(r, isSeen)
    ensures multiset(r) == multiset(s) + multiset{x}
    ensures |r| == |s| + 1 && (r[0] == x || (s != [] && r[0] == s[0]))
  {
    if s == [] || SortKey(s[0], isSeen) <= SortKey(x, isSeen) then
      SortedCons(x, s, isSeen);
      [x] + s
    else
      SortedTail(s, isSeen);
      var rest := Insert(x, s[1..], isSeen);
      InsertBehindHead(x, s, rest, isSeen);
      [s[0]] + rest
  }

  /** Putting the head back in front of the tail with `x` inserted keeps the order and the contents. */
  lemma InsertBehindHead(x: VideoRecord, s: seq<VideoRecord>, rest: seq<VideoRecord>, isSeen: bool)
    requires s != [] && SortedNewestFirst(s, isSeen) && SortKey(x, isSeen) < SortKey(s[0], isSeen)
    requires SortedNewestFirst(rest, isSeen) && multiset(rest) == multiset(s[1..]) + multiset{x}
    requires |rest| == |s| && (rest[0] == x || (|s| > 1 && rest[0] == s[1]))
    ensures SortedNewestFirst([s[0]] + rest, isSeen)
    ensures multiset([s[0]] + rest) == multiset(s) + multiset{x}
  {
    SortedCons(s[0], rest, isSeen);
    assert s == [s[0]] + s[1..];
  }

  /** A record no older than the head of a newest-first sequence can go in front of it. */
  lemma SortedCons(y: VideoRecord, t: seq<VideoRecord>, isSeen: bool)
    requires SortedNewestFirst(t, isSeen)
    requires t == [] || SortKey(t[0], isSeen) <= SortKey(y, isSeen)
    ensures SortedNewestFirst([y] + t, isSeen)
  {
    var u := [y] + t;
    forall i, j | 0 <= i < j < |u| ensures SortKey(u[i], isSeen) >= SortKey(u[j], isSeen) {
      assert u[j] == t[j - 1];
      if i == 0 {
        assert SortKey(t[0], isSeen) >= SortKey(t[j - 1], isSeen);
      } else {
        assert u[i] == t[i - 1];
      }
    }
  }

  lemma SortedTail(s: seq<VideoRecord>, isSeen: bool)
    requires s != [] && SortedNewestFirst(s, isSeen)
    ensures SortedNewestFirst(s[1..], isSeen)
  {
    forall i, j | 0 <= i < j < |s| - 1 ensures SortKey(s[1..][i], isSeen) >= SortKey(s[1..][j], isSeen) {
      assert s[1..][i] == s[i + 1] && s[1..][j] == s[j + 1];
    }
  }

  /** The `sort` of `renderVideos`: newest first by the partition's key. */
  function SortNewestFirst(s: seq<VideoRecord>, isSeen: bool): (r: seq<VideoRecord>)
    ensures SortedNewestFirst(r, isSeen)
    ensures multiset(r) == multiset(s)
    ensures |r| == |s|
  {
    if s == [] then []
    else
      assert s == [s[0]] + s[1..];
      Insert(s[0], SortNewestFirst(s[1..], isSeen), isSeen)
  }

  /** `Math.ceil(n / 5)`. */
  function TotalPages(n: nat): (t: nat)
    ensures n <= t * ItemsPerPage
    ensures t == 0 || (t - 1) * ItemsPerPage < n
  {
    (n + ItemsPerPage - 1) / ItemsPerPage
  }

  /** How `Array.prototype.slice` reads an index: negative counts from the end; the result lies in [0, n]. */
  function SliceIndex(k: int, n: nat): (r: nat)
    ensures r <= n
    ensures 0 <= k <= n ==> r == k
  {
    if k < 0 then (if n + k < 0 then 0 else n + k)
    else if k > n then n
    else k
  }

  /** `s.slice(start, end)`. */
  function JsSlice<T>(s: seq<T>, start: int, end: int): (r: seq<T>)
    ensures |r| <= |s|
    ensures 0 <= start <= end <= |s| ==> r == s[start..end]
    ensures 0 <= start <= |s| <= end ==> r == s[start..]
    ensures start >= |s| || (0 <= end <= start) ==> r == []
    ensures forall x :: x in r ==> x in s
  {
    var from := SliceIndex(start, |s|);
    var to := SliceIndex(end, |s|);
    if from < to then s[from..to] else []
  }

  /** The records shown on page `page` (1-based) of a sorted partition. */
  function PageItems(sorted: seq<VideoRecord>, page: int): (r: seq<VideoRecord>)
    ensures |r| <= ItemsPerPage
    ensures forall x :: x in r ==> x in sorted
  {
    var start := (page - 1) * ItemsPerPage;
    JsSlice(sorted, start, start + ItemsPerPage)
  }

  function Min(a: int, b: int): int {
    if a <= b then a else b
  }

  /**
   * Page `p` of a partition of `n` records shows the sorted records at
   * indices [(p-1)*5, min(p*5, n)): between one and five of them while
   * `p` is a real page, none once `p` is past the last page.
   */
  lemma PageContents(sorted: seq<VideoRecord>, page: int)
    requires page >= 1
    ensures (page - 1) * ItemsPerPage <= |sorted| ==>
              PageItems(sorted, page) == sorted[(page - 1) * ItemsPerPage..Min(page * ItemsPerPage, |sorted|)]
    ensures page <= TotalPages(|sorted|) ==> 1 <= |PageItems(sorted, page)| <= ItemsPerPage
    ensures page > TotalPages(|sorted|) ==> PageItems(sorted, page) == []
  {
  }

  /** Pages `from`, `from + 1`, ... up to the last page, concatenated. */
  function PagesFrom(sorted: seq<VideoRecord>, from: nat): seq<VideoRecord>
    requires from >= 1
    decreases TotalPages(|sorted|) + 1 - from
  {
    if from > TotalPages(|sorted|) then []
    else PageItems(sorted, from) + PagesFrom(sorted, from + 1)
  }

  /** Concatenating pages 1 .. totalPages gives back the whole sorted partition. */
  lemma PagesCoverPartition(sorted: seq<VideoRecord>)
    ensures PagesFrom(sorted, 1) == sorted
  {
    PagesFromSuffix(sorted, 1);
  }

  lemma {:induction false} PagesFromSuffix(sorted: seq<VideoRecord>, from: nat)
    requires 1 <= from <= TotalPages(|sorted|) + 1
    ensures PagesFrom(sorted, from) == sorted[Min((from - 1) * ItemsPerPage, |sorted|)..]
    decreases TotalPages(|sorted|) + 1 - from
  {
    if from > TotalPages(|sorted|) {
      assert (from - 1) * ItemsPerPage >= |sorted|;
    } else {
      PagesFromSuffix(sorted, from + 1);
      PageContents(sorted, from);
      var a := (from - 1) * ItemsPerPage;
      var b := Min(from * ItemsPerPage, |sorted|);
      assert sorted[a..] == sorted[a..b] + sorted[b..];
    }
  }

  /** Twelve records make three pages: 1-5, 6-10 and 11-12. */
  lemma TwelveRecords(sorted: seq<VideoRecord>)
    requires |sorted| == 12
    ensures TotalPages(12) == 3
    ensures PageItems(sorted, 1) == sorted[0..5]
    ensures PageItems(sorted, 2) == sorted[5..10]
    ensures PageItems(sorted, 3) == sorted[10..12]
    ensures PageItems(sorted, 4) == []
  {
  }

  /** The previous/next controls of a partition, as `createPaginationControls` builds them. */
  datatype Controls = Controls(page: int, totalPages: nat, prevDisabled: bool, nextDisabled: bool)

  /** What one partition shows: the empty state, or a page of cards with controls when there is more than one page. */
  datatype PartitionView = EmptyState | Listing(items: seq<VideoRecord>, controls: Option<Controls>)

  /** `renderVideos` for one partition at the cursor `page`. */
  function RenderPartition(videos: seq<VideoRecord>, isSeen: bool, page: int): (v: PartitionView)
    ensures v.EmptyState? <==> videos == []
    ensures v.Listing? ==> |v.items| <= ItemsPerPage && (forall x :: x in v.items ==> x in videos)
    ensures v.Listing? && v.controls.Some? ==> v.controls.value.totalPages > 1
  {
    if |videos| == 0 then EmptyState
    else
      var sorted := SortNewestFirst(videos, isSeen);
      var total := TotalPages(|sorted|);
      assert forall x :: x in sorted ==> x in multiset(videos) by {
        assert forall x :: x in sorted ==> x in multiset(sorted);
      }
      Listing(PageItems(sorted, page),
              if total > 1 then Some(Controls(page, total, page == 1, page == total)) else None)
  }

  /**
   * An empty partition shows the empty state and no list; controls appear
   * exactly when there are more than five records; previous is disabled
   * exactly on page 1 and next exactly on the last page; the cards shown are
   * the page's slice of the partition sorted newest first.
   */
  lemma RenderPartitionSpec(videos: seq<VideoRecord>, isSeen: bool, page: int)
    ensures RenderPartition(videos, isSeen, page).EmptyState? <==> videos == []
    ensures var v := RenderPartition(videos, isSeen, page);
            v.Listing? ==>
              && v.items == PageItems(SortNewestFirst(videos, isSeen), page)
              && (v.controls.Some? <==> |videos| > ItemsPerPage)
              && (v.controls.Some? ==> v.controls.value.totalPages == TotalPages(|videos|))
              && (v.controls.Some? ==> (v.controls.value.prevDisabled <==> page == 1))
              && (v.controls.Some? ==> (v.controls.value.nextDisabled <==> page == TotalPages(|videos|)))
              && (1 <= page <= TotalPages(|videos|) ==> 1 <= |v.items| <= ItemsPerPage)
              && (forall r :: r in v.items ==> r in videos)
  {
    if videos != [] {
      var sorted := SortNewestFirst(videos, isSeen);
      var items := PageItems(sorted, page);
      forall r | r in items ensures r in videos {
        assert r in multiset(sorted);
      }
      if 1 <= page <= TotalPages(|videos|) {
        PageContents(sorted, page);
      }
    }
  }

  /**
   * Cursors are never clamped: a cursor left past the last page (the
   * partition shrank) shows no cards, and its next control stays enabled.
   */
  lemma StaleCursor(videos: seq<VideoRecord>, isSeen: bool, page: int)
    requires videos != [] && page > TotalPages(|videos|)
    ensures RenderPartition(videos, isSeen, page).items == []
    ensures RenderPartition(videos, isSeen, page).controls.Some? ==>
              !RenderPartition(videos, isSeen, page).controls.value.nextDisabled
  {
    PageContents(SortNewestFirst(videos, isSeen), page);
  }

  /** The whole popup: the two counts and the two partitions. */
  datatype PlaylistView = PlaylistView(unseenCount: nat, seenCount: nat, unseen: PartitionView, seen: PartitionView)

  /** The popup's two page cursors (module-level state in the page). */
  class PlaylistViewer {
    var unseenPage: int
    var seenPage: int

    /** Both cursors start at 1 and never go below it. */
    ghost predicate Valid()
      reads this
    {
      unseenPage >= 1 && seenPage >= 1
    }

    constructor ()
      ensures Valid() && unseenPage == 1 && seenPage == 1
    {
      unseenPage := 1;
      seenPage := 1;
    }

    /** `loadAndRenderPlaylist`: partition the playlist as read, count, and render each part at its cursor. */
    method LoadAndRender(store: PlaylistStore, readFails: bool) returns (view: PlaylistView)
      ensures var p := ReadPlaylist(store.stored, readFails);
              && view.unseenCount + view.seenCount == |p|
              && view.unseenCount == |Unseen(p)| && view.seenCount == |Seen(p)|
              && view.unseen == RenderPartition(Unseen(p), false, unseenPage)
              && view.seen == RenderPartition(Seen(p), true, seenPage)
    {
      var playlist := store.GetPlaylist(readFails);
      PartitionIsPermutation(playlist);
      var unseen := Unseen(playlist);
      var seen := Seen(playlist);
      view := PlaylistView(|unseen|, |seen|,
                           RenderPartition(unseen, false, unseenPage),
                           RenderPartition(seen, true, seenPage));
    }

    /**
     * A press on "previous" of one partition holding `count` records: the
     * button exists only with more than one page and is disabled on page 1;
     * an enabled press moves only that partition's cursor back by one.
     */
    method PressPrevious(isSeen: bool, count: nat)
      requires Valid()
      modifies this
      ensures Valid()
      ensures var cur := if isSeen then old(seenPage) else old(unseenPage);
              var enabled := TotalPages(count) > 1 && cur != 1;
              (if isSeen then seenPage else unseenPage) == (if enabled then cur - 1 else cur)
      ensures isSeen ==> unseenPage == old(unseenPage)
      ensures !isSeen ==> seenPage == old(seenPage)
    {
      var total := TotalPages(count);
      if isSeen {
        if total > 1 && seenPage != 1 {
          seenPage := seenPage - 1;
        }
      } else {
        if total > 1 && unseenPage != 1 {
          unseenPage := unseenPage - 1;
        }
      }
    }

    /**
     * A press on "next": the button exists only with more than one page and is
     * disabled exactly on the last page; an enabled press moves only that
     * partition's cursor forward by one. A cursor within the pages stays within them.
     */
    method PressNext(isSeen: bool, count: nat)
      requires Valid()
      modifies this
      ensures Valid()
      ensures var cur := if isSeen then old(seenPage) else old(unseenPage);
              var enabled := TotalPages(count) > 1 && cur != TotalPages(count);
              (if isSeen then seenPage else unseenPage) == (if enabled then cur + 1 else cur)
      ensures isSeen ==> unseenPage == old(unseenPage)
      ensures !isSeen ==> seenPage == old(seenPage)
      ensures isSeen && old(seenPage) <= TotalPages(count) ==> seenPage <= TotalPages(count)
      ensures !isSeen && old(unseenPage) <= TotalPages(count) ==> unseenPage <= TotalPages(count)
    {
      var total := TotalPages(count);
      if isSeen {
        if total > 1 && seenPage != total {
          seenPage := seenPage + 1;
        }
      } else {
        if total > 1 && unseenPage != total {
          unseenPage := unseenPage + 1;
        }
      }
    }
  }

  /** `handleVideoClick`: opening a card marks the record seen only when it was unseen. */
  method HandleVideoClick(store: PlaylistStore, video: VideoRecord, now: int, readFails: bool, writeFails: bool)
    modifies store
    ensures video.seenAt.Some? ==> store.stored == old(store.stored)
    ensures video.seenAt.None? ==>
              var updated := SetSeenAt(ReadPlaylist(old(store.stored), readFails), video.id, Some(now));
              store.stored == if updated.Some? && !writeFails then Some(updated.value) else old(store.stored)
  {
    if video.seenAt.None? {
      var _ := store.MarkAsSeen(video.id, now, readFails, writeFails);
    }
  }

  /** `handleToggleSeen`: a seen card is marked unseen, an unseen card seen. */
  method HandleToggleSeen(store: PlaylistStore, id: string, isSeen: bool, now: int, readFails: bool, writeFails: bool)
    modifies store
    ensures var updated := SetSeenAt(ReadPlaylist(old(store.stored), readFails), id, if isSeen then None else Some(now));
            store.stored == if updated.Some? && !writeFails then Some(updated.value) else old(store.stored)
  {
    if isSeen {
      var _ := store.MarkAsUnseen(id, readFails, writeFails);
    } else {
      var _ := store.MarkAsSeen(id, now, readFails, writeFails);
    }
  }

  /** `handleRemoveVideo`: the record is removed only after confirmation. */
  method HandleRemoveVideo(store: PlaylistStore, id: string, confirmed: bool, readFails: bool, writeFails: bool)
    modifies store
    ensures !confirmed || writeFails ==> store.stored == old(store.stored)
    ensures confirmed && !writeFails ==> store.stored == Some(WithoutId(ReadPlaylist(old(store.stored), readFails), id))
  {
    if confirmed {
      var _ := store.RemoveVideo(id, readFails, writeFails);
    }
  }
}
