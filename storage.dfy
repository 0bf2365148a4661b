/**
 * Playlist store: one ordered sequence of records kept under the key
 * `playlist` of the browser's local storage. Every operation reads the
 * whole sequence, changes it and writes it back.
 *
 * A storage read or write may fail; which one fails is a parameter
 * (`readFails`, `writeFails`). A failed read is swallowed and reads as the
 * empty playlist; a failed write stores nothing and makes the operation
 * report `false`.
 */
module Storage {
  import opened Records

  /** What `getPlaylist` yields for the stored value (`None` = key unset). */
  function ReadPlaylist(stored: Option<seq<VideoRecord>>, readFails: bool): (p: seq<VideoRecord>)
    ensures readFails || stored.None? ==> p == []
    ensures !readFails && stored.Some? ==> p == stored.value
  {
    if readFails then [] else stored.GetOr([])
  }

  /** `playlist.filter(video => video.id !== id)`. */
  function WithoutId(p: seq<VideoRecord>, id: string): (r: seq<VideoRecord>)
    ensures |r| <= |p|
    ensures forall v :: v in r ==> v in p && v.id != id
    ensures forall v :: v in p && v.id != id ==> v in r
  {
    if p == [] then []
    else if p[0].id == id then WithoutId(p[1..], id)
    else [p[0]] + WithoutId(p[1..], id)
  }

  /** Removing by id keeps every other record as often as it occurred and drops every record with that id. */
  lemma {:induction false} WithoutIdCounts(p: seq<VideoRecord>, id: string, v: VideoRecord)
    ensures multiset(WithoutId(p, id))[v] == if v.id == id then 0 else multiset(p)[v]
  {
    if p != [] {
      WithoutIdCounts(p[1..], id, v);
      assert p == [p[0]] + p[1..];
    }
  }

  /** Removing by id keeps the relative order of the remaining records. */
  lemma {:induction false} WithoutIdAppend(a: seq<VideoRecord>, b: seq<VideoRecord>, id: string)
    ensures WithoutId(a + b, id) == WithoutId(a, id) + WithoutId(b, id)
  {
    if a == [] {
      assert a + b == b;
    } else {
      var ab := a + b;
      assert ab[0] == a[0] && ab[1..] == a[1..] + b;
      WithoutIdAppend(a[1..], b, id);
      if a[0].id == id {
        calc {
          WithoutId(ab, id);
          WithoutId(a[1..] + b, id);
          WithoutId(a[1..], id) + WithoutId(b, id);
        }
      } else {
        calc {
          WithoutId(ab, id);
          [a[0]] + WithoutId(a[1..] + b, id);
          [a[0]] + (WithoutId(a[1..], id) + WithoutId(b, id));
          ([a[0]] + WithoutId(a[1..], id)) + WithoutId(b, id);
        }
      }
    }
  }

  /** When no record carries the id, the filtered playlist is the playlist itself. */
  lemma {:induction false} WithoutIdAbsent(p: seq<VideoRecord>, id: string)
    requires forall i :: 0 <= i < |p| ==> p[i].id != id
    ensures WithoutId(p, id) == p
  {
    if p != [] {
      WithoutIdAbsent(p[1..], id);
    }
  }

  /** `playlist.find(v => v.id === id)`, as the index of the first match. */
  function FindById(p: seq<VideoRecord>, id: string): (r: Option<nat>)
    ensures r.Some? ==> r.value < |p| && p[r.value].id == id
    ensures r.Some? ==> forall j :: 0 <= j < r.value ==> p[j].id != id
    ensures r.None? ==> forall j :: 0 <= j < |p| ==> p[j].id != id
  {
    if p == [] then None
    else if p[0].id == id then Some(0)
    else match FindById(p[1..], id)
      case None => None
      case Some(i) => Some(i + 1)
  }

  /** The index `j` holds the first record of `p` whose id is `id`. */
  predicate IsFirstWithId(p: seq<VideoRecord>, id: string, j: nat)
    requires j < |p|
  {
    p[j].id == id && forall k :: 0 <= k < j ==> p[k].id != id
  }

  /**
   * Find the first record with this id and set its `seenAt`; `None` when no
   * record has the id (nothing is to be written then).
   */
  function SetSeenAt(p: seq<VideoRecord>, id: string, seenAt: Option<int>): (r: Option<seq<VideoRecord>>)
    ensures r.None? <==> forall j :: 0 <= j < |p| ==> p[j].id != id
    ensures r.Some? ==> |r.value| == |p|
    ensures r.Some? ==> forall j :: 0 <= j < |p| ==>
              r.value[j] == if IsFirstWithId(p, id, j) then p[j].(seenAt := seenAt) else p[j]
  {
    match FindById(p, id)
    case None => None
    case Some(i) => Some(p[i := p[i].(seenAt := seenAt)])
  }

  /** `playlist.some(video => video.videoId === videoId)`. */
  function HasVideoId(p: seq<VideoRecord>, videoId: string): (b: bool)
    ensures b <==> exists i :: 0 <= i < |p| && p[i].videoId == videoId
  {
    if p == [] then false
    else p[0].videoId == videoId || HasVideoId(p[1..], videoId)
  }

  /** Only `seenAt` changes under `SetSeenAt`, so the first record with an id stays the first. */
  lemma SetSeenAtKeepsIds(p: seq<VideoRecord>, id: string, seenAt: Option<int>, q: seq<VideoRecord>)
    requires SetSeenAt(p, id, seenAt) == Some(q)
    ensures |q| == |p| && forall j :: 0 <= j < |p| ==> q[j].id == p[j].id
    ensures FindById(q, id) == FindById(p, id)
  {
    var i := FindById(p, id).value;
    assert IsFirstWithId(p, id, i);
    var f := FindById(q, id);
    assert f.Some? && f.value == i by {
      assert q[i].id == id;
    }
  }

  /**
   * Marking seen then unseen leaves the record unseen with every other field
   * as it was; the whole playlist is restored when the record was unseen before.
   */
  lemma SeenThenUnseen(p: seq<VideoRecord>, id: string, now: int)
    requires SetSeenAt(p, id, Some(now)).Some?
    ensures SetSeenAt(SetSeenAt(p, id, Some(now)).value, id, None) == SetSeenAt(p, id, None)
    ensures var i := FindById(p, id).value;
            p[i].seenAt.None? ==> SetSeenAt(SetSeenAt(p, id, Some(now)).value, id, None) == Some(p)
  {
    var i := FindById(p, id).value;
    var q := p[i := p[i].(seenAt := Some(now))];
    assert SetSeenAt(p, id, Some(now)) == Some(q);
    SetSeenAtKeepsIds(p, id, Some(now), q);
    var cleared := p[i].(seenAt := None);
    assert q[i].(seenAt := None) == cleared;
    assert SetSeenAt(q, id, None) == Some(q[i := cleared]);
    assert SetSeenAt(p, id, None) == Some(p[i := cleared]);
    assert q[i := cleared] == p[i := cleared] by {
      assert forall j :: 0 <= j < |p| && j != i ==> q[j] == p[j];
    }
    if p[i].seenAt.None? {
      assert cleared == p[i];
      assert p[i := p[i]] == p;
    }
  }

  /** Marking unseen twice is the same as marking unseen once. */
  lemma UnseenIdempotent(p: seq<VideoRecord>, id: string)
    requires SetSeenAt(p, id, None).Some?
    ensures SetSeenAt(SetSeenAt(p, id, None).value, id, None) == SetSeenAt(p, id, None)
  {
    var q := SetSeenAt(p, id, None).value;
    SetSeenAtKeepsIds(p, id, None, q);
    var i := FindById(p, id).value;
    assert q[i].(seenAt := None) == q[i];
    assert q[i := q[i]] == q;
  }

  /** Appending a record with a fresh id, removing, and setting `seenAt` keep record ids unique. */
  lemma OperationsKeepIdsUnique(p: seq<VideoRecord>, v: VideoRecord, id: string, seenAt: Option<int>)
    requires UniqueIds(p)
    ensures (forall i :: 0 <= i < |p| ==> p[i].id != v.id) ==> UniqueIds(p + [v])
    ensures UniqueIds(WithoutId(p, id))
    ensures SetSeenAt(p, id, seenAt).Some? ==> UniqueIds(SetSeenAt(p, id, seenAt).value)
  {
    WithoutIdKeepsUnique(p, id);
    if SetSeenAt(p, id, seenAt).Some? {
      SetSeenAtKeepsIds(p, id, seenAt, SetSeenAt(p, id, seenAt).value);
    }
  }

  lemma {:induction false} WithoutIdKeepsUnique(p: seq<VideoRecord>, id: string)
    requires UniqueIds(p)
    ensures UniqueIds(WithoutId(p, id))
  {
    if p != [] {
      WithoutIdKeepsUnique(p[1..], id);
      var rest := WithoutId(p[1..], id);
      forall v | v in rest ensures v.id != p[0].id {
        var k :| 0 <= k < |p[1..]| && p[1..][k] == v;
        assert p[k + 1] == v;
      }
    }
  }

  /**
   * The value under the key `playlist` in local storage; `None` while the key
   * has never been written.
   */
  class PlaylistStore {
    var stored: Option<seq<VideoRecord>>

    constructor ()
      ensures stored == None
    {
      stored := None;
    }

    /** `getPlaylist`: the stored sequence, or `[]` when unset or when the read fails. */
    method GetPlaylist(readFails: bool) returns (p: seq<VideoRecord>)
      ensures readFails || stored.None? ==> p == []
      ensures !readFails && stored.Some? ==> p == stored.value
    {
      if readFails {
        p := [];
      } else {
        p := stored.GetOr([]);
      }
    }

    /** `browser.storage.local.set({ playlist: p })`; a failing write throws and stores nothing. */
    method Write(p: seq<VideoRecord>, writeFails: bool) returns (ok: bool)
      modifies this
      ensures ok == !writeFails
      ensures stored == if ok then Some(p) else old(stored)
    {
      ok := !writeFails;
      if ok {
        stored := Some(p);
      }
    }

    /**
     * `addVideo`: the playlist as read, with the record appended. After a failed
     * read this is `[video]` alone, which then replaces what was stored.
     */
    method AddVideo(video: VideoRecord, readFails: bool, writeFails: bool) returns (ok: bool)
      modifies this
      ensures ok == !writeFails
      ensures stored == if ok then Some(ReadPlaylist(old(stored), readFails) + [video]) else old(stored)
      ensures ok && !readFails ==> |stored.value| == |old(stored).GetOr([])| + 1
      ensures ok && !readFails ==> stored.value[..|stored.value| - 1] == old(stored).GetOr([])
    {
      var playlist := GetPlaylist(readFails);
      playlist := playlist + [video];
      ok := Write(playlist, writeFails);
    }

    /** `removeVideo`: every record with this id is dropped; succeeds even when none matched. */
    method RemoveVideo(id: string, readFails: bool, writeFails: bool) returns (ok: bool)
      modifies this
      ensures ok == !writeFails
      ensures stored == if ok then Some(WithoutId(ReadPlaylist(old(stored), readFails), id)) else old(stored)
    {
      var playlist := GetPlaylist(readFails);
      var filtered := WithoutId(playlist, id);
      ok := Write(filtered, writeFails);
    }

    /**
     * `markAsSeen`: the first record with this id gets `seenAt := now`; when no
     * record has the id nothing is written and the result is `false`.
     */
    method MarkAsSeen(id: string, now: int, readFails: bool, writeFails: bool) returns (ok: bool)
      modifies this
      ensures var updated := SetSeenAt(ReadPlaylist(old(stored), readFails), id, Some(now));
              && ok == (updated.Some? && !writeFails)
              && stored == if ok then Some(updated.value) else old(stored)
    {
      var playlist := GetPlaylist(readFails);
      var updated := SetSeenAt(playlist, id, Some(now));
      if updated.None? {
        return false;
      }
      ok := Write(updated.value, writeFails);
    }

    /**
     * `markAsUnseen`: the first record with this id gets `seenAt := null`; when
     * no record has the id nothing is written and the result is `false`.
     */
    method MarkAsUnseen(id: string, readFails: bool, writeFails: bool) returns (ok: bool)
      modifies this
      ensures var updated := SetSeenAt(ReadPlaylist(old(stored), readFails), id, None);
              && ok == (updated.Some? && !writeFails)
              && stored == if ok then Some(updated.value) else old(stored)
    {
      var playlist := GetPlaylist(readFails);
      var updated := SetSeenAt(playlist, id, None);
      if updated.None? {
        return false;
      }
      ok := Write(updated.value, writeFails);
    }

    /** `isVideoInPlaylist`: some record as read has this video id (not record id). */
    method IsVideoInPlaylist(videoId: string, readFails: bool) returns (found: bool)
      ensures found <==> exists i :: 0 <= i < |ReadPlaylist(stored, readFails)|
                                     && ReadPlaylist(stored, readFails)[i].videoId == videoId
      ensures readFails ==> !found
    {
      var playlist := GetPlaylist(readFails);
      assert playlist == ReadPlaylist(stored, readFails);
      found := HasVideoId(playlist, videoId);
    }
  }
}
