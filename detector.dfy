/**
 * Link detector (the content script): finds YouTube links on the page,
 * injects one "add to playlist" button after each, and runs the button's
 * click through the store.
 */
module Detector {
  import opened Records
  import opened YouTube
  import opened Storage

  /** An `<a href>` element of the page; object identity stands for the DOM element's identity. */
  class Anchor {
    const href: string

    constructor (href: string)
      ensures this.href == href
    {
      this.href := href;
    }
  }

  /** The texts a playlist button shows. */
  datatype Label = AddToPlaylist | InPlaylist | AlreadyWatched | Adding | Error

  /** A button injected after `anchor`, carrying the video id and URL it adds. */
  datatype InjectedButton = InjectedButton(anchor: Anchor, videoId: string, url: string, caption: Label)

  /** `playlist.filter(video => video.videoId === videoId)`. */
  function WithVideoId(p: seq<VideoRecord>, videoId: string): (r: seq<VideoRecord>)
    ensures forall v :: v in r <==> v in p && v.videoId == videoId
  {
    if p == [] then []
    else (if p[0].videoId == videoId then [p[0]] else []) + WithVideoId(p[1..], videoId)
  }

  /** `existingVideos.some(video => video.seenAt !== null)`. */
  function AnyWatched(s: seq<VideoRecord>): (b: bool)
    ensures b <==> exists v :: v in s && v.seenAt.Some?
  {
    if s == [] then false
    else s[0].seenAt.Some? || AnyWatched(s[1..])
  }

  /**
   * The label `addPlaylistButton` starts with: "Already watched" when some
   * record of this video is seen, else "In Playlist" when some record has the
   * video, else "Add". Being watched takes precedence.
   */
  function InitialLabel(playlist: seq<VideoRecord>, videoId: string): (l: Label)
    ensures l == AlreadyWatched <==>
              exists i :: 0 <= i < |playlist| && playlist[i].videoId == videoId && playlist[i].seenAt.Some?
    ensures l == InPlaylist <==>
              && (exists i :: 0 <= i < |playlist| && playlist[i].videoId == videoId)
              && (forall i :: 0 <= i < |playlist| && playlist[i].videoId == videoId ==> playlist[i].seenAt.None?)
    ensures l == AddToPlaylist <==> forall i :: 0 <= i < |playlist| ==> playlist[i].videoId != videoId
  {
    var existing := WithVideoId(playlist, videoId);
    var inPlaylist := |existing| > 0;
    var isWatched := AnyWatched(existing);
    assert inPlaylist <==> exists i :: 0 <= i < |playlist| && playlist[i].videoId == videoId by {
      if inPlaylist {
        assert existing[0] in existing;
      } else {
        forall i | 0 <= i < |playlist| ensures playlist[i].videoId != videoId {
          assert playlist[i] in playlist;
        }
      }
    }
    assert isWatched <==>
             exists i :: 0 <= i < |playlist| && playlist[i].videoId == videoId && playlist[i].seenAt.Some? by {
      if !isWatched {
        forall i | 0 <= i < |playlist| && playlist[i].videoId == videoId ensures playlist[i].seenAt.None? {
          assert playlist[i] in playlist;
        }
      } else {
        var v :| v in existing && v.seenAt.Some?;
        var i :| 0 <= i < |playlist| && playlist[i] == v;
      }
    }
    if isWatched then AlreadyWatched
    else if inPlaylist then InPlaylist
    else AddToPlaylist
  }

  /** The button `addPlaylistButton` injects for `a`: none when no video id can be extracted. */
  function ButtonFor(a: Anchor, playlist: seq<VideoRecord>): (r: seq<InjectedButton>)
    ensures |r| <= 1
    ensures r == [] <==> ExtractVideoId(a.href).None?
    ensures forall b :: b in r ==> b.anchor == a
  {
    match ExtractVideoId(a.href)
    case None => []
    case Some(id) => [InjectedButton(a, id, a.href, InitialLabel(playlist, id))]
  }

  /** The anchors of `links` whose `href` is a YouTube URL. */
  function YouTubeAnchors(links: seq<Anchor>): (r: set<Anchor>)
    ensures forall a :: a in r ==> a in links && IsYouTubeUrl(a.href)
    ensures forall a :: a in links && IsYouTubeUrl(a.href) ==> a in r
  {
    if links == [] then {}
    else
      var last := links[|links| - 1];
      assert links == links[..|links| - 1] + [last];
      YouTubeAnchors(links[..|links| - 1]) + (if IsYouTubeUrl(last.href) then {last} else {})
  }

  /**
   * The buttons one pass of `processYouTubeLinks` injects, in document order,
   * when the anchors in `done` are already processed.
   */
  function Scan(links: seq<Anchor>, done: set<Anchor>, playlist: seq<VideoRecord>): (r: seq<InjectedButton>)
    ensures |r| <= |links|
  {
    if links == [] then []
    else
      var a := links[0];
      if a in done then Scan(links[1..], done, playlist)
      else if IsYouTubeUrl(a.href) then ButtonFor(a, playlist) + Scan(links[1..], done + {a}, playlist)
      else Scan(links[1..], done, playlist)
  }

  /** Every button of a pass goes to a YouTube anchor of the page that was not yet processed. */
  lemma {:induction false} ScanAnchors(links: seq<Anchor>, done: set<Anchor>, playlist: seq<VideoRecord>)
    ensures forall b :: b in Scan(links, done, playlist) ==>
              b.anchor in links && b.anchor !in done && IsYouTubeUrl(b.anchor.href)
  {
    if links != [] {
      var a := links[0];
      ScanAnchors(links[1..], done, playlist);
      ScanAnchors(links[1..], done + {a}, playlist);
    }
  }

  /**
   * Every button carries the id extracted from its anchor's `href`, that
   * `href` as URL, and the label chosen from the playlist.
   */
  lemma {:induction false} ScanButtons(links: seq<Anchor>, done: set<Anchor>, playlist: seq<VideoRecord>)
    ensures forall b :: b in Scan(links, done, playlist) ==>
              && ExtractVideoId(b.anchor.href) == Some(b.videoId) && b.url == b.anchor.href
              && b.caption == InitialLabel(playlist, b.videoId)
  {
    if links != [] {
      var a := links[0];
      ScanButtons(links[1..], done, playlist);
      ScanButtons(links[1..], done + {a}, playlist);
    }
  }

  /** No two buttons of `s` belong to the same anchor. */
  predicate DistinctAnchors(s: seq<InjectedButton>) {
    forall i, j :: 0 <= i < j < |s| ==> s[i].anchor != s[j].anchor
  }

  lemma DistinctAnchorsPrepend(bs: seq<InjectedButton>, rest: seq<InjectedButton>, a: Anchor)
    requires |bs| <= 1 && forall b :: b in bs ==> b.anchor == a
    requires DistinctAnchors(rest) && forall b :: b in rest ==> b.anchor != a
    ensures DistinctAnchors(bs + rest)
  {
    var s := bs + rest;
    forall i, j | 0 <= i < j < |s| ensures s[i].anchor != s[j].anchor {
      assert s[j] == rest[j - |bs|] && rest[j - |bs|] in rest;
      if i < |bs| {
        assert s[i] in bs;
      } else {
        assert s[i] == rest[i - |bs|];
      }
    }
  }

  /** Within one pass no anchor gets two buttons. */
  lemma {:induction false} ScanOneButtonPerAnchor(links: seq<Anchor>, done: set<Anchor>, playlist: seq<VideoRecord>)
    ensures DistinctAnchors(Scan(links, done, playlist))
  {
    if links != [] {
      var a := links[0];
      if a !in done && IsYouTubeUrl(a.href) {
        ScanOneButtonPerAnchor(links[1..], done + {a}, playlist);
        ScanAnchors(links[1..], done + {a}, playlist);
        DistinctAnchorsPrepend(ButtonFor(a, playlist), Scan(links[1..], done + {a}, playlist), a);
      } else {
        ScanOneButtonPerAnchor(links[1..], done, playlist);
      }
    }
  }

  /**
   * Every anchor of the page that is not yet processed, whose `href` is a
   * YouTube URL and yields a video id, gets its button in the pass.
   */
  lemma {:induction false} ScanComplete(links: seq<Anchor>, done: set<Anchor>, playlist: seq<VideoRecord>, a: Anchor)
    requires a in links && a !in done && IsYouTubeUrl(a.href) && ExtractVideoId(a.href).Some?
    ensures var id := ExtractVideoId(a.href).value;
            InjectedButton(a, id, a.href, InitialLabel(playlist, id)) in Scan(links, done, playlist)
  {
    var first := links[0];
    if first == a {
      assert ButtonFor(a, playlist)[0] in ButtonFor(a, playlist);
    } else {
      assert a in links[1..];
      var done' := if IsYouTubeUrl(first.href) && first !in done then done + {first} else done;
      ScanComplete(links[1..], done', playlist, a);
    }
  }

  /**
   * Once an anchor is processed it is skipped on every later pass: a second
   * pass after a first one never injects a button for an anchor of the first.
   */
  lemma LaterPassSkipsProcessed(first: seq<Anchor>, later: seq<Anchor>, done: set<Anchor>,
                                p1: seq<VideoRecord>, p2: seq<VideoRecord>)
    ensures forall b1, b2 :: b1 in Scan(first, done, p1) && b2 in Scan(later, done + YouTubeAnchors(first), p2)
              ==> b1.anchor != b2.anchor
  {
    ScanAnchors(first, done, p1);
    ScanAnchors(later, done + YouTubeAnchors(first), p2);
  }

  /**
   * A YouTube anchor whose `href` yields no video id ends up processed all the
   * same, and gets no button.
   */
  lemma YouTubeAnchorWithoutId(links: seq<Anchor>, done: set<Anchor>, playlist: seq<VideoRecord>, a: Anchor)
    requires a in links && IsYouTubeUrl(a.href) && ExtractVideoId(a.href).None?
    ensures a in done + YouTubeAnchors(links)
    ensures forall b :: b in Scan(links, done, playlist) ==> b.anchor != a
  {
    ScanButtons(links, done, playlist);
  }

  /**
   * After an unseen record of a video is appended, a button for that video
   * starts as "In Playlist", or stays "Already watched".
   */
  lemma CaptionAfterAdd(p: seq<VideoRecord>, r: VideoRecord)
    requires r.seenAt.None?
    ensures InitialLabel(p + [r], r.videoId) ==
              if InitialLabel(p, r.videoId) == AlreadyWatched then AlreadyWatched else InPlaylist
  {
    var q := p + [r];
    assert q[|p|] == r;
    assert forall i :: 0 <= i < |p| ==> q[i] == p[i];
  }

  /** The processed set after the pass has looked at anchor `a`. */
  function StepDone(a: Anchor, done: set<Anchor>): set<Anchor> {
    if a !in done && IsYouTubeUrl(a.href) then done + {a} else done
  }

  /** The buttons the pass injects at anchor `a`. */
  function StepButtons(a: Anchor, done: set<Anchor>, playlist: seq<VideoRecord>): seq<InjectedButton> {
    if a !in done && IsYouTubeUrl(a.href) then ButtonFor(a, playlist) else []
  }

  lemma YouTubeAnchorsStep(links: seq<Anchor>, i: nat)
    requires i < |links|
    ensures YouTubeAnchors(links[..i + 1]) ==
            YouTubeAnchors(links[..i]) + (if IsYouTubeUrl(links[i].href) then {links[i]} else {})
  {
    assert links[..i + 1][..i] == links[..i];
  }

  lemma ScanStep(links: seq<Anchor>, i: nat, done: set<Anchor>, playlist: seq<VideoRecord>)
    requires i < |links|
    ensures Scan(links[i..], done, playlist) ==
            StepButtons(links[i], done, playlist) + Scan(links[i + 1..], StepDone(links[i], done), playlist)
  {
    assert links[i..][0] == links[i] && links[i..][1..] == links[i + 1..];
    if links[i] in done || !IsYouTubeUrl(links[i].href) {
      assert StepButtons(links[i], done, playlist) == [];
    }
  }

  /** One turn of the scan loop keeps its two invariants. */
  lemma ProcessStep(links: seq<Anchor>, i: nat, start: set<Anchor>, done: set<Anchor>, added: seq<InjectedButton>,
                    done': set<Anchor>, added': seq<InjectedButton>, playlist: seq<VideoRecord>)
    requires i < |links|
    requires done == start + YouTubeAnchors(links[..i])
    requires added + Scan(links[i..], done, playlist) == Scan(links, start, playlist)
    requires done' == StepDone(links[i], done)
    requires added' == added + StepButtons(links[i], done, playlist)
    ensures done' == start + YouTubeAnchors(links[..i + 1])
    ensures added' + Scan(links[i + 1..], done', playlist) == Scan(links, start, playlist)
  {
    ProcessedStep(links, i, start, done);
    ScanStep(links, i, done, playlist);
    AppendAssoc(added, StepButtons(links[i], done, playlist), Scan(links[i + 1..], done', playlist));
  }

  lemma AppendAssoc(a: seq<InjectedButton>, b: seq<InjectedButton>, c: seq<InjectedButton>)
    ensures (a + b) + c == a + (b + c)
  {
  }

  lemma ProcessedStep(links: seq<Anchor>, i: nat, start: set<Anchor>, done: set<Anchor>)
    requires i < |links|
    requires done == start + YouTubeAnchors(links[..i])
    ensures StepDone(links[i], done) == start + YouTubeAnchors(links[..i + 1])
  {
    YouTubeAnchorsStep(links, i);
    var a := links[i];
    if IsYouTubeUrl(a.href) && a in done {
      assert done + {a} == done;
    }
  }

  /** The detector's processed set (a weak set of anchors in the page). */
  class LinkDetector {
    var processed: set<Anchor>

    constructor ()
      ensures processed == {}
    {
      processed := {};
    }

    /**
     * `processYouTubeLinks` over the page's anchors in document order, with the
     * playlist as read: marks exactly the YouTube anchors (also those with no
     * extractable id) and returns the buttons injected.
     */
    method ProcessLinks(links: seq<Anchor>, playlist: seq<VideoRecord>) returns (added: seq<InjectedButton>)
      modifies this
      ensures processed == old(processed) + YouTubeAnchors(links)
      ensures added == Scan(links, old(processed), playlist)
    {
      added := [];
      var i := 0;
      while i < |links|
        invariant 0 <= i <= |links|
        invariant processed == old(processed) + YouTubeAnchors(links[..i])
        invariant added + Scan(links[i..], processed, playlist) == Scan(links, old(processed), playlist)
      {
        var link := links[i];
        ghost var addedBefore, doneBefore := added, processed;
        if link !in processed {
          if IsYouTubeUrl(link.href) {
            processed := processed + {link};
            added := added + ButtonFor(link, playlist);
          }
        }
        assert processed == StepDone(link, doneBefore);
        assert added == addedBefore + StepButtons(link, doneBefore, playlist);
        ProcessStep(links, i, old(processed), doneBefore, addedBefore, processed, added, playlist);
        i := i + 1;
      }
      assert links[..i] == links;
    }

    /** The mutation observer's callback: a rescan happens exactly when some mutation added nodes. */
    method OnMutations(addedNodeCounts: seq<nat>, links: seq<Anchor>, playlist: seq<VideoRecord>)
      returns (added: seq<InjectedButton>)
      modifies this
      ensures (exists i :: 0 <= i < |addedNodeCounts| && addedNodeCounts[i] > 0) ==>
                processed == old(processed) + YouTubeAnchors(links) && added == Scan(links, old(processed), playlist)
      ensures (forall i :: 0 <= i < |addedNodeCounts| ==> addedNodeCounts[i] == 0) ==>
                processed == old(processed) && added == []
    {
      var should := ShouldRescan(addedNodeCounts);
      added := [];
      if should {
        added := ProcessLinks(links, playlist);
      }
    }
  }

  /** The loop of the mutation callback: whether some mutation record added nodes. */
  method ShouldRescan(addedNodeCounts: seq<nat>) returns (should: bool)
    ensures should <==> exists i :: 0 <= i < |addedNodeCounts| && addedNodeCounts[i] > 0
  {
    should := false;
    var i := 0;
    while i < |addedNodeCounts|
      invariant 0 <= i <= |addedNodeCounts|
      invariant !should
      invariant forall j :: 0 <= j < i ==> addedNodeCounts[j] == 0
    {
      if addedNodeCounts[i] > 0 {
        should := true;
        break;
      }
      i := i + 1;
    }
  }

  /** Where a click in the duplicate prompt lands. */
  datatype PromptClick = CancelButton | ConfirmButton | Overlay | InsideDialog

  /**
   * `showConfirmationModal`: the first click on a button or on the overlay
   * resolves the prompt, true only for the confirm button; clicks inside the
   * dialog elsewhere resolve nothing (`None` = still open).
   */
  function PromptAnswer(clicks: seq<PromptClick>): (r: Option<bool>)
    ensures r.None? <==> forall i :: 0 <= i < |clicks| ==> clicks[i] == InsideDialog
    ensures r == Some(true) <==>
              exists i :: 0 <= i < |clicks| && clicks[i] == ConfirmButton
                          && forall j :: 0 <= j < i ==> clicks[j] == InsideDialog
  {
    if clicks == [] then None
    else
      match clicks[0]
      case ConfirmButton => Some(true)
      case CancelButton => Some(false)
      case Overlay => Some(false)
      case InsideDialog =>
        var r := PromptAnswer(clicks[1..]);
        assert forall i :: 1 <= i < |clicks| ==> clicks[i] == clicks[1..][i - 1];
        if r == Some(true) then
          var i :| 0 <= i < |clicks[1..]| && clicks[1..][i] == ConfirmButton
                   && forall j :: 0 <= j < i ==> clicks[1..][j] == InsideDialog;
          assert clicks[i + 1] == ConfirmButton;
          r
        else
          r
  }

  /** The record a click adds: a fresh id, the button's URL and video id, the metadata, `addedAt = now`, unseen. */
  function NewRecord(id: string, url: string, videoId: string, meta: Metadata, now: int): (r: VideoRecord)
    ensures r.id == id && r.url == url && r.videoId == videoId && r.addedAt == now && r.seenAt.None?
    ensures r.title == meta.title && r.channel == meta.channel && r.thumbnail == meta.thumbnail
  {
    VideoRecord(id, url, videoId, meta.title, meta.channel, meta.thumbnail, now, None)
  }

  datatype ClickOutcome = Declined | Added | Failed

  /** A button in the page: its label and whether it is disabled. */
  class PlaylistButton {
    const videoId: string
    const url: string
    var caption: Label
    var disabled: bool

    constructor (b: InjectedButton)
      ensures videoId == b.videoId && url == b.url && caption == b.caption && !disabled
    {
      videoId := b.videoId;
      url := b.url;
      caption := b.caption;
      disabled := false;
    }

    /**
     * `handleButtonClick`. `confirmed` is the duplicate prompt's answer,
     * `freshId` the generated id, `meta` the metadata lookup's result.
     * A disabled button takes no clicks. Declining a duplicate changes
     * nothing; otherwise the button is disabled and exactly one record is
     * appended; success shows "In Playlist" and keeps the button disabled,
     * failure shows "Error" (and only then is the reset timer set).
     */
    method HandleClick(store: PlaylistStore, confirmed: bool, freshId: string, meta: Metadata, now: int,
                       checkReadFails: bool, addReadFails: bool, writeFails: bool)
      returns (outcome: ClickOutcome)
      requires !disabled
      modifies this, store
      ensures var inPlaylist := HasVideoId(ReadPlaylist(old(store.stored), checkReadFails), videoId);
              outcome == Declined <==> inPlaylist && !confirmed
      ensures outcome == Declined ==>
                caption == old(caption) && disabled == old(disabled) && store.stored == old(store.stored)
      ensures outcome != Declined ==> disabled
      ensures outcome != Declined ==>
                store.stored == if writeFails then old(store.stored)
                                else Some(ReadPlaylist(old(store.stored), addReadFails) + [NewRecord(freshId, url, videoId, meta, now)])
      ensures outcome == Added <==> outcome != Declined && !writeFails
      ensures outcome == Added ==> caption == InPlaylist
      ensures outcome == Failed ==> caption == Error
    {
      var inPlaylist := store.IsVideoInPlaylist(videoId, checkReadFails);
      if inPlaylist && !confirmed {
        return Declined;
      }
      disabled := true;
      caption := Adding;
      var record := NewRecord(freshId, url, videoId, meta, now);
      var success := store.AddVideo(record, addReadFails, writeFails);
      if success {
        caption := InPlaylist;
        outcome := Added;
      } else {
        caption := Error;
        outcome := Failed;
      }
    }

    /** The timer set after a failure: the button shows "Add" again and is enabled. */
    method ResetAfterError()
      requires disabled && caption == Error
      modifies this
      ensures caption == AddToPlaylist && !disabled
    {
      caption := AddToPlaylist;
      disabled := false;
    }
  }
}
