/**
 * URL classifier: recognising YouTube links and extracting the video id.
 *
 * `extractVideoId` tries four regular expressions of the form
 * `/(?:MARKER)([^&?\s]+)/` in a fixed order; `url.match` reports the
 * leftmost position where MARKER is followed by at least one allowed
 * character, and the greedy `+` captures the longest run of allowed
 * characters there.
 */
module YouTube {
  import opened Records

  /** JavaScript's `\s` class (white space and line terminators). */
  predicate IsSpace(c: char) {
    || c == ' ' || c == '\t' || c == '\n' || c == '\U{000B}' || c == '\U{000C}' || c == '\r'
    || c == '\U{00A0}' || c == '\U{1680}' || ('\U{2000}' <= c <= '\U{200A}')
    || c == '\U{2028}' || c == '\U{2029}' || c == '\U{202F}' || c == '\U{205F}'
    || c == '\U{3000}' || c == '\U{FEFF}'
  }

  /** A character of the class `[^&?\s]`. */
  predicate IdChar(c: char) {
    c != '&' && c != '?' && !IsSpace(c)
  }

  const WatchMarker: string := "youtube.com/watch?v="
  const ShortMarker: string := "youtu.be/"
  const EmbedMarker: string := "youtube.com/embed/"
  const MobileMarker: string := "m.youtube.com/watch?v="

  /** The patterns in the order they are tried. */
  const Markers: seq<string> := [WatchMarker, ShortMarker, EmbedMarker, MobileMarker]

  const LongHost: string := "youtube.com"
  const ShortHost: string := "youtu.be"

  /** `t` occurs in `s` starting at index `i`. */
  predicate OccursAt(s: string, t: string, i: nat) {
    i + |t| <= |s| && s[i..i + |t|] == t
  }

  /** The pattern for `marker` matches at `i`: the marker, then one allowed character. */
  predicate MatchesAt(s: string, marker: string, i: nat) {
    OccursAt(s, marker, i) && i + |marker| < |s| && IdChar(s[i + |marker|])
  }

  /** `id` is what the capture group holds when the match starts at `i`. */
  ghost predicate CaptureAt(s: string, marker: string, i: nat, id: string) {
    var k := i + |marker|;
    && MatchesAt(s, marker, i)
    && k + |id| <= |s|
    && id == s[k..k + |id|]
    && |id| > 0
    && (forall j :: k <= j < k + |id| ==> IdChar(s[j]))
    && (k + |id| == |s| || !IdChar(s[k + |id|]))
  }

  /** The length of the longest run of allowed characters starting at `k`. */
  function IdRunLength(s: string, k: nat): (n: nat)
    requires k <= |s|
    ensures k + n <= |s|
    ensures forall j :: k <= j < k + n ==> IdChar(s[j])
    ensures k + n == |s| || !IdChar(s[k + n])
    decreases |s| - k
  {
    if k == |s| || !IdChar(s[k]) then 0 else 1 + IdRunLength(s, k + 1)
  }

  /** The leftmost index at or after `from` where the pattern for `marker` matches. */
  function FindMatch(s: string, marker: string, from: nat): (r: Option<nat>)
    ensures r.Some? ==> from <= r.value && MatchesAt(s, marker, r.value)
    ensures r.Some? ==> forall j: nat :: from <= j < r.value ==> !MatchesAt(s, marker, j)
    ensures r.None? ==> forall j: nat :: from <= j ==> !MatchesAt(s, marker, j)
    decreases |s| - from
  {
    if from >= |s| then None
    else if MatchesAt(s, marker, from) then Some(from)
    else FindMatch(s, marker, from + 1)
  }

  /** The capture group of `s.match(/(?:marker)([^&?\s]+)/)`, or `None` when it does not match. */
  function MatchPattern(s: string, marker: string): (r: Option<string>)
    ensures r.None? <==> forall i: nat :: !MatchesAt(s, marker, i)
  {
    match FindMatch(s, marker, 0)
    case None => None
    case Some(i) =>
      var k := i + |marker|;
      Some(s[k..k + IdRunLength(s, k)])
  }

  /** A capture is taken at the leftmost match and is a maximal non-empty run of allowed characters. */
  lemma MatchPatternCapture(s: string, marker: string)
    requires MatchPattern(s, marker).Some?
    ensures exists i: nat :: CaptureAt(s, marker, i, MatchPattern(s, marker).value)
                          && forall j: nat :: j < i ==> !MatchesAt(s, marker, j)
  {
    var i := FindMatch(s, marker, 0).value;
    assert CaptureAt(s, marker, i, MatchPattern(s, marker).value);
  }

  /** The capture of the first pattern of `markers` that matches. */
  function FirstMatch(s: string, markers: seq<string>): (r: Option<string>)
    ensures r.None? <==> forall k :: 0 <= k < |markers| ==> MatchPattern(s, markers[k]).None?
    ensures r.Some? ==> exists k :: 0 <= k < |markers| && MatchPattern(s, markers[k]) == r
                                    && forall k' :: 0 <= k' < k ==> MatchPattern(s, markers[k']).None?
  {
    if markers == [] then None
    else
      match MatchPattern(s, markers[0])
      case Some(id) => Some(id)
      case None =>
        var r := FirstMatch(s, markers[1..]);
        assert forall k :: 1 <= k < |markers| ==> markers[k] == markers[1..][k - 1];
        r
  }

  /** `extractVideoId(url)`: `None` plays the part of `null`. */
  function ExtractVideoId(url: string): (r: Option<string>)
    ensures url == [] ==> r.None?
  {
    if url == [] then None else FirstMatch(url, Markers)
  }

  /** Whether `t` occurs in `s` at some index at or after `from`. */
  function ContainsFrom(s: string, t: string, from: nat): (b: bool)
    ensures b <==> exists i: nat :: from <= i && OccursAt(s, t, i)
    decreases |s| - from
  {
    if from + |t| > |s| then
      assert forall i: nat :: from <= i ==> !OccursAt(s, t, i);
      false
    else if s[from..from + |t|] == t then
      assert OccursAt(s, t, from);
      true
    else
      ContainsFrom(s, t, from + 1)
  }

  /** `isYouTubeUrl(url)`: the string contains `youtube.com` or `youtu.be`, anywhere. */
  function IsYouTubeUrl(url: string): (r: bool)
    ensures url == [] ==> !r
    ensures r <==> exists i: nat :: OccursAt(url, LongHost, i) || OccursAt(url, ShortHost, i)
  {
    url != [] && (ContainsFrom(url, LongHost, 0) || ContainsFrom(url, ShortHost, 0))
  }

  /**
   * A non-null result is a non-empty run of allowed characters that directly
   * follows one of the four markers in `url`, and it is maximal; and it is the
   * capture of the first pattern, in order, that matches.
   */
  lemma ExtractVideoIdSound(url: string, id: string)
    requires ExtractVideoId(url) == Some(id)
    ensures exists k: nat, i: nat :: k < |Markers| && CaptureAt(url, Markers[k], i, id)
    ensures exists k: nat :: k < |Markers| && MatchPattern(url, Markers[k]) == Some(id)
                             && forall k': nat :: k' < k ==> MatchPattern(url, Markers[k']).None?
  {
    var k: nat :| k < |Markers| && MatchPattern(url, Markers[k]) == Some(id)
                  && forall k': nat :: k' < k ==> MatchPattern(url, Markers[k']).None?;
    MatchPatternCapture(url, Markers[k]);
    var i: nat :| CaptureAt(url, Markers[k], i, id);
  }

  /** The result is null exactly when no marker is followed by an allowed character. */
  lemma ExtractVideoIdNone(url: string)
    ensures ExtractVideoId(url).None? <==> forall k: nat, i: nat :: k < |Markers| ==> !MatchesAt(url, Markers[k], i)
  {
    if url == [] {
      forall k: nat, i: nat | k < |Markers| ensures !MatchesAt(url, Markers[k], i) { }
    }
  }

  /** First match wins: whenever the `watch?v=` pattern matches, it decides. */
  lemma WatchPatternWins(url: string, i: nat)
    requires MatchesAt(url, WatchMarker, i)
    ensures ExtractVideoId(url) == MatchPattern(url, WatchMarker)
    ensures ExtractVideoId(url).Some?
  {
    assert Markers[0] == WatchMarker;
  }

  /** A string holding a short link first and a watch URL second yields the watch URL's id. */
  lemma WatchBeatsShortLink(s: string)
    requires s == "youtu.be/A youtube.com/watch?v=B"
    ensures ExtractVideoId(s) == Some("B")
  {
    ExampleLeftmostWatchMatch(s);
    WatchPatternWins(s, 11);
    ExampleCapture(s);
  }

  lemma ExampleLeftmostWatchMatch(s: string)
    requires s == "youtu.be/A youtube.com/watch?v=B"
    ensures MatchesAt(s, WatchMarker, 11)
    ensures FindMatch(s, WatchMarker, 0) == Some(11)
  {
    ExampleWatchMatch(s);
    forall j: nat | j < 11 ensures !MatchesAt(s, WatchMarker, j) {
      assert s[j + 8] != WatchMarker[8];
      assert j + 20 <= |s| ==> s[j..j + 20][8] != WatchMarker[8];
    }
  }

  lemma ExampleWatchMatch(s: string)
    requires s == "youtu.be/A youtube.com/watch?v=B"
    ensures MatchesAt(s, WatchMarker, 11)
  {
    assert s[11..31] == WatchMarker;
  }

  lemma ExampleCapture(s: string)
    requires s == "youtu.be/A youtube.com/watch?v=B"
    ensures s[31..31 + IdRunLength(s, 31)] == "B"
  {
    assert IdRunLength(s, 32) == 0;
  }

  /** Every mobile-watch match is also a watch match two characters later, with the same capture start. */
  lemma MobileMatchIsWatchMatch(s: string, i: nat)
    requires MatchesAt(s, MobileMarker, i)
    ensures MatchesAt(s, WatchMarker, i + 2)
    ensures (i + 2) + |WatchMarker| == i + |MobileMarker|
  {
    assert MobileMarker[2..] == WatchMarker;
    assert s[i + 2..i + 2 + |WatchMarker|] == s[i..i + |MobileMarker|][2..];
  }

  /** The fourth (mobile) pattern is never the one that decides the result. */
  lemma MobilePatternNeverDecides(url: string)
    ensures ExtractVideoId(url) == (if url == [] then None else FirstMatch(url, Markers[..3]))
  {
    if url != [] {
      assert Markers[..3] == [WatchMarker, ShortMarker, EmbedMarker];
      if MatchPattern(url, MobileMarker).Some? {
        MatchPatternCapture(url, MobileMarker);
        var i: nat :| CaptureAt(url, MobileMarker, i, MatchPattern(url, MobileMarker).value);
        MobileMatchIsWatchMatch(url, i);
        WatchPatternWins(url, i + 2);
        assert MatchPattern(url, Markers[..3][0]).Some?;
      } else {
        assert forall k :: 0 <= k < 3 ==> Markers[k] == Markers[..3][k];
      }
    }
  }

  /** Wherever a pattern matches, one of the two host names occurs. */
  lemma MatchContainsHost(s: string, k: nat, i: nat)
    requires k < |Markers| && MatchesAt(s, Markers[k], i)
    ensures IsYouTubeUrl(s)
  {
    if k == 1 {
      assert ShortMarker[..8] == ShortHost;
      assert s[i..i + 8] == s[i..i + 9][..8];
      assert OccursAt(s, ShortHost, i);
    } else if k == 3 {
      MobileMatchIsWatchMatch(s, i);
      MatchContainsHost(s, 0, i + 2);
    } else {
      var m := Markers[k];
      assert m[..11] == LongHost;
      assert s[i..i + 11] == s[i..i + |m|][..11];
      assert OccursAt(s, LongHost, i);
    }
  }

  /** A non-null video id implies that the URL is recognised as a YouTube URL. */
  lemma ExtractImpliesYouTubeUrl(url: string)
    requires ExtractVideoId(url).Some?
    ensures IsYouTubeUrl(url)
  {
    var id := ExtractVideoId(url).value;
    ExtractVideoIdSound(url, id);
    var k: nat, i: nat :| k < |Markers| && CaptureAt(url, Markers[k], i, id);
    MatchContainsHost(url, k, i);
  }
}
