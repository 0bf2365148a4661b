/**
 * The values shared by every part of the extension: the optional value used
 * for `null`, and the playlist entry kept in local storage.
 */
module Records {

  /** `null` / absent versus a present value. */
  datatype Option<+T> = None | Some(value: T) {
    function GetOr(default: T): T {
      match this
      case Some(v) => v
      case None => default
    }
  }

  /**
   * One playlist entry. `id` is the entry's own unique id; `videoId` is the
   * identifier taken from the YouTube URL (several entries may share it).
   * Timestamps are integers; `seenAt == None` means the video is unseen.
   */
  datatype VideoRecord = VideoRecord(
    id: string,
    url: string,
    videoId: string,
    title: string,
    channel: string,
    thumbnail: string,
    addedAt: int,
    seenAt: Option<int>)

  /** Title, channel and thumbnail as returned by the metadata lookup. */
  datatype Metadata = Metadata(title: string, channel: string, thumbnail: string)

  /** The record ids of a playlist are pairwise distinct. */
  ghost predicate UniqueIds(p: seq<VideoRecord>) {
    forall i, j :: 0 <= i < j < |p| ==> p[i].id != p[j].id
  }
}
