/** The video tracker's records, the watched-share rule behind a playlist's
    `progress`, and the stored playlist array that every video component
    reads and rewrites. */
module VideoTypes {
  import opened Common

  datatype Source = YouTube | Custom

  /** A video; `dateAdded` is an ISO timestamp. */
  datatype VideoItem = VideoItem(
    id: string,
    title: string,
    description: Option<string>,
    thumbnailUrl: Option<string>,
    url: string,
    duration: Option<string>,
    watched: bool,
    dateAdded: string)

  /** A playlist; `progress` is the stored percentage of watched videos. */
  datatype VideoPlaylist = VideoPlaylist(
    id: string,
    title: string,
    description: Option<string>,
    thumbnailUrl: Option<string>,
    source: Source,
    playlistUrl: Option<string>,
    videos: seq<VideoItem>,
    dateAdded: string,
    lastUpdated: string,
    progress: int)

  /** `videos.filter(v => v.watched).length`. */
  function WatchedCount(videos: seq<VideoItem>): (r: nat)
    ensures r <= |videos|
  {
    Count(videos, (v: VideoItem) => v.watched)
  }

  /** The percentage the components store: rounded watched share, 0 for an
      empty playlist. */
  function WatchedProgress(videos: seq<VideoItem>): (r: nat)
    ensures r <= 100
    ensures videos == [] ==> r == 0
  {
    PercentBounds(WatchedCount(videos), |videos|);
    Percent(WatchedCount(videos), |videos|)
  }

  /** The stored progress agrees with the videos. */
  predicate Accurate(p: VideoPlaylist) {
    p.progress == WatchedProgress(p.videos)
  }

  predicate AllAccurate(pls: seq<VideoPlaylist>) {
    forall i :: 0 <= i < |pls| ==> Accurate(pls[i])
  }

  predicate UniqueIds(pls: seq<VideoPlaylist>) {
    UniqueKeys(pls, (p: VideoPlaylist) => p.id)
  }

  /** `findIndex` by playlist id: the first position with that id, -1 when
      there is none. */
  function PlaylistIndex(pls: seq<VideoPlaylist>, playlistId: string): int {
    FindIndex(pls, (p: VideoPlaylist) => p.id == playlistId)
  }

  /** An accurate progress is a percentage. */
  lemma WatchedProgressBounds(videos: seq<VideoItem>)
    ensures WatchedProgress(videos) <= 100
    ensures videos == [] ==> WatchedProgress(videos) == 0
  {
    PercentBounds(WatchedCount(videos), |videos|);
  }

  /** The `videoPlaylists` entry of the browser's storage, already parsed; a
      missing entry reads as the empty array. */
  class Store {
    var playlists: seq<VideoPlaylist>

    constructor (saved: Option<seq<VideoPlaylist>>)
      ensures playlists == if saved.Some? then saved.value else []
    {
      playlists := if saved.Some? then saved.value else [];
    }
  }
}
