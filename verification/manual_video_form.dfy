/** The manual video form: appends a video to the chosen stored playlist,
    refreshes that playlist's update time and progress, and writes the
    array back. */
module ManualVideoForm {
  import opened Common
  import opened VideoTypes

  /** How a submission ends: the toast it shows, or success. */
  datatype AddOutcome = NoPlaylistSelected | PlaylistNotFound | Added

  /** The video the form builds: not watched, no optional fields. */
  function NewVideo(id: string, title: string, url: string, now: string): VideoItem {
    VideoItem(id, title, None, None, url, None, false, now)
  }

  /** The chosen playlist after the push: one more video at the end, `now`
      as its update time and a progress recomputed from its videos. */
  function WithVideo(p: VideoPlaylist, v: VideoItem, now: string): (r: VideoPlaylist)
    ensures r.videos == p.videos + [v] && r.lastUpdated == now && Accurate(r)
    ensures r.id == p.id && r.title == p.title && r.source == p.source && r.dateAdded == p.dateAdded
  {
    var videos := p.videos + [v];
    p.(videos := videos, lastUpdated := now, progress := RoundPercent(WatchedCount(videos), |videos|))
  }

  /** The stored array after adding `v` to the first playlist with that id;
      `None` when there is none. */
  function AddVideo(pls: seq<VideoPlaylist>, playlistId: string, v: VideoItem, now: string): (r: Option<seq<VideoPlaylist>>)
    ensures r.None? <==> forall i :: 0 <= i < |pls| ==> pls[i].id != playlistId
    ensures r.Some? ==> |r.value| == |pls|
  {
    var k := PlaylistIndex(pls, playlistId);
    if k == -1 then None else Some(pls[k := WithVideo(pls[k], v, now)])
  }

  /** Exactly the first playlist with that id gains the video; every other
      playlist is unchanged, every id stays where it was, and progress that
      was accurate stays accurate. */
  lemma AddVideoSpec(pls: seq<VideoPlaylist>, playlistId: string, v: VideoItem, now: string)
    ensures var r := AddVideo(pls, playlistId, v, now);
      r.Some? ==>
        exists k :: 0 <= k < |pls| && pls[k].id == playlistId &&
          (forall j :: 0 <= j < k ==> pls[j].id != playlistId) &&
          r.value[k] == WithVideo(pls[k], v, now) &&
          (forall i :: 0 <= i < |pls| && i != k ==> r.value[i] == pls[i])
    ensures var r := AddVideo(pls, playlistId, v, now);
      r.Some? ==>
        (forall i :: 0 <= i < |pls| ==> r.value[i].id == pls[i].id) &&
        (UniqueIds(pls) ==> UniqueIds(r.value)) &&
        (AllAccurate(pls) ==> AllAccurate(r.value))
  {
    var k := PlaylistIndex(pls, playlistId);
    if k != -1 {
      var r := AddVideo(pls, playlistId, v, now).value;
      assert r[k] == WithVideo(pls[k], v, now);
      assert forall i :: 0 <= i < |pls| ==> r[i].id == pls[i].id;
    }
  }

  /** Adding a video that is not watched never raises an accurate
      progress: the watched count stays, the total grows. */
  lemma AddUnwatchedNeverRaises(p: VideoPlaylist, v: VideoItem, now: string)
    requires Accurate(p) && !v.watched
    ensures WatchedCount(WithVideo(p, v, now).videos) == WatchedCount(p.videos)
    ensures WithVideo(p, v, now).progress <= p.progress
  {
    var watched := (x: VideoItem) => x.watched;
    CountAppend(p.videos, [v], watched);
    CountAllOrNone([v], watched);
    if p.videos == [] {
      PercentBounds(0, 1);
    } else {
      PercentGrowingTotal(WatchedCount(p.videos), |p.videos|);
    }
  }

  /** The submit button is enabled when a title, a URL and a playlist are
      all given (the in-flight flag aside). */
  predicate CanSubmit(title: string, url: string, playlistId: string) {
    !(Blank(title) || Blank(url) || playlistId == "")
  }

  /** Enabled means: a playlist is chosen and both title and URL hold a
      character that is not white space. */
  lemma CanSubmitSpec(title: string, url: string, playlistId: string)
    ensures CanSubmit(title, url, playlistId) <==>
      playlistId != "" &&
      (exists i :: 0 <= i < |title| && !IsSpace(title[i])) &&
      (exists i :: 0 <= i < |url| && !IsSpace(url[i]))
  {
    BlankIffAllSpace(title);
    BlankIffAllSpace(url);
  }

  /** The manual video form component; `store` is the browser's stored
      playlist array. */
  class Form {
    var title: string
    var url: string
    var playlistId: string
    var playlists: seq<VideoPlaylist>
    var isSubmitting: bool
    var store: Store

    /** Mount: empty fields, the stored playlists offered in the selector. */
    constructor (store: Store)
      ensures this.store == store && playlists == store.playlists
      ensures title == "" && url == "" && playlistId == "" && !isSubmitting
    {
      this.store := store;
      playlists := store.playlists;
      title := "";
      url := "";
      playlistId := "";
      isSubmitting := false;
    }

    /** `handleAddVideo`; `videoId` and `now` stand for the generated id and
        the current time. */
    method HandleAddVideo(videoId: string, now: string) returns (outcome: AddOutcome)
      modifies this, store
      ensures store == old(store) && playlistId == old(playlistId) && playlists == old(playlists)
      ensures playlistId == "" ==>
        outcome == NoPlaylistSelected && store.playlists == old(store.playlists) &&
        title == old(title) && url == old(url) && isSubmitting == old(isSubmitting)
      ensures playlistId != "" ==>
        !isSubmitting &&
        var added := AddVideo(old(store.playlists), playlistId, NewVideo(videoId, old(title), old(url), now), now);
        (added.None? ==>
          outcome == PlaylistNotFound && store.playlists == old(store.playlists) &&
          title == old(title) && url == old(url)) &&
        (added.Some? ==>
          outcome == Added && store.playlists == added.value && title == "" && url == "")
    {
      if playlistId == "" {
        outcome := NoPlaylistSelected;
        return;
      }
      isSubmitting := true;
      var existing := store.playlists;
      var k := PlaylistIndex(existing, playlistId);
      if k == -1 {
        outcome := PlaylistNotFound;
        isSubmitting := false;
        return;
      }
      var newVideo := NewVideo(videoId, title, url, now);
      var p := existing[k];
      p := p.(videos := p.videos + [newVideo]);
      p := p.(lastUpdated := now);
      var watchedCount := Count(p.videos, (v: VideoItem) => v.watched);
      p := p.(progress := RoundPercent(watchedCount, |p.videos|));
      existing := existing[k := p];
      store.playlists := existing;
      title := "";
      url := "";
      outcome := Added;
      isSubmitting := false;
    }
  }
}
