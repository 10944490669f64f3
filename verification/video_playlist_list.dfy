/** The playlist list: marking a video watched or unwatched (with the
    playlist's progress recomputed) and deleting a playlist, each written
    back to storage. */
module VideoPlaylistList {
  import opened Common
  import opened VideoTypes

  /** The inner map: flip `watched` on the videos with that id. */
  function ToggleVideos(videos: seq<VideoItem>, videoId: string): (r: seq<VideoItem>)
    ensures |r| == |videos|
    ensures forall i :: 0 <= i < |videos| ==>
      r[i] == if videos[i].id == videoId then videos[i].(watched := !videos[i].watched) else videos[i]
  {
    seq(|videos|, i requires 0 <= i < |videos| =>
      if videos[i].id == videoId then videos[i].(watched := !videos[i].watched) else videos[i])
  }

  /** One playlist after the toggle: new videos, recomputed progress, `now`
      as the update time. */
  function ToggleInPlaylist(p: VideoPlaylist, videoId: string, now: string): (r: VideoPlaylist)
    ensures r.videos == ToggleVideos(p.videos, videoId) && Accurate(r) && r.lastUpdated == now
    ensures r.id == p.id && r.title == p.title && r.source == p.source && r.dateAdded == p.dateAdded
  {
    var videos := ToggleVideos(p.videos, videoId);
    p.(videos := videos, progress := WatchedProgress(videos), lastUpdated := now)
  }

  /** `toggleVideoWatched`. */
  function ToggleVideoWatched(pls: seq<VideoPlaylist>, playlistId: string, videoId: string, now: string): (r: seq<VideoPlaylist>)
    ensures |r| == |pls|
    ensures forall i :: 0 <= i < |pls| ==>
      r[i] == if pls[i].id == playlistId then ToggleInPlaylist(pls[i], videoId, now) else pls[i]
  {
    seq(|pls|, i requires 0 <= i < |pls| =>
      if pls[i].id == playlistId then ToggleInPlaylist(pls[i], videoId, now) else pls[i])
  }

  /** `handleDeletePlaylist`. */
  function DeletePlaylist(pls: seq<VideoPlaylist>, id: string): (r: seq<VideoPlaylist>)
    ensures |r| <= |pls| && forall i :: 0 <= i < |r| ==> r[i] in pls && r[i].id != id
    ensures forall i :: 0 <= i < |pls| && pls[i].id != id ==> pls[i] in r
  {
    Filter(pls, (p: VideoPlaylist) => p.id != id)
  }

  /** A toggle keeps every video in place and every progress accurate, and
      leaves the other playlists alone; an unknown playlist id changes
      nothing. */
  lemma ToggleSpec(pls: seq<VideoPlaylist>, playlistId: string, videoId: string, now: string)
    ensures AllAccurate(pls) ==> AllAccurate(ToggleVideoWatched(pls, playlistId, videoId, now))
    ensures forall i :: 0 <= i < |pls| ==>
      var v := ToggleVideoWatched(pls, playlistId, videoId, now)[i].videos;
      |v| == |pls[i].videos| && forall j :: 0 <= j < |v| ==> v[j].id == pls[i].videos[j].id
    ensures (forall p :: p in pls ==> p.id != playlistId) ==> ToggleVideoWatched(pls, playlistId, videoId, now) == pls
  {
  }

  /** Toggling the same video twice restores every watched flag, and so the
      progress a playlist had while it was accurate. */
  lemma ToggleTwiceRestores(pls: seq<VideoPlaylist>, playlistId: string, videoId: string, now: string)
    ensures var r := ToggleVideoWatched(ToggleVideoWatched(pls, playlistId, videoId, now), playlistId, videoId, now);
            |r| == |pls| &&
            (forall i :: 0 <= i < |pls| ==> r[i].videos == pls[i].videos) &&
            (forall i :: 0 <= i < |pls| && Accurate(pls[i]) ==> r[i].progress == pls[i].progress)
  {
    var r1 := ToggleVideoWatched(pls, playlistId, videoId, now);
    var r := ToggleVideoWatched(r1, playlistId, videoId, now);
    forall i | 0 <= i < |pls| ensures r[i].videos == pls[i].videos {
      if pls[i].id == playlistId {
        assert ToggleVideos(ToggleVideos(pls[i].videos, videoId), videoId) == pls[i].videos;
      }
    }
  }

  /** With one video per id, marking an unwatched video watched never lowers
      the playlist's progress. */
  lemma WatchingRaisesProgress(p: VideoPlaylist, k: nat, now: string)
    requires k < |p.videos| && !p.videos[k].watched && Accurate(p)
    requires UniqueKeys(p.videos, (v: VideoItem) => v.id)
    ensures WatchedCount(ToggleInPlaylist(p, p.videos[k].id, now).videos) == WatchedCount(p.videos) + 1
    ensures ToggleInPlaylist(p, p.videos[k].id, now).progress >= p.progress
  {
    var vs := p.videos;
    var r := ToggleVideos(vs, vs[k].id);
    forall i | 0 <= i < |vs| && i != k ensures r[i].watched == vs[i].watched {
      assert vs[i].id != vs[k].id;
    }
    CountFlipOne(vs, r, (v: VideoItem) => v.watched, k);
    PercentMonotone(WatchedCount(vs), WatchedCount(r), |vs|);
  }

  /** Deletion removes exactly the playlists with that id, keeps the others
      in order, and keeps progress accurate. */
  lemma DeleteSpec(pls: seq<VideoPlaylist>, id: string)
    ensures forall p :: p in DeletePlaylist(pls, id) <==> p in pls && p.id != id
    ensures Subsequence(DeletePlaylist(pls, id), pls)
    ensures AllAccurate(pls) ==> AllAccurate(DeletePlaylist(pls, id))
  {
    FilterIsSubsequence(pls, (p: VideoPlaylist) => p.id != id);
  }

  /** The playlist list component. Its `playlists` state and the stored
      array are written together after every change. */
  class PlaylistList {
    var playlists: seq<VideoPlaylist>
    var store: Store

    /** Mount: the stored playlists are loaded. */
    constructor (store: Store)
      ensures this.store == store && playlists == store.playlists
    {
      this.store := store;
      playlists := store.playlists;
    }

    method HandleToggleVideoWatched(playlistId: string, videoId: string, now: string)
      modifies this, store
      ensures store == old(store)
      ensures playlists == ToggleVideoWatched(old(playlists), playlistId, videoId, now)
      ensures store.playlists == playlists
    {
      var updated := ToggleVideoWatched(playlists, playlistId, videoId, now);
      playlists := updated;
      store.playlists := updated;
    }

    method HandleDeletePlaylist(id: string)
      modifies this, store
      ensures store == old(store)
      ensures playlists == DeletePlaylist(old(playlists), id)
      ensures store.playlists == playlists
    {
      var updated := Filter(playlists, (p: VideoPlaylist) => p.id != id);
      playlists := updated;
      store.playlists := updated;
    }
  }
}
