/** The YouTube sync form: derives a playlist id from the pasted URL,
    builds five placeholder videos, and either adds a new YouTube playlist
    to the stored array or refreshes the one with that id. */
module YoutubePlaylistSync {
  import opened Common
  import opened VideoTypes

  const ListMarker: string := "?list="
  const PlaceholderThumbnail: string := "https://i.ytimg.com/vi/placeholder/mqdefault.jpg"

  /** `pat` occurs in `s` at position `j`. */
  predicate OccursAt(s: string, pat: string, j: int) {
    0 <= j && j + |pat| <= |s| && s[j..j + |pat|] == pat
  }

  /** Where `IndexOf` finds no occurrence before a position, none starts
      there. */
  lemma NoOccurrenceBefore(s: string, sep: string, k: int)
    requires 0 <= k <= |s|
    requires forall j :: 0 <= j < k ==> !(sep <= s[j..])
    ensures forall j :: j < k ==> !OccursAt(s, sep, j)
  {
    forall j | 0 <= j < k ensures !OccursAt(s, sep, j) {
      assert !(sep <= s[j..]);
      if j + |sep| <= |s| {
        assert s[j..][..|sep|] == s[j..j + |sep|];
      }
    }
  }

  /** `s.split(sep)[0]`: the text before the first `sep`, or all of `s`. */
  function BeforeFirst(s: string, sep: string): (r: string)
    requires sep != []
    ensures r <= s
    ensures forall j :: !OccursAt(r, sep, j)
    ensures r == s || OccursAt(s, sep, |r|)
  {
    match IndexOf(s, sep)
    case Some(k) =>
      NoOccurrenceBefore(s, sep, k);
      assert forall j :: OccursAt(s[..k], sep, j) ==> OccursAt(s, sep, j) by {
        forall j | OccursAt(s[..k], sep, j) ensures OccursAt(s, sep, j) {
          assert s[..k][j..j + |sep|] == s[j..j + |sep|];
        }
      }
      s[..k]
    case None =>
      NoOccurrenceBefore(s, sep, |s|);
      s
  }

  /** Splitting at a one-character separator: the first piece does not
      hold that character. */
  lemma BeforeFirstChar(s: string, c: char)
    ensures c !in BeforeFirst(s, [c])
  {
    var r := BeforeFirst(s, [c]);
    forall j | 0 <= j < |r| ensures r[j] != c {
      assert !OccursAt(r, [c], j);
      assert r[j..j + 1] == [r[j]];
    }
  }

  /** `rest.split('?list=')[0].split('&')[0]`: the list id at the start of
      the text after the marker. It is a prefix of that text, holds no `&`
      and no second marker, and ends at the end of the text, at an `&` or
      at a second marker. */
  function ListId(rest: string): (r: string)
    ensures r <= rest && '&' !in r
    ensures forall j :: !OccursAt(r, ListMarker, j)
    ensures r == rest || rest[|r|] == '&' || OccursAt(rest, ListMarker, |r|)
  {
    var a := BeforeFirst(rest, ListMarker);
    BeforeFirstChar(a, '&');
    var r := BeforeFirst(a, "&");
    assert a == rest[..|a|] && r == a[..|r|];
    forall j | OccursAt(r, ListMarker, j) ensures OccursAt(a, ListMarker, j) {
      assert r[j..j + |ListMarker|] == a[j..j + |ListMarker|];
    }
    r
  }

  /** `youtubeId`: the list id after the first `?list=`; without the
      marker, "PL" and a random suffix. */
  function YoutubeId(url: string, randomSuffix: string): (r: string)
    ensures IndexOf(url, ListMarker).Some? ==>
      var start := IndexOf(url, ListMarker).value + |ListMarker|;
      r <= url[start..] && '&' !in r && (forall j :: !OccursAt(r, ListMarker, j)) &&
      (r == url[start..] || url[start + |r|] == '&' || OccursAt(url[start..], ListMarker, |r|))
    ensures IndexOf(url, ListMarker).None? ==> r == "PL" + randomSuffix
  {
    match IndexOf(url, ListMarker)
    case Some(i) => ListId(url[i + |ListMarker|..])
    case None => "PL" + randomSuffix
  }

  /** `IndexOf` finds the first occurrence. */
  lemma IndexOfFirst(s: string, pat: string, k: nat)
    requires OccursAt(s, pat, k) && forall j :: 0 <= j < k ==> !OccursAt(s, pat, j)
    ensures IndexOf(s, pat) == Some(k)
  {
    assert s[k..][..|pat|] == s[k..k + |pat|];
    var r := IndexOf(s, pat);
    assert r.Some? ==> OccursAt(s, pat, r.value);
  }

  /** `IndexOf` finds nothing where nothing occurs. */
  lemma IndexOfAbsent(s: string, pat: string)
    requires forall j :: !OccursAt(s, pat, j)
    ensures IndexOf(s, pat) == None
  {
    var r := IndexOf(s, pat);
    assert r.Some? ==> OccursAt(s, pat, r.value);
  }

  /** Worked example, not a general claim: the URL
      "y.com/p?list=PLa&i=2" yields the list id "PLa". The literal is a
      parameter fixed by the precondition, as in the helpers below. */
  lemma YoutubeIdExample(url: string)
    requires url == "y.com/p?list=PLa&i=2"
    ensures YoutubeId(url, "") == "PLa"
  {
    ExampleMarkerFound(url);
    var rest := url[7 + |ListMarker|..];
    assert YoutubeId(url, "") == ListId(rest);
    assert rest == "PLa&i=2";
    ExampleListId(rest);
  }

  /** Worked example: the text after the marker, "PLa&i=2", yields
      "PLa". */
  lemma ExampleListId(rest: string)
    requires rest == "PLa&i=2"
    ensures ListId(rest) == "PLa"
  {
    ExampleNoSecondMarker(rest);
    ExampleAmpersandFound(rest);
    assert BeforeFirst(rest, ListMarker) == rest;
    assert BeforeFirst(rest, "&") == rest[..3] == "PLa";
  }

  /** Worked example: the marker of the example URL sits at position 7. */
  lemma ExampleMarkerFound(url: string)
    requires url == "y.com/p?list=PLa&i=2"
    ensures IndexOf(url, ListMarker) == Some(7)
  {
    assert OccursAt(url, ListMarker, 7);
    forall j | 0 <= j < 7 ensures !OccursAt(url, ListMarker, j) {
      assert url[j] != '?';
      assert url[j..j + |ListMarker|][0] == url[j];
    }
    IndexOfFirst(url, ListMarker, 7);
  }

  /** Worked example: "PLa&i=2" holds no second marker. */
  lemma ExampleNoSecondMarker(rest: string)
    requires rest == "PLa&i=2"
    ensures IndexOf(rest, ListMarker) == None
  {
    forall j ensures !OccursAt(rest, ListMarker, j) {
      if 0 <= j < |rest| {
        assert rest[j] != '?';
      }
    }
    IndexOfAbsent(rest, ListMarker);
  }

  /** Worked example: the first `&` of "PLa&i=2" sits at position 3. */
  lemma ExampleAmpersandFound(rest: string)
    requires rest == "PLa&i=2"
    ensures IndexOf(rest, "&") == Some(3)
  {
    assert OccursAt(rest, "&", 3);
    forall j | 0 <= j < 3 ensures !OccursAt(rest, "&", j) {
      assert rest[j] != '&';
    }
    IndexOfFirst(rest, "&", 3);
  }

  /** The decimal digit of a number below ten. */
  function Digit(d: nat): (r: string)
    requires d < 10
    ensures |r| == 1 && '0' <= r[0] <= '9'
  {
    [(48 + d) as char]
  }

  /** The five placeholder videos; `ids` stand for the five generated ids.
      The first two are watched. */
  function MockVideos(ids: seq<string>, now: string): (r: seq<VideoItem>)
    requires |ids| == 5
    ensures |r| == 5
    ensures forall i :: 0 <= i < 5 ==> r[i].id == ids[i] && r[i].watched == (i < 2)
  {
    seq(5, i requires 0 <= i < 5 =>
      VideoItem(ids[i], "Video " + Digit(i + 1) + " - YouTube Tutorial", None,
        Some(PlaceholderThumbnail), "https://youtube.com/watch?v=sample" + Digit(i),
        Some("10:30"), i < 2, now))
  }

  /** The playlist a first sync adds, with its fixed progress of 40. */
  function NewSyncedPlaylist(id: string, url: string, videos: seq<VideoItem>, now: string): VideoPlaylist {
    VideoPlaylist(id, "Watch Later Playlist", Some("Synced from YouTube"), Some(PlaceholderThumbnail),
      YouTube, Some(url), videos, now, now, 40)
  }

  /** The stored array after a sync: the playlist with that id gets the new
      videos and update time, otherwise a new playlist is appended. */
  function SyncPlaylists(pls: seq<VideoPlaylist>, id: string, url: string, videos: seq<VideoItem>, now: string): (r: seq<VideoPlaylist>)
    ensures PlaylistIndex(pls, id) == -1 ==> |r| == |pls| + 1 && r[..|pls|] == pls
    ensures PlaylistIndex(pls, id) >= 0 ==> |r| == |pls|
    ensures exists k :: 0 <= k < |r| && r[k].id == id && r[k].videos == videos && r[k].lastUpdated == now
  {
    var k := PlaylistIndex(pls, id);
    if k >= 0 then
      var r := pls[k := pls[k].(lastUpdated := now, videos := videos)];
      assert r[k].id == id;
      r
    else
      var r := pls + [NewSyncedPlaylist(id, url, videos, now)];
      assert r[|pls|].id == id;
      r
  }

  /** The placeholder videos are two of five watched: 40 percent, the
      progress a new synced playlist is stored with. */
  lemma MockProgressIs40(ids: seq<string>, now: string)
    requires |ids| == 5
    ensures WatchedCount(MockVideos(ids, now)) == 2
    ensures WatchedProgress(MockVideos(ids, now)) == 40
  {
    var ms := MockVideos(ids, now);
    var watched := (v: VideoItem) => v.watched;
    assert ms == ms[..2] + ms[2..];
    CountAppend(ms[..2], ms[2..], watched);
    CountAllOrNone(ms[..2], watched);
    CountAllOrNone(ms[2..], watched);
  }

  /** A new id adds a playlist whose progress is accurate; a known id keeps
      every other playlist, and every field of its own but the videos and
      the update time, so its progress is left as it was. */
  lemma SyncSpec(pls: seq<VideoPlaylist>, ids: seq<string>, id: string, url: string, now: string)
    requires |ids| == 5
    ensures var r := SyncPlaylists(pls, id, url, MockVideos(ids, now), now);
      PlaylistIndex(pls, id) == -1 ==> r[|pls|].source == YouTube && Accurate(r[|pls|])
    ensures var r := SyncPlaylists(pls, id, url, MockVideos(ids, now), now);
      var k := PlaylistIndex(pls, id);
      k >= 0 ==>
        r[k] == pls[k].(videos := MockVideos(ids, now), lastUpdated := now) &&
        forall i :: 0 <= i < |pls| && i != k ==> r[i] == pls[i]
  {
    MockProgressIs40(ids, now);
  }

  /** Syncing never creates a second playlist with the same id. */
  lemma SyncKeepsUniqueIds(pls: seq<VideoPlaylist>, id: string, url: string, videos: seq<VideoItem>, now: string)
    requires UniqueIds(pls)
    ensures UniqueIds(SyncPlaylists(pls, id, url, videos, now))
  {
    var r := SyncPlaylists(pls, id, url, videos, now);
    var k := PlaylistIndex(pls, id);
    if k == -1 {
      AppendKeepsUniqueKeys(pls, NewSyncedPlaylist(id, url, videos, now), (p: VideoPlaylist) => p.id);
    } else {
      assert forall i :: 0 <= i < |r| ==> r[i].id == pls[i].id;
    }
  }

  /** A re-sync keeps the stored progress: the refreshed playlist's progress
      matches its new videos exactly when it was already 40. */
  lemma ResyncProgressStale(pls: seq<VideoPlaylist>, ids: seq<string>, id: string, url: string, now: string)
    requires |ids| == 5 && PlaylistIndex(pls, id) >= 0
    ensures var k := PlaylistIndex(pls, id);
      Accurate(SyncPlaylists(pls, id, url, MockVideos(ids, now), now)[k]) <==> pls[k].progress == 40
  {
    MockProgressIs40(ids, now);
  }

  /** The sync button is enabled when the URL holds a character that is not
      white space (the in-flight flag aside). */
  predicate CanSync(url: string) {
    !Blank(url)
  }

  lemma CanSyncSpec(url: string)
    ensures CanSync(url) <==> exists i :: 0 <= i < |url| && !IsSpace(url[i])
  {
    BlankIffAllSpace(url);
  }

  /** The sync form component; `store` is the browser's stored playlist
      array. */
  class Sync {
    var playlistUrl: string
    var isSyncing: bool
    var store: Store

    constructor (store: Store)
      ensures this.store == store && playlistUrl == "" && !isSyncing
    {
      this.store := store;
      playlistUrl := "";
      isSyncing := false;
    }

    method SetPlaylistUrl(url: string)
      modifies this
      ensures playlistUrl == url && isSyncing == old(isSyncing) && store == old(store)
    {
      playlistUrl := url;
    }

    /** `handleSyncPlaylist`; `randomSuffix`, `videoIds` and `now` stand
        for the random id suffix, the generated video ids and the current
        time. */
    method HandleSyncPlaylist(randomSuffix: string, videoIds: seq<string>, now: string)
      requires |videoIds| == 5
      modifies this, store
      ensures store == old(store) && !isSyncing && playlistUrl == ""
      ensures store.playlists ==
        SyncPlaylists(old(store.playlists), YoutubeId(old(playlistUrl), randomSuffix), old(playlistUrl),
          MockVideos(videoIds, now), now)
    {
      isSyncing := true;
      var existing := store.playlists;
      var youtubeId := YoutubeId(playlistUrl, randomSuffix);
      var mockVideos := MockVideos(videoIds, now);
      var newPlaylist := NewSyncedPlaylist(youtubeId, playlistUrl, mockVideos, now);
      var k := PlaylistIndex(existing, youtubeId);
      if k >= 0 {
        existing := existing[k := existing[k].(lastUpdated := now, videos := mockVideos)];
      } else {
        existing := existing + [newPlaylist];
      }
      store.playlists := existing;
      playlistUrl := "";
      isSyncing := false;
    }
  }
}
