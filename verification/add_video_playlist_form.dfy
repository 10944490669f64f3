/** The new-playlist form: appends an empty custom playlist to the stored
    array and clears its fields. */
module AddVideoPlaylistForm {
  import opened Common
  import opened VideoTypes

  /** The playlist the form builds: custom, no videos, progress 0. */
  function NewCustomPlaylist(id: string, title: string, description: string, now: string): VideoPlaylist {
    VideoPlaylist(id, title, Some(description), None, Custom, None, [], now, now, 0)
  }

  /** The stored array after `handleCreatePlaylist`. */
  function CreatePlaylist(pls: seq<VideoPlaylist>, id: string, title: string, description: string, now: string): (r: seq<VideoPlaylist>)
    ensures |r| == |pls| + 1 && r[..|pls|] == pls
    ensures r[|pls|].id == id && r[|pls|].title == title && r[|pls|].videos == []
  {
    pls + [NewCustomPlaylist(id, title, description, now)]
  }

  /** The new playlist's progress of 0 is accurate, so accurate progress
      stays accurate; a fresh id keeps the ids unique. */
  lemma CreateSpec(pls: seq<VideoPlaylist>, id: string, title: string, description: string, now: string)
    ensures Accurate(NewCustomPlaylist(id, title, description, now))
    ensures AllAccurate(pls) ==> AllAccurate(CreatePlaylist(pls, id, title, description, now))
    ensures UniqueIds(pls) && (forall p :: p in pls ==> p.id != id) ==>
      UniqueIds(CreatePlaylist(pls, id, title, description, now))
  {
    var r := CreatePlaylist(pls, id, title, description, now);
    WatchedProgressBounds([]);
    if UniqueIds(pls) && (forall p :: p in pls ==> p.id != id) {
      AppendKeepsUniqueKeys(pls, NewCustomPlaylist(id, title, description, now), (p: VideoPlaylist) => p.id);
    }
    assert forall i :: 0 <= i < |pls| ==> r[i] == pls[i];
  }

  /** The create button is enabled when the title holds a character that is
      not white space (the in-flight flag aside). */
  predicate CanCreate(title: string) {
    !Blank(title)
  }

  lemma CanCreateSpec(title: string)
    ensures CanCreate(title) <==> exists i :: 0 <= i < |title| && !IsSpace(title[i])
  {
    BlankIffAllSpace(title);
  }

  /** The new-playlist form component; `store` is the browser's stored
      playlist array. */
  class Form {
    var title: string
    var description: string
    var isSubmitting: bool
    var store: Store

    constructor (store: Store)
      ensures this.store == store && title == "" && description == "" && !isSubmitting
    {
      this.store := store;
      title := "";
      description := "";
      isSubmitting := false;
    }

    /** `handleCreatePlaylist`; `id` and `now` stand for the generated id
        and the current time. */
    method HandleCreatePlaylist(id: string, now: string)
      modifies this, store
      ensures store == old(store) && !isSubmitting && title == "" && description == ""
      ensures store.playlists == CreatePlaylist(old(store.playlists), id, old(title), old(description), now)
    {
      isSubmitting := true;
      var existing := store.playlists;
      var newPlaylist := NewCustomPlaylist(id, title, description, now);
      existing := existing + [newPlaylist];
      store.playlists := existing;
      title := "";
      description := "";
      isSubmitting := false;
    }
  }
}
