/**
 * The remote side as the handlers see it: the user's playlist listing, each
 * playlist's info, items and snapshot, and the requests that change a
 * playlist, in the order they were sent. Every call may fail (network error,
 * error status); which calls fail is not under the caller's control.
 */
module SpotifyService {
  import opened Wrappers
  import opened TrackLists
  import opened SpotifyApi
  import Roster

  /** Items per page of the playlist listing (`limit: 50`). */
  const RosterPageSize: nat := 50

  /** Items per page of a playlist's items. */
  const TracksPageSize: nat := 100

  /** A playlist on the service: its info, its items in order, and its snapshot, a version counter. */
  datatype RemotePlaylist = RemotePlaylist(info: PlaylistInfo, tracks: seq<Track>, snapshot: nat)

  /** One page of a paged listing: its items and, when more follow, the offset of the next page (`next`). */
  datatype Page<T> = Page(items: seq<T>, next: Option<nat>)

  /** The page of `s` that starts at `offset`. */
  function PageAt<T>(s: seq<T>, offset: nat, size: nat): Page<T>
    requires 0 < size && offset <= |s|
  {
    if offset + size < |s| then Page(s[offset..offset + size], Some(offset + size))
    else Page(s[offset..], None)
  }

  /**
   * Appending the page at `offset` to the items before it gives the items up
   * to the next offset, or all of them on the last page; the next offset is
   * strictly larger and still within the listing.
   */
  lemma PageExtends<T>(s: seq<T>, offset: nat, size: nat)
    requires 0 < size && offset <= |s|
    ensures PageAt(s, offset, size).next.Some? ==>
      var n := PageAt(s, offset, size).next.value;
      offset < n < |s| && s[..offset] + PageAt(s, offset, size).items == s[..n]
    ensures PageAt(s, offset, size).next.None? ==> s[..offset] + PageAt(s, offset, size).items == s
  {
    if offset + size < |s| {
      assert s[..offset] + s[offset..offset + size] == s[..offset + size];
    } else {
      assert s[..offset] + s[offset..] == s;
    }
  }

  /**
   * One page of a playlist's items, and the snapshot id when the `fields`
   * of the request select `snapshot_id` (`None` is JavaScript's `undefined`).
   */
  datatype TracksPage = TracksPage(snapshot: Option<nat>, page: Page<Track>)

  /** The fields of the first items request of `_getPlaylistTracks`: the items and `next`, no snapshot id. */
  const InitialTrackFields: seq<string> := ["tracks(next,items(is_local,track(uri)))"]

  /** The same request with `snapshot_id` added, so that the first removal names the version it read. */
  const VersionedTrackFields: seq<string> := ["tracks(next,items(is_local,track(uri)))", "snapshot_id"]

  /** The fields of the later items requests (`mainFields`). */
  const MainTrackFields: seq<string> := ["next", "items(is_local,track(uri))"]

  /** What an items request with the given `fields` returns for the page at `offset`. */
  function TracksResponse(p: RemotePlaylist, fields: seq<string>, offset: nat): (r: TracksPage)
    requires offset <= |p.tracks|
    ensures r.page == PageAt(p.tracks, offset, TracksPageSize)
    ensures r.snapshot.Some? <==> "snapshot_id" in fields
    ensures r.snapshot.Some? ==> r.snapshot.value == p.snapshot
  {
    TracksPage(if "snapshot_id" in fields then Some(p.snapshot) else None, PageAt(p.tracks, offset, TracksPageSize))
  }

  /** Non-local items with the given URIs, as the service stores appended URIs. */
  function AsTracks(uris: seq<string>): (r: seq<Track>)
    ensures |r| == |uris| && forall i :: 0 <= i < |uris| ==> r[i] == Track(false, uris[i])
  {
    seq(|uris|, i requires 0 <= i < |uris| => Track(false, uris[i]))
  }

  lemma AsTracksAppend(a: seq<string>, b: seq<string>)
    ensures AsTracks(a + b) == AsTracks(a) + AsTracks(b)
  {
  }

  /** The playlist after a successful append: the new items at the end, a new snapshot. */
  function Appended(p: RemotePlaylist, uris: seq<string>): RemotePlaylist
  {
    p.(tracks := p.tracks + AsTracks(uris), snapshot := p.snapshot + 1)
  }

  /** The playlist after a successful positional removal. */
  function Removed(p: RemotePlaylist, positions: seq<int>): RemotePlaylist
  {
    p.(tracks := Drop(p.tracks, Positions(positions), 0), snapshot := p.snapshot + 1)
  }

  class Spotify {
    /** The user's playlists as the service lists them. */
    var roster: seq<Roster.Pl>
    var playlists: map<string, RemotePlaylist>
    /** Every append and removal request sent, successful or not, in order. */
    var sent: seq<Request>

    constructor(roster: seq<Roster.Pl>, playlists: map<string, RemotePlaylist>)
      ensures this.roster == roster && this.playlists == playlists && sent == []
    {
      this.roster := roster;
      this.playlists := playlists;
      sent := [];
    }

    /** `getCurrentUsersPlaylistsFirstPage` (offset 0) and `...NextPage` (the offset `next` names). */
    method GetCurrentUsersPlaylistsPage(offset: nat) returns (r: Option<Page<Roster.Pl>>)
      requires offset <= |roster|
      ensures r.Some? ==> r.value == PageAt(roster, offset, RosterPageSize)
    {
      var ok: bool := *;
      r := if ok then Some(PageAt(roster, offset, RosterPageSize)) else None;
    }

    /** `getPlaylistDetailsFirstPage` with the given `fields`; an unknown playlist is an error. */
    method GetPlaylistFields(playlistId: string, fields: seq<string>) returns (r: Fetched<PlaylistFields>)
      ensures r.Fetched? ==> playlistId in playlists && r.data == SelectFields(playlists[playlistId].info, fields)
      ensures playlistId !in playlists ==> r.FetchFailed?
    {
      var ok: bool := *;
      if ok && playlistId in playlists {
        r := Fetched(SelectFields(playlists[playlistId].info, fields));
      } else {
        var error: string := *;
        var message: string := *;
        r := FetchFailed(error, message);
      }
    }

    /**
     * `getPlaylistDetailsFirstPage` (offset 0) and `...NextPage` over a
     * playlist's items, with the given `fields`.
     */
    method GetPlaylistTracksPage(playlistId: string, offset: nat, fields: seq<string>) returns (r: Option<TracksPage>)
      ensures r.Some? ==> playlistId in playlists && offset <= |playlists[playlistId].tracks|
      ensures r.Some? ==> r.value.page == PageAt(playlists[playlistId].tracks, offset, TracksPageSize)
      ensures r.Some? ==> (r.value.snapshot.Some? <==> "snapshot_id" in fields)
      ensures r.Some? && r.value.snapshot.Some? ==> r.value.snapshot.value == playlists[playlistId].snapshot
    {
      var ok: bool := *;
      if ok && playlistId in playlists && offset <= |playlists[playlistId].tracks| {
        r := Some(TracksResponse(playlists[playlistId], fields, offset));
      } else {
        r := None;
      }
    }

    /**
     * `addItemsToPlaylist`: the request is sent; when it succeeds (known
     * playlist, at most 100 URIs) the items are appended and the new snapshot
     * returned, otherwise nothing changes.
     */
    method AddItemsToPlaylist(playlistId: string, batch: seq<string>) returns (r: Option<nat>)
      modifies this
      ensures sent == old(sent) + [AddItemsRequest(playlistId, batch)]
      ensures roster == old(roster)
      ensures r.Some? ==> playlistId in old(playlists) && |batch| <= BatchLimit
      ensures r.Some? ==> playlists == old(playlists)[playlistId := Appended(old(playlists)[playlistId], batch)]
      ensures r.Some? ==> r.value == playlists[playlistId].snapshot
      ensures r.None? ==> playlists == old(playlists)
    {
      sent := sent + [AddItemsRequest(playlistId, batch)];
      var ok: bool := *;
      if ok && playlistId in playlists && |batch| <= BatchLimit {
        playlists := playlists[playlistId := Appended(playlists[playlistId], batch)];
        r := Some(playlists[playlistId].snapshot);
      } else {
        r := None;
      }
    }

    /**
     * `removePlaylistItems`: the request is sent; when it succeeds (known
     * playlist, the snapshot is the current one, at most 100 positions, all
     * within the playlist) the items at those positions are removed and the
     * new snapshot returned, otherwise nothing changes.
     */
    method RemovePlaylistItems(playlistId: string, positions: seq<int>, snapshotId: nat) returns (r: Option<nat>)
      modifies this
      ensures sent == old(sent) + [RemoveItemsRequest(playlistId, positions, snapshotId)]
      ensures roster == old(roster)
      ensures r.Some? ==> playlistId in old(playlists) && old(playlists)[playlistId].snapshot == snapshotId
      ensures r.Some? ==> |positions| <= BatchLimit
      ensures r.Some? ==> forall i :: 0 <= i < |positions| ==> 0 <= positions[i] < |old(playlists)[playlistId].tracks|
      ensures r.Some? ==> playlists == old(playlists)[playlistId := Removed(old(playlists)[playlistId], positions)]
      ensures r.Some? ==> r.value == playlists[playlistId].snapshot
      ensures r.None? ==> playlists == old(playlists)
    {
      sent := sent + [RemoveItemsRequest(playlistId, positions, snapshotId)];
      var ok: bool := *;
      if ok && playlistId in playlists && playlists[playlistId].snapshot == snapshotId && |positions| <= BatchLimit
         && (forall i :: 0 <= i < |positions| ==> 0 <= positions[i] < |playlists[playlistId].tracks|) {
        playlists := playlists[playlistId := Removed(playlists[playlistId], positions)];
        r := Some(playlists[playlistId].snapshot);
      } else {
        r := None;
      }
    }
  }
}
