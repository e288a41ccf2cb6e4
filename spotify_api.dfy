/**
 * The parts of the Spotify Web API wrapper the sync relies on: the
 * editability rule of `checkPlaylistEditable`, decided from the playlist
 * fields it fetches, and the requests that append to and remove from a
 * playlist.
 */
module SpotifyApi {
  import opened Wrappers

  /** What the service knows about a playlist besides its items. */
  datatype PlaylistInfo = PlaylistInfo(name: string, collaborative: bool, ownerId: string)

  /**
   * The fields a `fields=collaborative,owner(id),...` request returns:
   * `collaborative` and `owner.id` always, `name` only when it is asked for
   * (`None` is JavaScript's `undefined`).
   */
  datatype PlaylistFields = PlaylistFields(collaborative: bool, ownerId: string, name: Option<string>)

  function SelectFields(info: PlaylistInfo, fields: seq<string>): PlaylistFields
  {
    PlaylistFields(info.collaborative, info.ownerId, if "name" in fields then Some(info.name) else None)
  }

  /** `checkFields` of `checkPlaylistEditable`. */
  const CheckFields: seq<string> := ["collaborative", "owner(id)"]

  /** The same request with the playlist name added, so that a refusal can name the playlist. */
  const NamedCheckFields: seq<string> := ["collaborative", "owner(id)", "name"]

  /** A wrapped request: the response data, or the error and message the wrapper reports. */
  datatype Fetched<T> = Fetched(data: T) | FetchFailed(error: string, message: string)

  /** The `error` of a refused check: the failed request's, or the playlist that may not be edited. */
  datatype EditError =
    | Upstream(cause: string)
    | NotEditable(playlistId: string, playlistName: Option<string>)

  /** The record `checkPlaylistEditable` resolves to. */
  datatype EditCheck = EditCheck(status: bool, error: Option<EditError>, message: string)

  /** How string concatenation renders a field that may be `undefined`. */
  function JsText(s: Option<string>): string
  {
    if s.Some? then s.value else "undefined"
  }

  /** The rule: a collaborative playlist, or one the user owns, may be edited. */
  predicate Editable(fields: PlaylistFields, userId: string)
  {
    fields.collaborative || fields.ownerId == userId
  }

  /** `checkPlaylistEditable`, given what the fields request returned. */
  function CheckPlaylistEditable(fetched: Fetched<PlaylistFields>, playlistId: string, userId: string): (r: EditCheck)
    ensures fetched.FetchFailed? ==> r == EditCheck(false, Some(Upstream(fetched.error)), fetched.message)
    ensures fetched.Fetched? && fetched.data.collaborative ==> r == EditCheck(true, None, "")
    ensures fetched.Fetched? && fetched.data.ownerId == userId ==> r == EditCheck(true, None, "")
    ensures fetched.Fetched? && !fetched.data.collaborative && fetched.data.ownerId != userId ==>
      r == EditCheck(false, Some(NotEditable(playlistId, fetched.data.name)), "Cannot edit playlist: " + JsText(fetched.data.name))
    ensures r.status <==> fetched.Fetched? && Editable(fetched.data, userId)
  {
    match fetched
    case FetchFailed(error, message) => EditCheck(false, Some(Upstream(error)), message)
    case Fetched(data) =>
      if !data.collaborative && data.ownerId != userId then
        EditCheck(false, Some(NotEditable(playlistId, data.name)), "Cannot edit playlist: " + JsText(data.name))
      else
        EditCheck(true, None, "")
  }

  /**
   * As written, the fields request leaves out `name`, so a refusal reads
   * "Cannot edit playlist: undefined" and its error carries no name.
   */
  lemma RefusalNeverNamed(info: PlaylistInfo, playlistId: string, userId: string)
    requires !info.collaborative && info.ownerId != userId
    ensures CheckPlaylistEditable(Fetched(SelectFields(info, CheckFields)), playlistId, userId)
         == EditCheck(false, Some(NotEditable(playlistId, None)), "Cannot edit playlist: undefined")
  {
    assert "name" !in CheckFields;
  }

  /** With `name` among the fields, a refusal names the playlist it refuses. */
  lemma RefusalNamed(info: PlaylistInfo, playlistId: string, userId: string)
    ensures var r := CheckPlaylistEditable(Fetched(SelectFields(info, NamedCheckFields)), playlistId, userId);
      (r.status <==> info.collaborative || info.ownerId == userId)
      && (!r.status ==> r.error == Some(NotEditable(playlistId, Some(info.name))) && r.message == "Cannot edit playlist: " + info.name)
  {
    assert "name" in NamedCheckFields;
  }

  // ---------------------------------------------------------------------------
  // the requests that change a playlist
  // ---------------------------------------------------------------------------

  datatype Verb = Post | Delete

  /** `{uris: batch}` or `{positions: batch, snapshot_id: snapshotID}`. */
  datatype Body =
    | UrisBody(uris: seq<string>)
    | PositionsBody(positions: seq<int>, snapshotId: nat)

  datatype Request = Request(verb: Verb, path: string, body: Body)

  /** `/playlists/${playlistID}/tracks` */
  function TracksPath(playlistId: string): string
  {
    "/playlists/" + playlistId + "/tracks"
  }

  /** Different playlists are addressed by different paths. */
  lemma TracksPathInjective(a: string, b: string)
    requires TracksPath(a) == TracksPath(b)
    ensures a == b
  {
    var p := "/playlists/";
    var n := |TracksPath(a)|;
    assert |a| == |b|;
    assert a == TracksPath(a)[|p|..n - 7];
    assert b == TracksPath(b)[|p|..n - 7];
  }

  /** `addItemsToPlaylist`: append `batch` to the playlist. */
  function AddItemsRequest(playlistId: string, batch: seq<string>): Request
  {
    Request(Post, TracksPath(playlistId), UrisBody(batch))
  }

  /** `removePlaylistItems`: remove the items at `positions` of the playlist as of `snapshotId`. */
  function RemoveItemsRequest(playlistId: string, positions: seq<int>, snapshotId: nat): Request
  {
    Request(Delete, TracksPath(playlistId), PositionsBody(positions, snapshotId))
  }

  /**
   * A request names its playlist and carries its arguments unchanged: equal
   * requests have equal arguments, and an append is never a removal.
   */
  lemma RequestsCarryArguments(p: string, q: string, batch: seq<string>, other: seq<string>,
                               positions: seq<int>, others: seq<int>, snapshot: nat, otherSnapshot: nat)
    ensures AddItemsRequest(p, batch) == AddItemsRequest(q, other) ==> p == q && batch == other
    ensures RemoveItemsRequest(p, positions, snapshot) == RemoveItemsRequest(q, others, otherSnapshot) ==>
      p == q && positions == others && snapshot == otherSnapshot
    ensures AddItemsRequest(p, batch).verb == Post && AddItemsRequest(p, batch).body == UrisBody(batch)
    ensures RemoveItemsRequest(p, positions, snapshot).verb == Delete
    ensures RemoveItemsRequest(p, positions, snapshot).body == PositionsBody(positions, snapshot)
    ensures AddItemsRequest(p, batch) != RemoveItemsRequest(q, positions, snapshot)
  {
    if TracksPath(p) == TracksPath(q) {
      TracksPathInjective(p, q);
    }
  }
}
