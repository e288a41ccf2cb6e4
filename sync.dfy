/**
 * The two sync operations on one link: reading a whole playlist page by
 * page, populating the head with the tail's tracks it lacks (appended in
 * batches from the front), and pruning from the tail the tracks the head
 * lacks (removed by position in batches from the back, each against the
 * snapshot the previous removal returned).
 */
module Sync {
  import opened Wrappers
  import opened TrackLists
  import opened SpotifyApi
  import opened SpotifyService

  /** `_getPlaylistTracks`: every item of a playlist and the snapshot of its first page. */
  datatype PlaylistTracks = PlaylistTracks(tracks: seq<Track>, snapshot: nat)

  /**
   * Reads every page of a playlist's items; `None` as soon as one request
   * fails. The first request asks for `snapshot_id` too (corrected: as
   * written it does not, see FirstSnapshotAsWritten).
   */
  method GetPlaylistTracks(spotify: Spotify, playlistId: string) returns (r: Option<PlaylistTracks>)
    ensures r.Some? ==> playlistId in spotify.playlists
    ensures r.Some? ==> r.value == PlaylistTracks(spotify.playlists[playlistId].tracks, spotify.playlists[playlistId].snapshot)
  {
    var first := spotify.GetPlaylistTracksPage(playlistId, 0, VersionedTrackFields);
    if first.None? {
      return None;
    }
    assert "snapshot_id" in VersionedTrackFields;
    ghost var all := spotify.playlists[playlistId].tracks;
    PageExtends(all, 0, TracksPageSize);
    var tracks := first.value.page.items;
    var next := first.value.page.next;
    while next.Some?
      invariant next.Some? ==> next.value < |all| && tracks == all[..next.value]
      invariant next.None? ==> tracks == all
      decreases if next.Some? then |all| - next.value else 0
    {
      var page := spotify.GetPlaylistTracksPage(playlistId, next.value, MainTrackFields);
      if page.None? {
        return None;
      }
      PageExtends(all, next.value, TracksPageSize);
      tracks := tracks + page.value.page.items;
      next := page.value.page.next;
    }
    r := Some(PlaylistTracks(tracks, first.value.snapshot.value));
  }

  /**
   * As written, the first items request selects only the items and `next`,
   * so `respData.snapshot_id` is undefined and the first removal of a prune
   * names no snapshot.
   */
  lemma FirstSnapshotAsWritten(p: RemotePlaylist)
    ensures TracksResponse(p, InitialTrackFields, 0).snapshot == None
  {
    assert "snapshot_id" !in InitialTrackFields;
  }

  /** With `snapshot_id` among the fields, the first page carries the playlist's current snapshot. */
  lemma FirstSnapshotVersioned(p: RemotePlaylist)
    ensures TracksResponse(p, VersionedTrackFields, 0).snapshot == Some(p.snapshot)
  {
    assert "snapshot_id" in VersionedTrackFields;
  }

  // ---------------------------------------------------------------------------
  // populate
  // ---------------------------------------------------------------------------

  /** `toTrackURIs`: the tail's non-local URIs the head lacks. */
  function Missing(playlists: map<string, RemotePlaylist>, fromId: string, toId: string): seq<string>
    requires fromId in playlists && toId in playlists
  {
    MissingUris(Uris(playlists[fromId].tracks), playlists[toId].tracks)
  }

  /** The playlist after the batches were appended one by one. */
  function AppendedAll(p: RemotePlaylist, batches: seq<seq<string>>): RemotePlaylist
    decreases |batches|
  {
    if batches == [] then p
    else
      var n := |batches| - 1;
      Appended(AppendedAll(p, batches[..n]), batches[n])
  }

  /** One more successful append moves the state from `done` to `done + [batch]`. */
  lemma AppendedStep(prior: map<string, RemotePlaylist>, before: map<string, RemotePlaylist>, after: map<string, RemotePlaylist>,
                     playlistId: string, done: seq<seq<string>>, batch: seq<string>)
    requires playlistId in prior
    requires before == prior[playlistId := AppendedAll(prior[playlistId], done)]
    requires after == before[playlistId := Appended(before[playlistId], batch)]
    ensures after == prior[playlistId := AppendedAll(prior[playlistId], done + [batch])]
  {
    assert (done + [batch])[..|done|] == done;
  }

  /** Appending batch by batch appends their concatenation and moves the snapshot once per batch. */
  lemma {:induction false} AppendedAllContents(p: RemotePlaylist, batches: seq<seq<string>>)
    ensures AppendedAll(p, batches) == p.(tracks := p.tracks + AsTracks(Concat(batches)), snapshot := p.snapshot + |batches|)
    decreases |batches|
  {
    if batches == [] {
      assert p.tracks + AsTracks([]) == p.tracks;
    } else {
      var n := |batches| - 1;
      AppendedAllContents(p, batches[..n]);
      assert batches == batches[..n] + [batches[n]];
      ConcatAppend(batches[..n], [batches[n]]);
      assert Concat([batches[n]]) == batches[n] + Concat([]);
      AsTracksAppend(Concat(batches[..n]), batches[n]);
    }
  }

  /** The append requests for the batches, in order. */
  function AddRequests(playlistId: string, batches: seq<seq<string>>): (r: seq<Request>)
    ensures |r| == |batches| && forall i :: 0 <= i < |batches| ==> r[i] == AddItemsRequest(playlistId, batches[i])
  {
    seq(|batches|, i requires 0 <= i < |batches| => AddItemsRequest(playlistId, batches[i]))
  }

  lemma AddRequestsAppend(playlistId: string, batches: seq<seq<string>>, batch: seq<string>)
    ensures AddRequests(playlistId, batches + [batch]) == AddRequests(playlistId, batches) + [AddItemsRequest(playlistId, batch)]
  {
  }

  /** Taking the next front batch off `rest` moves it from the plan's remainder to its done part. */
  lemma FrontStep<T>(plan: seq<seq<T>>, done: seq<seq<T>>, rest: seq<T>)
    requires |rest| > 0 && plan == done + FrontBatches(rest)
    ensures var n := Min(BatchLimit, |rest|);
      plan == (done + [rest[..n]]) + FrontBatches(rest[n..])
      && plan[..|done|] == done && plan[..|done| + 1] == done + [rest[..n]]
  {
    var n := Min(BatchLimit, |rest|);
    var batch, later := rest[..n], FrontBatches(rest[n..]);
    assert FrontBatches(rest) == [batch] + later;
    var d1 := done + [batch];
    assert done + ([batch] + later) == d1 + later;
    assert plan[..|done| + 1] == (d1 + later)[..|d1|] == d1;
    assert plan[..|done|] == (d1 + later)[..|done|] == done;
  }

  /**
   * An append run that stopped at batch `j` of the plan: the batches before it
   * were appended, and its request was the last one sent.
   */
  ghost predicate PartlyAppended(prior: map<string, RemotePlaylist>, priorSent: seq<Request>,
                                 now: map<string, RemotePlaylist>, nowSent: seq<Request>, playlistId: string, plan: seq<seq<string>>)
  {
    playlistId in prior
    && exists j :: 0 <= j < |plan| && now == prior[playlistId := AppendedAll(prior[playlistId], plan[..j])]
                   && nowSent == priorSent + AddRequests(playlistId, plan[..j + 1])
  }

  lemma StoppedAt(prior: map<string, RemotePlaylist>, priorSent: seq<Request>,
                  now: map<string, RemotePlaylist>, nowSent: seq<Request>, playlistId: string, plan: seq<seq<string>>, j: nat)
    requires playlistId in prior && j < |plan|
    requires now == prior[playlistId := AppendedAll(prior[playlistId], plan[..j])]
    requires nowSent == priorSent + AddRequests(playlistId, plan[..j + 1])
    ensures PartlyAppended(prior, priorSent, now, nowSent, playlistId, plan)
  {
  }

  /** The append loop's invariant: `done` holds the front batches already appended, `rest` what is left. */
  ghost predicate AppendingFrom(prior: map<string, RemotePlaylist>, priorSent: seq<Request>,
                                now: map<string, RemotePlaylist>, nowSent: seq<Request>, playlistId: string,
                                plan: seq<seq<string>>, rest: seq<string>, done: seq<seq<string>>)
  {
    playlistId in prior && plan == done + FrontBatches(rest)
    && now == prior[playlistId := AppendedAll(prior[playlistId], done)]
    && nowSent == priorSent + AddRequests(playlistId, done)
  }

  /**
   * One turn of the append loop: the request for the first batch of `rest`
   * either appended it, extending `done`, or failed and left the run
   * stopped part-way.
   */
  lemma AppendingStep(prior: map<string, RemotePlaylist>, priorSent: seq<Request>,
                      before: map<string, RemotePlaylist>, sentBefore: seq<Request>,
                      after: map<string, RemotePlaylist>, sentAfter: seq<Request>, playlistId: string,
                      plan: seq<seq<string>>, rest: seq<string>, done: seq<seq<string>>, succeeded: bool)
    requires AppendingFrom(prior, priorSent, before, sentBefore, playlistId, plan, rest, done)
    requires |rest| > 0
    requires sentAfter == sentBefore + [AddItemsRequest(playlistId, rest[..Min(BatchLimit, |rest|)])]
    requires succeeded ==> after == before[playlistId := Appended(before[playlistId], rest[..Min(BatchLimit, |rest|)])]
    requires !succeeded ==> after == before
    ensures var n := Min(BatchLimit, |rest|);
      succeeded ==> AppendingFrom(prior, priorSent, after, sentAfter, playlistId, plan, rest[n..], done + [rest[..n]])
    ensures !succeeded ==> PartlyAppended(prior, priorSent, after, sentAfter, playlistId, plan)
  {
    var n := Min(BatchLimit, |rest|);
    var batch := rest[..n];
    FrontStep(plan, done, rest);
    AddRequestsAppend(playlistId, done, batch);
    if succeeded {
      AppendedStep(prior, before, after, playlistId, done, batch);
    } else {
      StoppedAt(prior, priorSent, after, sentAfter, playlistId, plan, |done|);
    }
  }

  /** The `while (toTrackURIs.length > 0)` loop: `splice(0, 100)` and append, until done or a request fails. */
  method AppendBatches(spotify: Spotify, playlistId: string, uris: seq<string>) returns (ok: bool)
    requires playlistId in spotify.playlists
    modifies spotify
    ensures spotify.roster == old(spotify.roster)
    ensures ok ==> spotify.playlists == old(spotify.playlists)[playlistId := AppendedAll(old(spotify.playlists)[playlistId], FrontBatches(uris))]
    ensures ok ==> spotify.sent == old(spotify.sent) + AddRequests(playlistId, FrontBatches(uris))
    ensures !ok ==> PartlyAppended(old(spotify.playlists), old(spotify.sent), spotify.playlists, spotify.sent, playlistId, FrontBatches(uris))
  {
    ghost var prior := spotify.playlists;
    ghost var plan := FrontBatches(uris);
    ghost var done: seq<seq<string>> := [];
    var rest := uris;
    assert AppendingFrom(prior, old(spotify.sent), spotify.playlists, spotify.sent, playlistId, plan, rest, done);
    while |rest| > 0
      invariant AppendingFrom(prior, old(spotify.sent), spotify.playlists, spotify.sent, playlistId, plan, rest, done)
      invariant spotify.roster == old(spotify.roster)
      decreases |rest|
    {
      var n := Min(BatchLimit, |rest|);
      var batch := rest[..n];
      ghost var before, sentBefore := spotify.playlists, spotify.sent;
      var added := spotify.AddItemsToPlaylist(playlistId, batch);
      AppendingStep(prior, old(spotify.sent), before, sentBefore, spotify.playlists, spotify.sent,
                    playlistId, plan, rest, done, added.Some?);
      if added.None? {
        return false;
      }
      rest := rest[n..];
      done := done + [batch];
    }
    assert done == plan;
    return true;
  }

  /** What populate reports: `toAddNum` and `localNum`. */
  datatype Populated = Populated(toAddNum: nat, localNum: nat)

  /** A populate that stopped early: nothing changed, or its append run stopped part-way. */
  ghost predicate PartlyPopulated(prior: map<string, RemotePlaylist>, priorSent: seq<Request>,
                                  now: map<string, RemotePlaylist>, nowSent: seq<Request>, fromId: string, toId: string)
  {
    (now == prior && nowSent == priorSent)
    || (fromId in prior && toId in prior
        && PartlyAppended(prior, priorSent, now, nowSent, fromId, FrontBatches(Missing(prior, fromId, toId))))
  }

  /**
   * The service after a completed populate along the link from `f` to `t`:
   * the head gained the tail's missing tracks at its end, sent in batches.
   */
  ghost predicate PopulateDone(prior: map<string, RemotePlaylist>, priorSent: seq<Request>,
                               now: map<string, RemotePlaylist>, nowSent: seq<Request>, f: string, t: string)
  {
    f in prior && t in prior
    && now == prior[f := AppendedAll(prior[f], FrontBatches(Missing(prior, f, t)))]
    && now[f].tracks == prior[f].tracks + AsTracks(Missing(prior, f, t))
    && nowSent == priorSent + AddRequests(f, FrontBatches(Missing(prior, f, t)))
  }

  /**
   * `_populateSingleLinkCore`: appends to the head (`fromId`) the tail's
   * (`toId`) non-local tracks whose URI the head lacks, in tail order, in
   * batches of at most 100.
   */
  method PopulateCore(spotify: Spotify, fromId: string, toId: string) returns (r: Option<Populated>)
    modifies spotify
    ensures spotify.roster == old(spotify.roster)
    ensures r.Some? ==> PopulateDone(old(spotify.playlists), old(spotify.sent), spotify.playlists, spotify.sent, fromId, toId)
    ensures r.Some? ==> r.value == Populated(|Missing(old(spotify.playlists), fromId, toId)|, LocalCount(old(spotify.playlists)[toId].tracks))
    ensures r.None? ==> PartlyPopulated(old(spotify.playlists), old(spotify.sent), spotify.playlists, spotify.sent, fromId, toId)
  {
    var head := GetPlaylistTracks(spotify, fromId);
    var tail := GetPlaylistTracks(spotify, toId);
    if head.None? || tail.None? {
      return None;
    }
    var missing := MissingUris(Uris(head.value.tracks), tail.value.tracks);
    var toAddNum := |missing|;
    var localNum := LocalCount(tail.value.tracks);
    FrontBatchesShape(missing);
    AppendedAllContents(spotify.playlists[fromId], FrontBatches(missing));
    var ok := AppendBatches(spotify, fromId, missing);
    if !ok {
      return None;
    }
    r := Some(Populated(toAddNum, localNum));
  }

  /** After a populate every non-local tail URI is in the head, and the head lost nothing. */
  lemma PopulateCovers(head: seq<Track>, tail: seq<Track>)
    ensures var after := head + AsTracks(MissingUris(Uris(head), tail));
      head <= after && forall t :: t in tail && !t.isLocal ==> t.uri in Uris(after)
  {
    var missing := MissingUris(Uris(head), tail);
    var after := head + AsTracks(missing);
    forall t | t in tail && !t.isLocal ensures t.uri in Uris(after) {
      var i :| 0 <= i < |tail| && tail[i] == t;
      if t.uri in Uris(head) {
        var k :| 0 <= k < |head| && Uris(head)[k] == t.uri;
        assert Uris(after)[k] == t.uri;
      } else {
        assert t.uri in missing;
        var k :| 0 <= k < |missing| && missing[k] == t.uri;
        assert Uris(after)[|head| + k] == t.uri;
      }
    }
  }

  // ---------------------------------------------------------------------------
  // prune
  // ---------------------------------------------------------------------------

  /** `indexes`: the tail positions whose URI the head lacks. */
  function MissingAt(playlists: map<string, RemotePlaylist>, fromId: string, toId: string): seq<int>
    requires fromId in playlists && toId in playlists
  {
    MissingPositions(Uris(playlists[fromId].tracks), playlists[toId].tracks)
  }

  /** The removal requests for the batches, the `i`-th against snapshot `snapshot + i`. */
  function RemoveRequests(playlistId: string, batches: seq<seq<int>>, snapshot: nat): (r: seq<Request>)
    ensures |r| == |batches| && forall i :: 0 <= i < |batches| ==> r[i] == RemoveItemsRequest(playlistId, batches[i], snapshot + i)
  {
    seq(|batches|, i requires 0 <= i < |batches| => RemoveItemsRequest(playlistId, batches[i], snapshot + i))
  }

  lemma RemoveRequestsAppend(playlistId: string, batches: seq<seq<int>>, batch: seq<int>, snapshot: nat)
    ensures RemoveRequests(playlistId, batches + [batch], snapshot)
         == RemoveRequests(playlistId, batches, snapshot) + [RemoveItemsRequest(playlistId, batch, snapshot + |batches|)]
  {
  }

  /** The tail once the positions from `positions[i..]` are gone, after `removals` requests. */
  function PrunedFrom(p: RemotePlaylist, positions: seq<int>, i: nat, removals: nat): RemotePlaylist
    requires i <= |positions|
  {
    p.(tracks := Drop(p.tracks, Positions(positions[i..]), 0), snapshot := p.snapshot + removals)
  }

  /**
   * A removal run that stopped at back batch `j`: the positions from some
   * index `i` on were removed by the `j` requests before it, and its request
   * was the last one sent.
   */
  ghost predicate PartlyRemoved(prior: map<string, RemotePlaylist>, priorSent: seq<Request>,
                                now: map<string, RemotePlaylist>, nowSent: seq<Request>, playlistId: string, positions: seq<int>)
  {
    playlistId in prior
    && var plan := BackBatches(positions);
    exists i, j :: 0 <= i <= |positions| && 0 <= j < |plan| && now == prior[playlistId := PrunedFrom(prior[playlistId], positions, i, j)]
                   && nowSent == priorSent + RemoveRequests(playlistId, plan[..j + 1], prior[playlistId].snapshot)
  }

  /** Taking the next back batch off `indexes` moves it from the plan's remainder to its done part. */
  lemma BackStep<T>(plan: seq<seq<T>>, done: seq<seq<T>>, indexes: seq<T>)
    requires |indexes| > 0 && plan == done + BackBatches(indexes)
    ensures var k := Max(|indexes| - BatchLimit, 0);
      plan == (done + [indexes[k..]]) + BackBatches(indexes[..k]) && plan[..|done| + 1] == done + [indexes[k..]]
  {
    var k := Max(|indexes| - BatchLimit, 0);
    var batch, rest := indexes[k..], indexes[..k];
    assert plan == (done + [batch]) + BackBatches(rest) by {
      assert BackBatches(indexes) == [batch] + BackBatches(rest);
    }
    assert plan[..|done| + 1] == done + [batch];
  }

  /** The batch and the rest of a prefix of `positions` are slices of `positions`. */
  lemma PrefixSlices<T>(indexes: seq<T>, positions: seq<T>, k: nat)
    requires |indexes| <= |positions| && indexes == positions[..|indexes|] && k <= |indexes|
    ensures indexes[k..] == positions[k..|indexes|] && indexes[..k] == positions[..k]
  {
  }

  /** One more successful removal, of `positions[k..i]`, moves the state from index `i` to index `k`. */
  lemma RemovedStep(prior: map<string, RemotePlaylist>, before: map<string, RemotePlaylist>, after: map<string, RemotePlaylist>,
                    playlistId: string, positions: seq<int>, k: nat, i: nat, removals: nat)
    requires playlistId in prior && k <= i <= |positions|
    requires StrictlyIncreasing(positions) && forall j :: 0 <= j < |positions| ==> 0 <= positions[j] < |prior[playlistId].tracks|
    requires before == prior[playlistId := PrunedFrom(prior[playlistId], positions, i, removals)]
    requires after == before[playlistId := Removed(before[playlistId], positions[k..i])]
    ensures after == prior[playlistId := PrunedFrom(prior[playlistId], positions, k, removals + 1)]
  {
    PruneStep(prior[playlistId].tracks, positions, k, i);
  }

  lemma StoppedRemovingAt(prior: map<string, RemotePlaylist>, priorSent: seq<Request>,
                          now: map<string, RemotePlaylist>, nowSent: seq<Request>, playlistId: string, positions: seq<int>, i: nat, j: nat)
    requires playlistId in prior && i <= |positions| && j < |BackBatches(positions)|
    requires now == prior[playlistId := PrunedFrom(prior[playlistId], positions, i, j)]
    requires nowSent == priorSent + RemoveRequests(playlistId, BackBatches(positions)[..j + 1], prior[playlistId].snapshot)
    ensures PartlyRemoved(prior, priorSent, now, nowSent, playlistId, positions)
  {
  }

  /** The removal loop's invariant: `done` holds the back batches already removed, `indexes` what is left. */
  ghost predicate RemovingFrom(prior: map<string, RemotePlaylist>, priorSent: seq<Request>,
                               now: map<string, RemotePlaylist>, nowSent: seq<Request>, playlistId: string,
                               positions: seq<int>, snapshotId: nat, indexes: seq<int>, done: seq<seq<int>>)
  {
    playlistId in prior && |indexes| <= |positions| && indexes == positions[..|indexes|]
    && BackBatches(positions) == done + BackBatches(indexes)
    && now == prior[playlistId := PrunedFrom(prior[playlistId], positions, |indexes|, |done|)]
    && nowSent == priorSent + RemoveRequests(playlistId, done, snapshotId)
  }

  /**
   * One turn of the removal loop: the request for the last batch of
   * `indexes` either removed it, extending `done`, or failed and left the
   * run stopped part-way.
   */
  lemma RemovingStep(prior: map<string, RemotePlaylist>, priorSent: seq<Request>,
                     before: map<string, RemotePlaylist>, sentBefore: seq<Request>,
                     after: map<string, RemotePlaylist>, sentAfter: seq<Request>, playlistId: string,
                     positions: seq<int>, snapshotId: nat, indexes: seq<int>, done: seq<seq<int>>, succeeded: bool)
    requires playlistId in prior && prior[playlistId].snapshot == snapshotId && StrictlyIncreasing(positions)
    requires forall j :: 0 <= j < |positions| ==> 0 <= positions[j] < |prior[playlistId].tracks|
    requires RemovingFrom(prior, priorSent, before, sentBefore, playlistId, positions, snapshotId, indexes, done)
    requires |indexes| > 0
    requires sentAfter == sentBefore + [RemoveItemsRequest(playlistId, indexes[Max(|indexes| - BatchLimit, 0)..], snapshotId + |done|)]
    requires succeeded ==> after == before[playlistId := Removed(before[playlistId], indexes[Max(|indexes| - BatchLimit, 0)..])]
    requires !succeeded ==> after == before
    ensures var k := Max(|indexes| - BatchLimit, 0);
      succeeded ==> RemovingFrom(prior, priorSent, after, sentAfter, playlistId, positions, snapshotId, indexes[..k], done + [indexes[k..]])
                    && after[playlistId].snapshot == snapshotId + |done| + 1
    ensures !succeeded ==> PartlyRemoved(prior, priorSent, after, sentAfter, playlistId, positions)
  {
    var plan := BackBatches(positions);
    var k := Max(|indexes| - BatchLimit, 0);
    var batch := indexes[k..];
    var i := |indexes|;
    BackStep(plan, done, indexes);
    PrefixSlices(indexes, positions, k);
    RemoveRequestsAppend(playlistId, done, batch, snapshotId);
    assert sentAfter == priorSent + RemoveRequests(playlistId, plan[..|done| + 1], snapshotId);
    if succeeded {
      RemovedStep(prior, before, after, playlistId, positions, k, i, |done|);
      assert indexes[..k] == positions[..k];
    } else {
      StoppedRemovingAt(prior, priorSent, after, sentAfter, playlistId, positions, i, |done|);
    }
  }

  /**
   * The `while (indexes.length > 0)` loop: `splice` the last 100 positions
   * and remove them against the current snapshot, until done or a request fails.
   */
  method RemoveBatches(spotify: Spotify, playlistId: string, positions: seq<int>, snapshotId: nat) returns (ok: bool)
    requires playlistId in spotify.playlists && spotify.playlists[playlistId].snapshot == snapshotId
    requires StrictlyIncreasing(positions)
    requires forall j :: 0 <= j < |positions| ==> 0 <= positions[j] < |spotify.playlists[playlistId].tracks|
    modifies spotify
    ensures spotify.roster == old(spotify.roster)
    ensures ok ==> spotify.playlists == old(spotify.playlists)[playlistId := PrunedFrom(old(spotify.playlists)[playlistId], positions, 0, |BackBatches(positions)|)]
    ensures ok ==> spotify.sent == old(spotify.sent) + RemoveRequests(playlistId, BackBatches(positions), snapshotId)
    ensures !ok ==> PartlyRemoved(old(spotify.playlists), old(spotify.sent), spotify.playlists, spotify.sent, playlistId, positions)
  {
    ghost var prior := spotify.playlists;
    ghost var done: seq<seq<int>> := [];
    var indexes := positions;
    var snapshot := snapshotId;
    DropNone(prior[playlistId].tracks, Positions(positions[|positions|..]), 0);
    assert RemovingFrom(prior, old(spotify.sent), spotify.playlists, spotify.sent, playlistId, positions, snapshotId, indexes, done);
    while |indexes| > 0
      invariant RemovingFrom(prior, old(spotify.sent), spotify.playlists, spotify.sent, playlistId, positions, snapshotId, indexes, done)
      invariant snapshot == snapshotId + |done|
      invariant spotify.roster == old(spotify.roster)
      decreases |indexes|
    {
      var k := Max(|indexes| - BatchLimit, 0);
      var batch := indexes[k..];
      ghost var before, sentBefore := spotify.playlists, spotify.sent;
      var removed := spotify.RemovePlaylistItems(playlistId, batch, snapshot);
      RemovingStep(prior, old(spotify.sent), before, sentBefore, spotify.playlists, spotify.sent,
                   playlistId, positions, snapshotId, indexes, done, removed.Some?);
      if removed.None? {
        return false;
      }
      snapshot := removed.value;
      indexes := indexes[..k];
      done := done + [batch];
    }
    return true;
  }

  /** A prune that stopped early: nothing changed, or its removal run stopped part-way. */
  ghost predicate PartlyPruned(prior: map<string, RemotePlaylist>, priorSent: seq<Request>,
                               now: map<string, RemotePlaylist>, nowSent: seq<Request>, fromId: string, toId: string)
  {
    (now == prior && nowSent == priorSent)
    || (fromId in prior && toId in prior
        && PartlyRemoved(prior, priorSent, now, nowSent, toId, MissingAt(prior, fromId, toId)))
  }

  /**
   * The service after a completed prune along the link from `f` to `t`: the
   * tail keeps exactly its tracks whose URI the head has, removed in batches
   * from the back, one new snapshot per batch.
   */
  ghost predicate PruneDone(prior: map<string, RemotePlaylist>, priorSent: seq<Request>,
                            now: map<string, RemotePlaylist>, nowSent: seq<Request>, f: string, t: string)
  {
    f in prior && t in prior
    && now == prior[t := prior[t].(tracks := Keep(Uris(prior[f].tracks), prior[t].tracks),
                                   snapshot := prior[t].snapshot + |BackBatches(MissingAt(prior, f, t))|)]
    && now[t].tracks == Keep(Uris(prior[f].tracks), prior[t].tracks)
    && nowSent == priorSent + RemoveRequests(t, BackBatches(MissingAt(prior, f, t)), prior[t].snapshot)
  }

  /**
   * `_pruneSingleLinkCore`: removes from the tail (`toId`) the tracks whose
   * URI the head (`fromId`) lacks, by position, in batches of at most 100
   * taken from the back, each removal naming the snapshot the previous one returned.
   */
  method PruneCore(spotify: Spotify, fromId: string, toId: string) returns (r: Option<nat>)
    modifies spotify
    ensures spotify.roster == old(spotify.roster)
    ensures r.Some? ==> PruneDone(old(spotify.playlists), old(spotify.sent), spotify.playlists, spotify.sent, fromId, toId)
    ensures r.Some? ==> r.value == |MissingAt(old(spotify.playlists), fromId, toId)|
    ensures r.None? ==> PartlyPruned(old(spotify.playlists), old(spotify.sent), spotify.playlists, spotify.sent, fromId, toId)
  {
    var head := GetPlaylistTracks(spotify, fromId);
    var tail := GetPlaylistTracks(spotify, toId);
    if head.None? || tail.None? {
      return None;
    }
    var positions := MissingPositions(Uris(head.value.tracks), tail.value.tracks);
    var toDelNum := |positions|;
    assert positions[0..] == positions;
    PruneKeeps(Uris(head.value.tracks), tail.value.tracks);
    var ok := RemoveBatches(spotify, toId, positions, tail.value.snapshot);
    if !ok {
      return None;
    }
    r := Some(toDelNum);
  }
}
