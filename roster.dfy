/**
 * The roster diff of `updateUser`: the user's playlists as listed by the
 * service against the ones stored for the user, split into added, renamed and
 * deleted playlists; and what applying that diff to the stored roster yields.
 */
module Roster {
  import opened Wrappers

  /** `PlaylistModel_Pl`: a playlist id and its name. */
  datatype Pl = Pl(playlistId: string, playlistName: string)

  /** An entry of `renamed`. */
  datatype Rename = Rename(playlistId: string, oldName: string, newName: string)

  function Ids(pls: seq<Pl>): (r: seq<string>)
    ensures |r| == |pls| && forall i :: 0 <= i < |pls| ==> r[i] == pls[i].playlistId
  {
    seq(|pls|, i requires 0 <= i < |pls| => pls[i].playlistId)
  }

  predicate UniqueIds(pls: seq<Pl>)
  {
    forall i, j :: 0 <= i < j < |pls| ==> pls[i].playlistId != pls[j].playlistId
  }

  /** `new Map(pls.map(p => [p.playlistID, p])).get(id)`: the last entry with that id wins. */
  function Lookup(pls: seq<Pl>, id: string): (r: Option<Pl>)
    ensures r.None? <==> id !in Ids(pls)
    ensures r.Some? ==> r.value in pls && r.value.playlistId == id
    ensures UniqueIds(pls) ==> forall i :: 0 <= i < |pls| && pls[i].playlistId == id ==> r == Some(pls[i])
    decreases |pls|
  {
    if pls == [] then None
    else
      var n := |pls| - 1;
      assert Ids(pls) == Ids(pls[..n]) + [pls[n].playlistId];
      if pls[n].playlistId == id then Some(pls[n]) else Lookup(pls[..n], id)
  }

  // ---------------------------------------------------------------------------
  // the three lists, defined on prefixes of the lists the loops walk
  // ---------------------------------------------------------------------------

  /** Remote playlists whose id is not stored, in remote order. */
  function AddedOf(prior: seq<Pl>, current: seq<Pl>): (r: seq<Pl>)
    ensures forall pl :: pl in r <==> pl in current && pl.playlistId !in Ids(prior)
    ensures |r| <= |current|
    decreases |current|
  {
    if current == [] then []
    else
      var n := |current| - 1;
      assert current == current[..n] + [current[n]];
      AddedOf(prior, current[..n]) + (if current[n].playlistId !in Ids(prior) then [current[n]] else [])
  }

  /** Remote playlists stored under another name, with the stored and the remote name. */
  function RenamedOf(prior: seq<Pl>, current: seq<Pl>): (r: seq<Rename>)
    ensures forall rn :: rn in r <==>
      Pl(rn.playlistId, rn.newName) in current && Lookup(prior, rn.playlistId).Some?
      && rn.oldName == Lookup(prior, rn.playlistId).value.playlistName && rn.oldName != rn.newName
    decreases |current|
  {
    if current == [] then []
    else
      var n := |current| - 1;
      var pl := current[n];
      assert current == current[..n] + [pl];
      var stored := Lookup(prior, pl.playlistId);
      RenamedOf(prior, current[..n])
      + (if stored.Some? && stored.value.playlistName != pl.playlistName
         then [Rename(pl.playlistId, stored.value.playlistName, pl.playlistName)] else [])
  }

  /** Stored playlists whose id the service no longer lists, in stored order. */
  function DeletedOf(prior: seq<Pl>, current: seq<Pl>): (r: seq<Pl>)
    ensures forall pl :: pl in r <==> pl in prior && pl.playlistId !in Ids(current)
    decreases |prior|
  {
    if prior == [] then []
    else
      var n := |prior| - 1;
      assert prior == prior[..n] + [prior[n]];
      DeletedOf(prior[..n], current) + (if prior[n].playlistId !in Ids(current) then [prior[n]] else [])
  }

  datatype Diff = Diff(added: seq<Pl>, renamed: seq<Rename>, deleted: seq<Pl>)

  /** The diff `updateUser` computes; with nothing stored, everything listed is added. */
  function RosterDiff(prior: seq<Pl>, current: seq<Pl>): Diff
  {
    if |prior| > 0 then Diff(AddedOf(prior, current), RenamedOf(prior, current), DeletedOf(prior, current))
    else Diff(current, [], [])
  }

  /** The new-user branch agrees with the general one: nothing stored, nothing renamed or deleted. */
  lemma NewUserDiff(current: seq<Pl>)
    ensures RosterDiff([], current) == Diff(AddedOf([], current), RenamedOf([], current), DeletedOf([], current))
  {
    NoneDropped(current);
    NoneRenamed(current);
  }

  lemma {:induction false} NoneRenamed(current: seq<Pl>)
    ensures RenamedOf([], current) == []
    decreases |current|
  {
    if current != [] {
      NoneRenamed(current[..|current| - 1]);
    }
  }

  lemma {:induction false} NoneDropped(current: seq<Pl>)
    ensures AddedOf([], current) == current
    decreases |current|
  {
    if current != [] {
      var n := |current| - 1;
      NoneDropped(current[..n]);
      assert current[..n] + [current[n]] == current;
    }
  }

  /** `oldMap`: the stored playlists by id. */
  method IndexById(prior: seq<Pl>) returns (index: map<string, Pl>)
    ensures forall id :: id in index <==> Lookup(prior, id).Some?
    ensures forall id :: id in index ==> index[id] == Lookup(prior, id).value
  {
    index := map[];
    for i := 0 to |prior|
      invariant forall id :: id in index <==> Lookup(prior[..i], id).Some?
      invariant forall id :: id in index ==> index[id] == Lookup(prior[..i], id).value
    {
      assert prior[..i + 1][..i] == prior[..i];
      index := index[prior[i].playlistId := prior[i]];
    }
    assert prior[..|prior|] == prior;
  }

  /** The first `forEach`: added and renamed playlists, in remote order. */
  method CollectAddedRenamed(prior: seq<Pl>, priorMap: map<string, Pl>, current: seq<Pl>)
    returns (added: seq<Pl>, renamed: seq<Rename>)
    requires forall id :: id in priorMap <==> Lookup(prior, id).Some?
    requires forall id :: id in priorMap ==> priorMap[id] == Lookup(prior, id).value
    ensures added == AddedOf(prior, current) && renamed == RenamedOf(prior, current)
  {
    added, renamed := [], [];
    for i := 0 to |current|
      invariant added == AddedOf(prior, current[..i])
      invariant renamed == RenamedOf(prior, current[..i])
    {
      var pl := current[i];
      assert current[..i + 1][..i] == current[..i];
      if pl.playlistId !in priorMap {
        added := added + [pl];
      } else if priorMap[pl.playlistId].playlistName != pl.playlistName {
        renamed := renamed + [Rename(pl.playlistId, priorMap[pl.playlistId].playlistName, pl.playlistName)];
      }
    }
    assert current[..|current|] == current;
  }

  /** The second `forEach`: stored playlists the service no longer lists. */
  method CollectDeleted(prior: seq<Pl>, current: seq<Pl>) returns (deleted: seq<Pl>)
    ensures deleted == DeletedOf(prior, current)
  {
    var currentIds: set<string> := set pl | pl in current :: pl.playlistId;
    assert forall id :: id in currentIds <==> id in Ids(current);
    deleted := [];
    for i := 0 to |prior|
      invariant deleted == DeletedOf(prior[..i], current)
    {
      assert prior[..i + 1][..i] == prior[..i];
      if prior[i].playlistId !in currentIds {
        deleted := deleted + [prior[i]];
      }
    }
    assert prior[..|prior|] == prior;
  }

  /** The diff as `updateUser` computes it. */
  method ComputeDiff(prior: seq<Pl>, current: seq<Pl>) returns (d: Diff)
    ensures d == RosterDiff(prior, current)
  {
    if |prior| > 0 {
      var priorMap := IndexById(prior);
      var added, renamed := CollectAddedRenamed(prior, priorMap, current);
      var deleted := CollectDeleted(prior, current);
      d := Diff(added, renamed, deleted);
    } else {
      d := Diff(current, [], []);
    }
  }

  // ---------------------------------------------------------------------------
  // applying the diff
  // ---------------------------------------------------------------------------

  /** The stored playlists whose id is not among `ids`. */
  function Without(pls: seq<Pl>, ids: seq<string>): (r: seq<Pl>)
    ensures forall pl :: pl in r <==> pl in pls && pl.playlistId !in ids
    ensures UniqueIds(pls) ==> UniqueIds(r)
    decreases |pls|
  {
    if pls == [] then []
    else
      var n := |pls| - 1;
      var rest := Without(pls[..n], ids);
      assert pls == pls[..n] + [pls[n]];
      if pls[n].playlistId in ids then rest
      else
        assert UniqueIds(pls) ==> UniqueIds(pls[..n]) && forall x :: x in rest ==> x.playlistId != pls[n].playlistId by {
          if UniqueIds(pls) {
            forall x | x in rest ensures x.playlistId != pls[n].playlistId {
              var k :| 0 <= k < n && pls[..n][k] == x;
              assert pls[k] == x;
            }
          }
        }
        rest + [pls[n]]
  }

  /** `UPDATE ... SET playlistName = name WHERE playlistID = id`, on the user's rows. */
  function RenameIn(pls: seq<Pl>, id: string, name: string): (r: seq<Pl>)
    ensures |r| == |pls| && Ids(r) == Ids(pls)
    ensures forall i :: 0 <= i < |pls| ==> r[i] == if pls[i].playlistId == id then Pl(id, name) else pls[i]
  {
    seq(|pls|, i requires 0 <= i < |pls| => if pls[i].playlistId == id then Pl(id, name) else pls[i])
  }

  /** The renames applied one after the other, as the transaction does. */
  function ApplyRenames(pls: seq<Pl>, renames: seq<Rename>): (r: seq<Pl>)
    ensures |r| == |pls| && Ids(r) == Ids(pls)
    decreases |renames|
  {
    if renames == [] then pls
    else
      var n := |renames| - 1;
      RenameIn(ApplyRenames(pls, renames[..n]), renames[n].playlistId, renames[n].newName)
  }

  /** With no ids to drop, `Without` keeps everything. */
  lemma {:induction false} WithoutNothing(pls: seq<Pl>)
    ensures Without(pls, []) == pls
    decreases |pls|
  {
    if pls != [] {
      var n := |pls| - 1;
      var init, last := pls[..n], pls[n];
      assert init + [last] == pls;
      WithoutNothing(init);
      WithoutKeepsLast(pls, []);
    }
  }

  /** A last playlist whose id is not dropped stays last. */
  lemma WithoutKeepsLast(pls: seq<Pl>, ids: seq<string>)
    requires pls != [] && pls[|pls| - 1].playlistId !in ids
    ensures Without(pls, ids) == Without(pls[..|pls| - 1], ids) + [pls[|pls| - 1]]
  {
  }

  /** An id is listed exactly when some playlist carries it. */
  lemma InIds(pls: seq<Pl>, id: string)
    ensures id in Ids(pls) <==> exists pl :: pl in pls && pl.playlistId == id
  {
    if id in Ids(pls) {
      var i :| 0 <= i < |pls| && Ids(pls)[i] == id;
      assert pls[i] in pls;
    } else {
      forall pl | pl in pls ensures pl.playlistId != id {
        var i :| 0 <= i < |pls| && pls[i] == pl;
        assert Ids(pls)[i] == pl.playlistId;
      }
    }
  }

  /** The stored roster after the deletions, the insertions and the renames. */
  function Synced(prior: seq<Pl>, current: seq<Pl>): seq<Pl>
  {
    var d := RosterDiff(prior, current);
    ApplyRenames(Without(prior, Ids(d.deleted)) + d.added, d.renamed)
  }

  /** A playlist no rename mentions keeps its name. */
  lemma {:induction false} ApplyRenamesUntouched(pls: seq<Pl>, renames: seq<Rename>, k: nat)
    requires k < |pls|
    requires forall r :: r in renames ==> r.playlistId != pls[k].playlistId
    ensures ApplyRenames(pls, renames)[k] == pls[k]
    decreases |renames|
  {
    if renames != [] {
      var n := |renames| - 1;
      assert renames[n] in renames;
      assert forall r :: r in renames[..n] ==> r in renames;
      ApplyRenamesUntouched(pls, renames[..n], k);
    }
  }

  /** A playlist exactly one rename mentions takes that rename's new name. */
  lemma {:induction false} ApplyRenamesTouched(pls: seq<Pl>, renames: seq<Rename>, k: nat, r: Rename)
    requires k < |pls| && r in renames && r.playlistId == pls[k].playlistId
    requires forall q :: q in renames && q.playlistId == r.playlistId ==> q == r
    ensures ApplyRenames(pls, renames)[k] == Pl(r.playlistId, r.newName)
    decreases |renames|
  {
    var n := |renames| - 1;
    var prev := ApplyRenames(pls, renames[..n]);
    assert Ids(prev)[k] == Ids(pls)[k];
    assert renames == renames[..n] + [renames[n]];
    if renames[n] != r {
      assert r in renames[..n];
      assert forall q :: q in renames[..n] ==> q in renames;
      ApplyRenamesTouched(pls, renames[..n], k, r);
    }
  }

  /** With unique ids on both sides, a remote playlist is renamed at most once. */
  lemma RenamesUnique(prior: seq<Pl>, current: seq<Pl>)
    requires UniqueIds(current)
    ensures forall r, q :: r in RenamedOf(prior, current) && q in RenamedOf(prior, current) && r.playlistId == q.playlistId ==> r == q
  {
    forall r, q | r in RenamedOf(prior, current) && q in RenamedOf(prior, current) && r.playlistId == q.playlistId
      ensures r == q
    {
      var i :| 0 <= i < |current| && current[i] == Pl(r.playlistId, r.newName);
      var j :| 0 <= j < |current| && current[j] == Pl(q.playlistId, q.newName);
      assert i == j;
    }
  }

  /** The stored playlists that survive the deletions are the stored ones still listed. */
  lemma Kept(prior: seq<Pl>, current: seq<Pl>)
    ensures forall pl :: pl in Without(prior, Ids(DeletedOf(prior, current))) <==> pl in prior && pl.playlistId in Ids(current)
  {
    var deleted := DeletedOf(prior, current);
    forall pl | pl in prior && pl.playlistId !in Ids(current)
      ensures pl.playlistId in Ids(deleted)
    {
      assert pl in deleted;
    }
  }

  /** A playlist that survives the deletions and is listed under its stored name is not renamed. */
  lemma NotRenamed(prior: seq<Pl>, current: seq<Pl>, pl: Pl)
    requires UniqueIds(current) && pl in current
    requires forall rn :: rn in RenamedOf(prior, current) ==> Pl(rn.playlistId, rn.newName) in current && rn.oldName != rn.newName
    requires Lookup(prior, pl.playlistId).None? || Lookup(prior, pl.playlistId).value.playlistName == pl.playlistName
    ensures forall q :: q in RenamedOf(prior, current) ==> q.playlistId != pl.playlistId
  {
  }

  /** Every entry of the synced roster is a listed playlist. */
  lemma SyncedEntryListed(prior: seq<Pl>, current: seq<Pl>, k: nat)
    requires UniqueIds(prior) && UniqueIds(current) && |prior| > 0
    requires k < |Without(prior, Ids(DeletedOf(prior, current))) + AddedOf(prior, current)|
    ensures Synced(prior, current)[k] in current
  {
    var kept := Without(prior, Ids(DeletedOf(prior, current)));
    var s := kept + AddedOf(prior, current);
    if k < |kept| {
      assert s[k] in kept;
      KeptEntryListed(prior, current, s, k);
    } else {
      assert s[k] == AddedOf(prior, current)[k - |kept|];
      assert s[k] in AddedOf(prior, current);
      NotRenamed(prior, current, s[k]);
      ApplyRenamesUntouched(s, RenamedOf(prior, current), k);
    }
  }

  /** A kept stored playlist comes out of the renames under its listed name. */
  lemma KeptEntryListed(prior: seq<Pl>, current: seq<Pl>, s: seq<Pl>, k: nat)
    requires UniqueIds(prior) && UniqueIds(current)
    requires k < |s| && s[k] in Without(prior, Ids(DeletedOf(prior, current)))
    ensures ApplyRenames(s, RenamedOf(prior, current))[k] in current
  {
    var renamed := RenamedOf(prior, current);
    var pl := s[k];
    KeptListed(prior, current, pl);
    var i :| 0 <= i < |current| && current[i].playlistId == pl.playlistId;
    if pl.playlistName != current[i].playlistName {
      var rn := Rename(pl.playlistId, pl.playlistName, current[i].playlistName);
      assert rn in renamed;
      RenamesUnique(prior, current);
      ApplyRenamesTouched(s, renamed, k, rn);
    } else {
      assert current[i] == pl;
      NotRenamed(prior, current, pl);
      ApplyRenamesUntouched(s, renamed, k);
    }
  }

  /** A kept playlist is the stored entry of a listed id. */
  lemma KeptListed(prior: seq<Pl>, current: seq<Pl>, pl: Pl)
    requires UniqueIds(prior) && pl in Without(prior, Ids(DeletedOf(prior, current)))
    ensures pl in prior && Lookup(prior, pl.playlistId) == Some(pl)
    ensures exists i :: 0 <= i < |current| && current[i].playlistId == pl.playlistId
  {
    Kept(prior, current);
    var i :| 0 <= i < |Ids(current)| && Ids(current)[i] == pl.playlistId;
  }

  /** Two listed playlists with the same id are the same playlist. */
  lemma SameIdSame(pls: seq<Pl>, x: Pl, y: Pl)
    requires UniqueIds(pls) && x in pls && y in pls && x.playlistId == y.playlistId
    ensures x == y
  {
    var i :| 0 <= i < |pls| && pls[i] == x;
    var j :| 0 <= j < |pls| && pls[j] == y;
    assert i == j;
  }

  /** The stored entry of a listed id survives the deletions. */
  lemma StoredKept(prior: seq<Pl>, current: seq<Pl>, pl: Pl)
    requires pl in current && Lookup(prior, pl.playlistId).Some?
    ensures Lookup(prior, pl.playlistId).value in Without(prior, Ids(DeletedOf(prior, current)))
  {
    var i :| 0 <= i < |current| && current[i] == pl;
    assert Ids(current)[i] == pl.playlistId;
    Kept(prior, current);
  }

  /** Every listed id has a position in the kept and added playlists. */
  lemma ListedPosition(prior: seq<Pl>, current: seq<Pl>, pl: Pl) returns (k: nat)
    requires pl in current
    ensures k < |Without(prior, Ids(DeletedOf(prior, current))) + AddedOf(prior, current)|
    ensures (Without(prior, Ids(DeletedOf(prior, current))) + AddedOf(prior, current))[k].playlistId == pl.playlistId
  {
    var kept := Without(prior, Ids(DeletedOf(prior, current)));
    var added := AddedOf(prior, current);
    var stored := Lookup(prior, pl.playlistId);
    if stored.Some? {
      StoredKept(prior, current, pl);
      k :| 0 <= k < |kept| && kept[k] == stored.value;
      assert (kept + added)[k] == kept[k];
    } else {
      assert pl in added;
      var j :| 0 <= j < |added| && added[j] == pl;
      k := |kept| + j;
      assert (kept + added)[k] == added[j];
    }
  }

  /** Every listed playlist is an entry of the synced roster. */
  lemma ListedInSynced(prior: seq<Pl>, current: seq<Pl>, pl: Pl)
    requires UniqueIds(prior) && UniqueIds(current) && |prior| > 0 && pl in current
    ensures pl in Synced(prior, current)
  {
    var s := Without(prior, Ids(DeletedOf(prior, current))) + AddedOf(prior, current);
    var r := Synced(prior, current);
    var k := ListedPosition(prior, current, pl);
    assert Ids(r)[k] == Ids(s)[k];
    SyncedEntryListed(prior, current, k);
    SameIdSame(current, r[k], pl);
  }

  /** Renaming keeps ids, so it keeps them unique. */
  lemma UniqueByIds(a: seq<Pl>, b: seq<Pl>)
    requires Ids(a) == Ids(b) && UniqueIds(a)
    ensures UniqueIds(b)
  {
    forall i, j | 0 <= i < j < |b|
      ensures b[i].playlistId != b[j].playlistId
    {
      assert Ids(a)[i] == Ids(b)[i] && Ids(a)[j] == Ids(b)[j];
    }
  }

  /** A stored playlist still listed and an added one never share an id. */
  lemma KeptNotAdded(prior: seq<Pl>, current: seq<Pl>, x: Pl, y: Pl)
    requires x in Without(prior, Ids(DeletedOf(prior, current))) && y in AddedOf(prior, current)
    ensures x.playlistId != y.playlistId
  {
    assert x in prior;
    var k :| 0 <= k < |prior| && prior[k] == x;
    assert Ids(prior)[k] == x.playlistId;
  }

  /** Two sequences with unique ids and no id in common concatenate to one with unique ids. */
  lemma ConcatUnique(a: seq<Pl>, b: seq<Pl>)
    requires UniqueIds(a) && UniqueIds(b)
    requires forall x, y :: x in a && y in b ==> x.playlistId != y.playlistId
    ensures UniqueIds(a + b)
  {
    forall i, j | 0 <= i < j < |a + b|
      ensures (a + b)[i].playlistId != (a + b)[j].playlistId
    {
      if i < |a| && j >= |a| {
        assert (a + b)[i] in a && (a + b)[j] in b;
      }
    }
  }

  /** The kept stored playlists followed by the added ones have unique ids. */
  lemma KeptAddedUnique(prior: seq<Pl>, current: seq<Pl>)
    requires UniqueIds(prior) && UniqueIds(current)
    ensures UniqueIds(Without(prior, Ids(DeletedOf(prior, current))) + AddedOf(prior, current))
  {
    var kept := Without(prior, Ids(DeletedOf(prior, current)));
    var added := AddedOf(prior, current);
    forall i, j | 0 <= i < j < |added|
      ensures added[i].playlistId != added[j].playlistId
    {
      AddedOrder(prior, current, i, j);
    }
    forall x, y | x in kept && y in added
      ensures x.playlistId != y.playlistId
    {
      KeptNotAdded(prior, current, x, y);
    }
    ConcatUnique(kept, added);
  }

  /**
   * The sync theorem: with unique ids on both sides, the stored roster after
   * the deletions, insertions and renames holds exactly the listed playlists,
   * with unique ids.
   */
  lemma SyncedIsCurrent(prior: seq<Pl>, current: seq<Pl>)
    requires UniqueIds(prior) && UniqueIds(current)
    ensures forall pl :: pl in Synced(prior, current) <==> pl in current
    ensures UniqueIds(Synced(prior, current))
  {
    if |prior| == 0 {
      assert Without(prior, []) == [];
      assert Synced(prior, current) == current;
    } else {
      forall pl | pl in Synced(prior, current) ensures pl in current {
        var k :| 0 <= k < |Synced(prior, current)| && Synced(prior, current)[k] == pl;
        SyncedEntryListed(prior, current, k);
      }
      forall pl | pl in current ensures pl in Synced(prior, current) {
        ListedInSynced(prior, current, pl);
      }
      KeptAddedUnique(prior, current);
      UniqueByIds(Without(prior, Ids(DeletedOf(prior, current))) + AddedOf(prior, current), Synced(prior, current));
    }
  }

  /** Two entries of `added` are two different entries of the listing. */
  lemma {:induction false} AddedOrder(prior: seq<Pl>, current: seq<Pl>, i: nat, j: nat)
    requires UniqueIds(current)
    requires i < j < |AddedOf(prior, current)|
    ensures AddedOf(prior, current)[i].playlistId != AddedOf(prior, current)[j].playlistId
    decreases |current|
  {
    var n := |current| - 1;
    var a := AddedOf(prior, current[..n]);
    var full := AddedOf(prior, current);
    assert full == a + (if current[n].playlistId !in Ids(prior) then [current[n]] else []);
    if j < |a| {
      assert UniqueIds(current[..n]) by {
        forall x, y | 0 <= x < y < n ensures current[..n][x].playlistId != current[..n][y].playlistId {
          assert current[..n][x] == current[x] && current[..n][y] == current[y];
        }
      }
      AddedOrder(prior, current[..n], i, j);
      assert full[i] == a[i] && full[j] == a[j];
    } else {
      assert full[j] == current[n] && full[i] == a[i];
      assert a[i] in current[..n];
      var m :| 0 <= m < n && current[..n][m] == a[i];
      assert current[m] == a[i];
    }
  }

  /** With a listing of unique ids, `added` has unique ids too. */
  lemma AddedUnique(prior: seq<Pl>, current: seq<Pl>)
    requires UniqueIds(current)
    ensures UniqueIds(AddedOf(prior, current))
  {
    forall i, j | 0 <= i < j < |AddedOf(prior, current)|
      ensures AddedOf(prior, current)[i].playlistId != AddedOf(prior, current)[j].playlistId
    {
      AddedOrder(prior, current, i, j);
    }
  }

  /** Among stored ids, the deleted ones are exactly those the listing lacks. */
  lemma DeletedIdsAre(prior: seq<Pl>, current: seq<Pl>, x: string)
    requires x in Ids(prior)
    ensures x in Ids(RosterDiff(prior, current).deleted) <==> x !in Ids(current)
  {
    var deleted := RosterDiff(prior, current).deleted;
    InIds(prior, x);
    InIds(deleted, x);
    var pl :| pl in prior && pl.playlistId == x;
    if x !in Ids(current) {
      assert pl in deleted;
    }
  }

  /**
   * What `bulkCreate` receives: playlists with unique ids, none of them stored
   * once the deleted ones are gone.
   */
  lemma AddedFresh(prior: seq<Pl>, current: seq<Pl>)
    requires UniqueIds(current)
    ensures var d := RosterDiff(prior, current);
      UniqueIds(d.added) && forall p :: p in d.added ==> p.playlistId !in Ids(Without(prior, Ids(d.deleted)))
  {
    var d := RosterDiff(prior, current);
    if |prior| > 0 {
      AddedUnique(prior, current);
      forall p | p in d.added ensures p.playlistId !in Ids(Without(prior, Ids(d.deleted))) {
        InIds(prior, p.playlistId);
        InIds(Without(prior, Ids(d.deleted)), p.playlistId);
      }
    } else {
      assert Without(prior, Ids(d.deleted)) == [];
    }
  }
}
