/**
 * The two tables the handlers read and write: `playlists` (user, playlist id,
 * name) and `links` (user, head playlist id, tail playlist id). Every query
 * the handlers issue is scoped to one user; the store keeps, for every user,
 * unique playlist ids, links between stored playlists only, and no cycle.
 */
module Store {
  import opened Wrappers
  import opened Roster
  import opened LinkGraph

  datatype PlaylistRow = PlaylistRow(userId: string, playlistId: string, playlistName: string)

  datatype LinkRow = LinkRow(userId: string, from: string, to: string)

  // ---------------------------------------------------------------------------
  // per-user views of the tables
  // ---------------------------------------------------------------------------

  /** `Playlists.findAll({where: {userID}})`: the user's playlists, in table order. */
  function PlaylistsOf(rows: seq<PlaylistRow>, u: string): (r: seq<Pl>)
    ensures |r| <= |rows|
    decreases |rows|
  {
    if rows == [] then []
    else
      var n := |rows| - 1;
      PlaylistsOf(rows[..n], u) + (if rows[n].userId == u then [Pl(rows[n].playlistId, rows[n].playlistName)] else [])
  }

  /** `Links.findAll({where: {userID}})`: the user's links as graph edges, in table order. */
  function EdgesOf(rows: seq<LinkRow>, u: string): (r: seq<Edge>)
    decreases |rows|
  {
    if rows == [] then []
    else
      var n := |rows| - 1;
      EdgesOf(rows[..n], u) + (if rows[n].userId == u then [Edge(rows[n].from, rows[n].to)] else [])
  }

  /** What the store keeps for one user: unique ids, links between stored playlists, no cycle. */
  ghost predicate UserConsistent(pls: seq<PlaylistRow>, links: seq<LinkRow>, u: string)
  {
    var ids := Ids(PlaylistsOf(pls, u));
    UniqueIds(PlaylistsOf(pls, u))
    && (forall e :: e in EdgesOf(links, u) ==> e.from in ids && e.to in ids)
    && !HasCycle(EdgesOf(links, u))
  }

  ghost predicate Consistent(pls: seq<PlaylistRow>, links: seq<LinkRow>)
  {
    forall u :: UserConsistent(pls, links, u)
  }

  lemma {:induction false} PlaylistsOfAppend(a: seq<PlaylistRow>, b: seq<PlaylistRow>, u: string)
    ensures PlaylistsOf(a + b, u) == PlaylistsOf(a, u) + PlaylistsOf(b, u)
    decreases |b|
  {
    if b != [] {
      var n := |b| - 1;
      assert (a + b)[..|a| + n] == a + b[..n];
      PlaylistsOfAppend(a, b[..n], u);
    } else {
      assert a + b == a;
    }
  }

  lemma {:induction false} EdgesOfAppend(a: seq<LinkRow>, row: LinkRow, u: string)
    ensures EdgesOf(a + [row], u) == EdgesOf(a, u) + (if row.userId == u then [Edge(row.from, row.to)] else [])
  {
    assert (a + [row])[..|a|] == a;
  }

  // ---------------------------------------------------------------------------
  // the writes, on rows
  // ---------------------------------------------------------------------------

  /** `Links.destroy` of the user's links whose `from` or `to` is among `ids`. */
  function WithoutLinksTouching(rows: seq<LinkRow>, u: string, ids: seq<string>): seq<LinkRow>
    decreases |rows|
  {
    if rows == [] then []
    else
      var n := |rows| - 1;
      var row := rows[n];
      WithoutLinksTouching(rows[..n], u, ids)
      + (if row.userId == u && (row.from in ids || row.to in ids) then [] else [row])
  }

  /** `Links.destroy` of the user's links from `from` to `to`. */
  function WithoutLink(rows: seq<LinkRow>, u: string, from: string, to: string): seq<LinkRow>
    decreases |rows|
  {
    if rows == [] then []
    else
      var n := |rows| - 1;
      var row := rows[n];
      WithoutLink(rows[..n], u, from, to) + (if row == LinkRow(u, from, to) then [] else [row])
  }

  /** `Playlists.destroy({where: {playlistID: ids, userID}})`. */
  function WithoutPlaylists(rows: seq<PlaylistRow>, u: string, ids: seq<string>): seq<PlaylistRow>
    decreases |rows|
  {
    if rows == [] then []
    else
      var n := |rows| - 1;
      var row := rows[n];
      WithoutPlaylists(rows[..n], u, ids) + (if row.userId == u && row.playlistId in ids then [] else [row])
  }

  /** The rows `Playlists.bulkCreate` inserts for the user. */
  function NewRows(u: string, pls: seq<Pl>): (r: seq<PlaylistRow>)
    ensures |r| == |pls| && forall i :: 0 <= i < |pls| ==> r[i] == PlaylistRow(u, pls[i].playlistId, pls[i].playlistName)
  {
    seq(|pls|, i requires 0 <= i < |pls| => PlaylistRow(u, pls[i].playlistId, pls[i].playlistName))
  }

  /** `Playlists.update({playlistName: name}, {where: {playlistID: id, userID}})`. */
  function RenameRows(rows: seq<PlaylistRow>, u: string, id: string, name: string): (r: seq<PlaylistRow>)
    ensures |r| == |rows|
  {
    seq(|rows|, i requires 0 <= i < |rows| =>
      if rows[i].userId == u && rows[i].playlistId == id then rows[i].(playlistName := name) else rows[i])
  }

  /** The renames of the transaction, one `update` after the other. */
  function RenameAllRows(rows: seq<PlaylistRow>, u: string, renames: seq<Rename>): seq<PlaylistRow>
    decreases |renames|
  {
    if renames == [] then rows
    else
      var n := |renames| - 1;
      RenameRows(RenameAllRows(rows, u, renames[..n]), u, renames[n].playlistId, renames[n].newName)
  }

  // ---------------------------------------------------------------------------
  // what the writes do to each user's view
  // ---------------------------------------------------------------------------

  /** Destroying the user's links touching `ids` leaves the user's other links, in order, and every other user's. */
  lemma {:induction false} LinksTouchingView(rows: seq<LinkRow>, u: string, ids: seq<string>, v: string)
    ensures v != u ==> EdgesOf(WithoutLinksTouching(rows, u, ids), v) == EdgesOf(rows, v)
    ensures forall e :: e in EdgesOf(WithoutLinksTouching(rows, u, ids), v) <==>
      e in EdgesOf(rows, v) && (v != u || (e.from !in ids && e.to !in ids))
    decreases |rows|
  {
    if rows != [] {
      var n := |rows| - 1;
      var row := rows[n];
      LinksTouchingView(rows[..n], u, ids, v);
      var rest := WithoutLinksTouching(rows[..n], u, ids);
      var mine := if row.userId == v then [Edge(row.from, row.to)] else [];
      assert EdgesOf(rows, v) == EdgesOf(rows[..n], v) + mine;
      if row.userId == u && (row.from in ids || row.to in ids) {
        assert WithoutLinksTouching(rows, u, ids) == rest + [];
        assert rest + [] == rest;
        if v != u {
          assert EdgesOf(rows[..n], v) + mine == EdgesOf(rows[..n], v);
        }
      } else {
        assert WithoutLinksTouching(rows, u, ids) == rest + [row];
        EdgesOfAppend(rest, row, v);
      }
    }
  }

  /** Destroying one link leaves the user's other links and every other user's. */
  lemma {:induction false} LinkView(rows: seq<LinkRow>, u: string, from: string, to: string, v: string)
    ensures v != u ==> EdgesOf(WithoutLink(rows, u, from, to), v) == EdgesOf(rows, v)
    ensures forall e :: e in EdgesOf(WithoutLink(rows, u, from, to), v) <==>
      e in EdgesOf(rows, v) && (v != u || e != Edge(from, to))
    decreases |rows|
  {
    if rows != [] {
      var n := |rows| - 1;
      var row := rows[n];
      var w := WithoutLink(rows, u, from, to);
      LinkView(rows[..n], u, from, to, v);
      var rest := WithoutLink(rows[..n], u, from, to);
      var before := EdgesOf(rows[..n], v);
      var mine := if row.userId == v then [Edge(row.from, row.to)] else [];
      assert EdgesOf(rows, v) == before + mine;
      if row == LinkRow(u, from, to) {
        assert w == rest + [] == rest;
        if v != u {
          assert before + mine == before + [] == before;
        } else {
          forall e ensures e in EdgesOf(w, v) <==> e in EdgesOf(rows, v) && e != Edge(from, to) {
            assert e in before + mine <==> e in before || e in mine;
          }
        }
      } else {
        assert w == rest + [row];
        EdgesOfAppend(rest, row, v);
        assert EdgesOf(w, v) == EdgesOf(rest, v) + mine;
        forall e ensures e in EdgesOf(w, v) <==> e in EdgesOf(rows, v) && (v != u || e != Edge(from, to)) {
          assert e in EdgesOf(rest, v) + mine <==> e in EdgesOf(rest, v) || e in mine;
          assert e in before + mine <==> e in before || e in mine;
        }
      }
    }
  }

  /** The user's view of the table is the view of all rows but the last, then the last row if it is the user's. */
  lemma PlaylistsOfLast(rows: seq<PlaylistRow>, v: string)
    requires rows != []
    ensures var row := rows[|rows| - 1];
      PlaylistsOf(rows, v) == PlaylistsOf(rows[..|rows| - 1], v) + if row.userId == v then [Pl(row.playlistId, row.playlistName)] else []
  {
  }

  /** Destroying the user's playlists with ids in `ids` is `Without` on the user's view and nothing on the others'. */
  lemma {:induction false} PlaylistsView(rows: seq<PlaylistRow>, u: string, ids: seq<string>, v: string)
    ensures PlaylistsOf(WithoutPlaylists(rows, u, ids), v) == if v == u then Without(PlaylistsOf(rows, u), ids) else PlaylistsOf(rows, v)
    decreases |rows|
  {
    if rows != [] {
      var n := |rows| - 1;
      var row := rows[n];
      var prefix := rows[..n];
      PlaylistsView(prefix, u, ids, v);
      PlaylistsOfLast(rows, v);
      var rest := WithoutPlaylists(prefix, u, ids);
      var all := PlaylistsOf(rows, u);
      if row.userId == u {
        PlaylistsOfLast(rows, u);
        assert all[..|all| - 1] == PlaylistsOf(prefix, u);
        assert all[|all| - 1] == Pl(row.playlistId, row.playlistName);
      } else {
        assert all == PlaylistsOf(prefix, u) + [];
        assert all == PlaylistsOf(prefix, u);
      }
      if row.userId == u && row.playlistId in ids {
        assert WithoutPlaylists(rows, u, ids) == rest + [];
        assert rest + [] == rest;
        assert v != u ==> PlaylistsOf(rows, v) == PlaylistsOf(prefix, v) + [];
      } else {
        assert WithoutPlaylists(rows, u, ids) == rest + [row];
        PlaylistsOfAppend(rest, [row], v);
        assert PlaylistsOf([row], v) == (if row.userId == v then [Pl(row.playlistId, row.playlistName)] else []) by {
          assert [row][..0] == [];
        }
      }
    }
  }

  /** The inserted rows are the user's playlists, in order, and nobody else's. */
  lemma {:induction false} NewRowsView(u: string, pls: seq<Pl>, v: string)
    ensures PlaylistsOf(NewRows(u, pls), v) == if v == u then pls else []
    decreases |pls|
  {
    if pls != [] {
      var n := |pls| - 1;
      assert NewRows(u, pls)[..n] == NewRows(u, pls[..n]);
      NewRowsView(u, pls[..n], v);
      assert pls == pls[..n] + [pls[n]];
    }
  }

  lemma RenameInAppend(a: seq<Pl>, b: seq<Pl>, id: string, name: string)
    ensures RenameIn(a + b, id, name) == RenameIn(a, id, name) + RenameIn(b, id, name)
  {
    assert forall i :: 0 <= i < |a + b| ==> RenameIn(a + b, id, name)[i] == (RenameIn(a, id, name) + RenameIn(b, id, name))[i];
  }

  /** One rename is `RenameIn` on the user's view and nothing on the others'. */
  lemma {:induction false} RenameView(rows: seq<PlaylistRow>, u: string, id: string, name: string, v: string)
    ensures PlaylistsOf(RenameRows(rows, u, id, name), v) == if v == u then RenameIn(PlaylistsOf(rows, u), id, name) else PlaylistsOf(rows, v)
    decreases |rows|
  {
    if rows != [] {
      var n := |rows| - 1;
      var row := rows[n];
      var renamed := RenameRows(rows, u, id, name);
      assert renamed[..n] == RenameRows(rows[..n], u, id, name);
      RenameView(rows[..n], u, id, name, v);
      PlaylistsOfLast(renamed, v);
      PlaylistsOfLast(rows, v);
      if v == u {
        var mine := if row.userId == u then [Pl(row.playlistId, row.playlistName)] else [];
        RenameInAppend(PlaylistsOf(rows[..n], u), mine, id, name);
      }
    }
  }

  /** The whole transaction is `ApplyRenames` on the user's view and nothing on the others'. */
  lemma {:induction false} RenameAllView(rows: seq<PlaylistRow>, u: string, renames: seq<Rename>, v: string)
    ensures PlaylistsOf(RenameAllRows(rows, u, renames), v) == if v == u then ApplyRenames(PlaylistsOf(rows, u), renames) else PlaylistsOf(rows, v)
    decreases |renames|
  {
    if renames != [] {
      var n := |renames| - 1;
      RenameAllView(rows, u, renames[..n], v);
      RenameView(RenameAllRows(rows, u, renames[..n]), u, renames[n].playlistId, renames[n].newName, v);
    }
  }

  // ---------------------------------------------------------------------------
  // the writes keep the store consistent
  // ---------------------------------------------------------------------------

  lemma DestroyLinksConsistent(pls: seq<PlaylistRow>, links: seq<LinkRow>, u: string, ids: seq<string>)
    requires Consistent(pls, links)
    ensures Consistent(pls, WithoutLinksTouching(links, u, ids))
  {
    forall v ensures UserConsistent(pls, WithoutLinksTouching(links, u, ids), v) {
      assert UserConsistent(pls, links, v);
      LinksTouchingView(links, u, ids, v);
      AcyclicSubgraph(EdgesOf(WithoutLinksTouching(links, u, ids), v), EdgesOf(links, v));
    }
  }

  lemma DestroyLinkConsistent(pls: seq<PlaylistRow>, links: seq<LinkRow>, u: string, from: string, to: string)
    requires Consistent(pls, links)
    ensures Consistent(pls, WithoutLink(links, u, from, to))
  {
    forall v ensures UserConsistent(pls, WithoutLink(links, u, from, to), v) {
      assert UserConsistent(pls, links, v);
      LinkView(links, u, from, to, v);
      AcyclicSubgraph(EdgesOf(WithoutLink(links, u, from, to), v), EdgesOf(links, v));
    }
  }

  /** Playlists no link of the user touches may be destroyed. */
  lemma DestroyPlaylistsConsistent(pls: seq<PlaylistRow>, links: seq<LinkRow>, u: string, ids: seq<string>)
    requires Consistent(pls, links)
    requires forall e :: e in EdgesOf(links, u) ==> e.from !in ids && e.to !in ids
    ensures Consistent(WithoutPlaylists(pls, u, ids), links)
  {
    forall v ensures UserConsistent(WithoutPlaylists(pls, u, ids), links, v) {
      assert UserConsistent(pls, links, v);
      PlaylistsView(pls, u, ids, v);
      if v == u {
        var before := PlaylistsOf(pls, u);
        var after := Without(before, ids);
        forall e | e in EdgesOf(links, u) ensures e.from in Ids(after) && e.to in Ids(after) {
          StillListed(before, ids, e.from);
          StillListed(before, ids, e.to);
        }
      }
    }
  }

  /** An id that is stored and not destroyed is still stored. */
  lemma StillListed(pls: seq<Pl>, ids: seq<string>, id: string)
    requires id in Ids(pls) && id !in ids
    ensures id in Ids(Without(pls, ids))
  {
    var i :| 0 <= i < |pls| && Ids(pls)[i] == id;
    assert pls[i] in Without(pls, ids);
    var j :| 0 <= j < |Without(pls, ids)| && Without(pls, ids)[j] == pls[i];
    assert Ids(Without(pls, ids))[j] == id;
  }

  /** Appending playlists with fresh, unique ids keeps the ids unique and the stored ones listed. */
  lemma AppendFresh(before: seq<Pl>, added: seq<Pl>)
    requires UniqueIds(before) && UniqueIds(added)
    requires forall p :: p in added ==> p.playlistId !in Ids(before)
    ensures UniqueIds(before + added)
    ensures forall x :: x in Ids(before) ==> x in Ids(before + added)
  {
    forall x, y | x in before && y in added ensures x.playlistId != y.playlistId {
      var i :| 0 <= i < |before| && before[i] == x;
      assert Ids(before)[i] == x.playlistId;
    }
    ConcatUnique(before, added);
    forall x | x in Ids(before) ensures x in Ids(before + added) {
      var i :| 0 <= i < |before| && Ids(before)[i] == x;
      assert Ids(before + added)[i] == x;
    }
  }

  /** Playlists with fresh, unique ids may be inserted. */
  lemma BulkCreateConsistent(pls: seq<PlaylistRow>, links: seq<LinkRow>, u: string, added: seq<Pl>)
    requires Consistent(pls, links)
    requires UniqueIds(added) && forall p :: p in added ==> p.playlistId !in Ids(PlaylistsOf(pls, u))
    ensures Consistent(pls + NewRows(u, added), links)
  {
    forall v ensures UserConsistent(pls + NewRows(u, added), links, v) {
      assert UserConsistent(pls, links, v);
      PlaylistsOfAppend(pls, NewRows(u, added), v);
      NewRowsView(u, added, v);
      if v == u {
        AppendFresh(PlaylistsOf(pls, u), added);
      } else {
        assert PlaylistsOf(pls + NewRows(u, added), v) == PlaylistsOf(pls, v) + [];
        assert PlaylistsOf(pls, v) + [] == PlaylistsOf(pls, v);
      }
    }
  }

  /** A store with no links has no cycle. */
  lemma NoLinksNoCycle(u: string)
    ensures !HasCycle(EdgesOf([], u))
  {
    assert EdgesOf([], u) == [];
    forall p: seq<NodeId> | |p| >= 2
      ensures !IsPath([], p)
    {
      assert Edge(p[0], p[1]) !in [];
    }
  }

  /** Renames keep every user's ids. */
  lemma RenameAllConsistent(pls: seq<PlaylistRow>, links: seq<LinkRow>, u: string, renames: seq<Rename>)
    requires Consistent(pls, links)
    ensures Consistent(RenameAllRows(pls, u, renames), links)
  {
    forall v ensures UserConsistent(RenameAllRows(pls, u, renames), links, v) {
      assert UserConsistent(pls, links, v);
      RenameAllView(pls, u, renames, v);
      if v == u {
        UniqueByIds(PlaylistsOf(pls, u), ApplyRenames(PlaylistsOf(pls, u), renames));
      }
    }
  }

  /** A link between two stored playlists that closes no cycle may be inserted. */
  lemma CreateLinkConsistent(pls: seq<PlaylistRow>, links: seq<LinkRow>, u: string, from: string, to: string)
    requires Consistent(pls, links)
    requires from in Ids(PlaylistsOf(pls, u)) && to in Ids(PlaylistsOf(pls, u))
    requires !HasCycle(EdgesOf(links, u) + [Edge(from, to)])
    ensures Consistent(pls, links + [LinkRow(u, from, to)])
  {
    var row := LinkRow(u, from, to);
    forall v ensures UserConsistent(pls, links + [row], v) {
      assert UserConsistent(pls, links, v);
      EdgesOfAppend(links, row, v);
      if v == u {
        var ids := Ids(PlaylistsOf(pls, u));
        forall e | e in EdgesOf(links + [row], u) ensures e.from in ids && e.to in ids {
          if e != Edge(from, to) {
            assert e in EdgesOf(links, u);
          }
        }
      } else {
        assert EdgesOf(links + [row], v) == EdgesOf(links, v) + [];
        assert EdgesOf(links, v) + [] == EdgesOf(links, v);
      }
    }
  }

  // ---------------------------------------------------------------------------
  // the counts the destroys return
  // ---------------------------------------------------------------------------

  /** Some row goes exactly when one of the user's links touches `ids`. */
  lemma {:induction false} LinksTouchingCount(rows: seq<LinkRow>, u: string, ids: seq<string>)
    ensures |WithoutLinksTouching(rows, u, ids)| <= |rows|
    ensures |WithoutLinksTouching(rows, u, ids)| < |rows| <==> exists e :: e in EdgesOf(rows, u) && (e.from in ids || e.to in ids)
    decreases |rows|
  {
    if rows != [] {
      var n := |rows| - 1;
      var row := rows[n];
      LinksTouchingCount(rows[..n], u, ids);
      var mine := if row.userId == u then [Edge(row.from, row.to)] else [];
      assert EdgesOf(rows, u) == EdgesOf(rows[..n], u) + mine;
      if row.userId == u && (row.from in ids || row.to in ids) {
        assert Edge(row.from, row.to) in EdgesOf(rows, u);
      }
    }
  }

  /** Some row goes exactly when the user has that link. */
  lemma {:induction false} LinkCount(rows: seq<LinkRow>, u: string, from: string, to: string)
    ensures |WithoutLink(rows, u, from, to)| <= |rows|
    ensures |WithoutLink(rows, u, from, to)| < |rows| <==> Edge(from, to) in EdgesOf(rows, u)
    decreases |rows|
  {
    if rows != [] {
      var n := |rows| - 1;
      var row := rows[n];
      LinkCount(rows[..n], u, from, to);
      var mine := if row.userId == u then [Edge(row.from, row.to)] else [];
      assert EdgesOf(rows, u) == EdgesOf(rows[..n], u) + mine;
    }
  }

  /** The rows that go are the user's playlists that `Without` drops. */
  lemma {:induction false} PlaylistsCount(rows: seq<PlaylistRow>, u: string, ids: seq<string>)
    ensures |WithoutPlaylists(rows, u, ids)| <= |rows|
    ensures |rows| - |WithoutPlaylists(rows, u, ids)| == |PlaylistsOf(rows, u)| - |Without(PlaylistsOf(rows, u), ids)|
    decreases |rows|
  {
    if rows != [] {
      var n := |rows| - 1;
      var row := rows[n];
      PlaylistsCount(rows[..n], u, ids);
      PlaylistsOfLast(rows, u);
      var all := PlaylistsOf(rows, u);
      if row.userId == u {
        assert all[..|all| - 1] == PlaylistsOf(rows[..n], u);
        assert all[|all| - 1] == Pl(row.playlistId, row.playlistName);
      } else {
        assert all == PlaylistsOf(rows[..n], u) + [];
        assert all == PlaylistsOf(rows[..n], u);
      }
    }
  }

  // ---------------------------------------------------------------------------
  // the tables
  // ---------------------------------------------------------------------------

  class Database {
    var playlists: seq<PlaylistRow>
    var links: seq<LinkRow>

    ghost predicate Valid()
      reads this
    {
      Consistent(playlists, links)
    }

    constructor()
      ensures playlists == [] && links == [] && Valid()
    {
      playlists := [];
      links := [];
      forall u ensures UserConsistent([], [], u) {
        NoLinksNoCycle(u);
      }
    }

    /** The user's stored playlists. */
    function UserPlaylists(u: string): seq<Pl>
      reads this`playlists
    {
      PlaylistsOf(playlists, u)
    }

    /** The user's links as edges. */
    function UserEdges(u: string): seq<Edge>
      reads this`links
    {
      EdgesOf(links, u)
    }

    /** `Links.findOne` for the user's link from `from` to `to`. */
    predicate HasLink(u: string, from: string, to: string)
      reads this`links
    {
      Edge(from, to) in EdgesOf(links, u)
    }

    /**
     * Destroys the user's links touching `ids`; returns how many rows went, or
     * `None` when the query throws. The count is positive exactly when some
     * link of the user touched `ids`.
     */
    method DestroyLinksTouching(u: string, ids: seq<string>) returns (r: Option<nat>)
      requires Valid()
      modifies this
      ensures Valid() && playlists == old(playlists)
      ensures r.Some? ==> links == WithoutLinksTouching(old(links), u, ids)
      ensures r.Some? ==> forall e :: e in UserEdges(u) <==> e in old(UserEdges(u)) && e.from !in ids && e.to !in ids
      ensures r.Some? ==> (r.value > 0 <==> exists e :: e in old(UserEdges(u)) && (e.from in ids || e.to in ids))
      ensures forall v :: v != u ==> UserEdges(v) == old(UserEdges(v))
      ensures r.None? ==> links == old(links)
    {
      var ok: bool := *;
      if ok {
        DestroyLinksConsistent(playlists, links, u, ids);
        LinksTouchingCount(links, u, ids);
        forall v {
          LinksTouchingView(links, u, ids, v);
        }
        var before := |links|;
        links := WithoutLinksTouching(links, u, ids);
        r := Some(before - |links|);
      } else {
        r := None;
      }
    }

    /**
     * Destroys the user's link from `from` to `to`; returns how many rows went,
     * or `None` when the query throws. The count is positive exactly when the
     * user had that link.
     */
    method DestroyLink(u: string, from: string, to: string) returns (r: Option<nat>)
      requires Valid()
      modifies this
      ensures Valid() && playlists == old(playlists)
      ensures r.Some? ==> links == WithoutLink(old(links), u, from, to)
      ensures r.Some? ==> forall e :: e in UserEdges(u) <==> e in old(UserEdges(u)) && e != Edge(from, to)
      ensures r.Some? ==> (r.value > 0 <==> old(HasLink(u, from, to)))
      ensures forall v :: v != u ==> UserEdges(v) == old(UserEdges(v))
      ensures r.None? ==> links == old(links)
    {
      var ok: bool := *;
      if ok {
        DestroyLinkConsistent(playlists, links, u, from, to);
        LinkCount(links, u, from, to);
        forall v {
          LinkView(links, u, from, to, v);
        }
        var before := |links|;
        links := WithoutLink(links, u, from, to);
        r := Some(before - |links|);
      } else {
        r := None;
      }
    }

    /**
     * Destroys the user's playlists with ids among `ids`; returns how many rows
     * went, or `None` when the query throws. The store stays consistent when no
     * link of the user touches those playlists.
     */
    method DestroyPlaylists(u: string, ids: seq<string>) returns (r: Option<nat>)
      modifies this
      ensures links == old(links)
      ensures r.Some? ==> playlists == WithoutPlaylists(old(playlists), u, ids)
      ensures r.Some? ==> UserPlaylists(u) == Without(old(UserPlaylists(u)), ids)
      ensures r.Some? ==> r.value == |old(UserPlaylists(u))| - |UserPlaylists(u)|
      ensures forall v :: v != u ==> UserPlaylists(v) == old(UserPlaylists(v))
      ensures r.None? ==> playlists == old(playlists)
      ensures old(Valid()) && (forall e :: e in old(UserEdges(u)) ==> e.from !in ids && e.to !in ids) ==> Valid()
    {
      var ok: bool := *;
      if ok {
        if Valid() && forall e :: e in UserEdges(u) ==> e.from !in ids && e.to !in ids {
          DestroyPlaylistsConsistent(playlists, links, u, ids);
        }
        PlaylistsCount(playlists, u, ids);
        forall v {
          PlaylistsView(playlists, u, ids, v);
        }
        var before := |playlists|;
        playlists := WithoutPlaylists(playlists, u, ids);
        r := Some(before - |playlists|);
      } else {
        r := None;
      }
    }

    /**
     * `bulkCreate` of the user's new playlists; `false` when it throws. The
     * store stays consistent when their ids are unique and not yet stored.
     */
    method BulkCreate(u: string, pls: seq<Pl>) returns (created: bool)
      modifies this
      ensures links == old(links)
      ensures created ==> playlists == old(playlists) + NewRows(u, pls)
      ensures created ==> UserPlaylists(u) == old(UserPlaylists(u)) + pls
      ensures forall v :: v != u ==> UserPlaylists(v) == old(UserPlaylists(v))
      ensures !created ==> playlists == old(playlists)
      ensures old(Valid()) && UniqueIds(pls) && (forall p :: p in pls ==> p.playlistId !in Ids(old(UserPlaylists(u)))) ==> Valid()
    {
      created := *;
      if created {
        if Valid() && UniqueIds(pls) && forall p :: p in pls ==> p.playlistId !in Ids(UserPlaylists(u)) {
          BulkCreateConsistent(playlists, links, u, pls);
        }
        forall v ensures PlaylistsOf(playlists + NewRows(u, pls), v) == if v == u then PlaylistsOf(playlists, u) + pls else PlaylistsOf(playlists, v) {
          PlaylistsOfAppend(playlists, NewRows(u, pls), v);
          NewRowsView(u, pls, v);
          assert PlaylistsOf(playlists, v) + [] == PlaylistsOf(playlists, v);
        }
        playlists := playlists + NewRows(u, pls);
      }
    }

    /** The rename transaction: all renames, or none when it rolls back. */
    method RenameAll(u: string, renames: seq<Rename>) returns (committed: bool)
      requires Valid()
      modifies this
      ensures Valid() && links == old(links)
      ensures committed ==> playlists == RenameAllRows(old(playlists), u, renames)
      ensures committed ==> UserPlaylists(u) == ApplyRenames(old(UserPlaylists(u)), renames)
      ensures forall v :: v != u ==> UserPlaylists(v) == old(UserPlaylists(v))
      ensures !committed ==> playlists == old(playlists)
    {
      committed := *;
      if committed {
        RenameAllConsistent(playlists, links, u, renames);
        forall v {
          RenameAllView(playlists, u, renames, v);
        }
        playlists := RenameAllRows(playlists, u, renames);
      }
    }

    /**
     * `Links.create`; `false` when it throws. The store stays consistent when
     * both ends are stored playlists of the user and the link closes no cycle.
     */
    method CreateLink(u: string, from: string, to: string) returns (created: bool)
      modifies this
      ensures playlists == old(playlists)
      ensures created ==> links == old(links) + [LinkRow(u, from, to)]
      ensures created ==> UserEdges(u) == old(UserEdges(u)) + [Edge(from, to)]
      ensures forall v :: v != u ==> UserEdges(v) == old(UserEdges(v))
      ensures !created ==> links == old(links)
      ensures old(Valid()) && from in Ids(old(UserPlaylists(u))) && to in Ids(old(UserPlaylists(u))) && !HasCycle(old(UserEdges(u)) + [Edge(from, to)]) ==> Valid()
    {
      created := *;
      if created {
        if Valid() && from in Ids(UserPlaylists(u)) && to in Ids(UserPlaylists(u)) && !HasCycle(UserEdges(u) + [Edge(from, to)]) {
          CreateLinkConsistent(playlists, links, u, from, to);
        }
        forall v {
          EdgesOfAppend(links, LinkRow(u, from, to), v);
        }
        assert forall v :: v != u ==> EdgesOf(links, v) + [] == EdgesOf(links, v);
        links := links + [LinkRow(u, from, to)];
      }
    }
  }
}
