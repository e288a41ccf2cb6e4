/**
 * The earlier `updateUser` handler: the stored playlist list of a user is
 * brought in line with the ids listed remotely by a set difference, removing
 * before adding. The table it writes has one row per (user, playlist id).
 *
 * Two members model the handler: `UpdateUserAsWritten` keeps the removal
 * query that is not scoped to the user, and `UpdateUser` scopes it, which the
 * rest of the handler evidently assumes.
 */
module LegacyOperations {
  import opened Wrappers
  import opened SpotifyService
  import Roster

  datatype Row = Row(userId: string, playlistId: string)

  /** Why listing the remote playlists stopped; the status is the HTTP status of the failed page. */
  datatype FetchError = FirstPage(status: int) | LaterPage(status: int) | NoResponse

  // ---------------------------------------------------------------------------
  // the table, viewed per user
  // ---------------------------------------------------------------------------

  /** `findAll({where: {userID}})`: the user's stored ids, in table order. */
  function StoredIds(rows: seq<Row>, u: string): (r: seq<string>)
    ensures |r| <= |rows|
    ensures forall x :: x in r <==> Row(u, x) in rows
  {
    if rows == [] then []
    else (if rows[0].userId == u then [rows[0].playlistId] else []) + StoredIds(rows[1..], u)
  }

  /** The elements of `xs` that `ys` does not hold, in the order of `xs`: `xs.filter(x => !ySet.has(x))`. */
  function Absent(xs: seq<string>, ys: seq<string>): (r: seq<string>)
    ensures |r| <= |xs|
    ensures forall x :: x in r <==> x in xs && x !in ys
  {
    if xs == [] then []
    else (if xs[0] in ys then [] else [xs[0]]) + Absent(xs[1..], ys)
  }

  /** The ids to insert and the ids to delete, with the branch for a user with nothing stored. */
  function Diff(current: seq<string>, stored: seq<string>): (d: (seq<string>, seq<string>))
  {
    if |stored| > 0 then (Absent(current, stored), Absent(stored, current))
    else (current, [])
  }

  /** `destroy({where: {playlistID: ids}})`: every row holding one of `ids`, whoever owns it. */
  function DropAnyUser(rows: seq<Row>, ids: seq<string>): (r: seq<Row>)
    ensures |r| <= |rows|
    ensures forall row :: row in r <==> row in rows && row.playlistId !in ids
  {
    if rows == [] then []
    else (if rows[0].playlistId in ids then [] else [rows[0]]) + DropAnyUser(rows[1..], ids)
  }

  /** `destroy({where: {userID: u, playlistID: ids}})`: only the user's own rows. */
  function DropForUser(rows: seq<Row>, u: string, ids: seq<string>): (r: seq<Row>)
    ensures |r| <= |rows|
    ensures forall row :: row in r <==> row in rows && (row.userId != u || row.playlistId !in ids)
  {
    if rows == [] then []
    else (if rows[0].userId == u && rows[0].playlistId in ids then [] else [rows[0]]) + DropForUser(rows[1..], u, ids)
  }

  /** Rows of users other than `u` holding one of `ids`. */
  function OthersHolding(rows: seq<Row>, u: string, ids: seq<string>): (r: seq<Row>)
    ensures forall row :: row in r <==> row in rows && row.userId != u && row.playlistId in ids
  {
    if rows == [] then []
    else (if rows[0].userId != u && rows[0].playlistId in ids then [rows[0]] else []) + OthersHolding(rows[1..], u, ids)
  }

  /** The rows `bulkCreate` inserts for the user. */
  function NewRows(u: string, ids: seq<string>): (r: seq<Row>)
    ensures |r| == |ids| && forall i :: 0 <= i < |ids| ==> r[i] == Row(u, ids[i])
  {
    if ids == [] then [] else [Row(u, ids[0])] + NewRows(u, ids[1..])
  }

  // ---------------------------------------------------------------------------
  // properties of the diff
  // ---------------------------------------------------------------------------

  /** The branch for a user with nothing stored computes what the general formula would. */
  lemma {:induction false} NewUserDiff(current: seq<string>)
    ensures Diff(current, []) == (Absent(current, []), Absent([], current))
  {
    AbsentNothing(current);
  }

  lemma {:induction false} AbsentNothing(xs: seq<string>)
    ensures Absent(xs, []) == xs
  {
    if xs != [] {
      AbsentNothing(xs[1..]);
      assert xs == [xs[0]] + xs[1..];
    }
  }

  lemma {:induction false} StoredIdsAppend(a: seq<Row>, b: seq<Row>, u: string)
    ensures StoredIds(a + b, u) == StoredIds(a, u) + StoredIds(b, u)
  {
    if a != [] {
      var ab := a + b;
      assert ab[0] == a[0] && ab[1..] == a[1..] + b;
      StoredIdsAppend(a[1..], b, u);
      var x, y := StoredIds(a[1..], u), StoredIds(b, u);
      if a[0].userId == u {
        var head := [a[0].playlistId];
        assert StoredIds(ab, u) == head + (x + y);
        assert StoredIds(a, u) == head + x;
        assert head + (x + y) == (head + x) + y;
      } else {
        assert StoredIds(ab, u) == [] + (x + y) == x + y;
        assert StoredIds(a, u) == [] + x == x;
      }
    } else {
      assert a + b == b;
    }
  }

  lemma {:induction false} StoredIdsNew(u: string, ids: seq<string>)
    ensures StoredIds(NewRows(u, ids), u) == ids
  {
    if ids != [] {
      assert NewRows(u, ids)[1..] == NewRows(u, ids[1..]);
      StoredIdsNew(u, ids[1..]);
      assert ids == [ids[0]] + ids[1..];
    }
  }

  /** Other users see no change when the user's rows are dropped or added. */
  lemma {:induction false} DropForUserKeepsOthers(rows: seq<Row>, u: string, ids: seq<string>, v: string)
    requires v != u
    ensures StoredIds(DropForUser(rows, u, ids), v) == StoredIds(rows, v)
  {
    if rows != [] {
      var head := if rows[0].userId == u && rows[0].playlistId in ids then [] else [rows[0]];
      StoredIdsAppend(head, DropForUser(rows[1..], u, ids), v);
      DropForUserKeepsOthers(rows[1..], u, ids, v);
    }
  }

  lemma {:induction false} NewRowsInvisible(u: string, ids: seq<string>, v: string)
    requires v != u
    ensures StoredIds(NewRows(u, ids), v) == []
  {
    if ids != [] {
      assert NewRows(u, ids)[1..] == NewRows(u, ids[1..]);
      NewRowsInvisible(u, ids[1..], v);
    }
  }

  /**
   * The scoped delete removes exactly one row per id the diff lists for
   * removal, so the handler's count check can only pass.
   */
  lemma {:induction false} ScopedRemovalCount(rows: seq<Row>, u: string, current: seq<string>)
    ensures |rows| - |DropForUser(rows, u, Absent(StoredIds(rows, u), current))| == |Absent(StoredIds(rows, u), current)|
  {
    var stored := StoredIds(rows, u);
    DropForUserCount(rows, u, Absent(stored, current));
    AmongAbsent(stored, Absent(stored, current), current);
  }

  /** The ids of `xs` that `ids` holds, in order. */
  function Among(xs: seq<string>, ids: seq<string>): seq<string>
  {
    if xs == [] then [] else (if xs[0] in ids then [xs[0]] else []) + Among(xs[1..], ids)
  }

  lemma {:induction false} DropForUserCount(rows: seq<Row>, u: string, ids: seq<string>)
    ensures |rows| - |DropForUser(rows, u, ids)| == |Among(StoredIds(rows, u), ids)|
  {
    if rows != [] {
      DropForUserCount(rows[1..], u, ids);
      var s := StoredIds(rows[1..], u);
      var dropped := rows[0].userId == u && rows[0].playlistId in ids;
      assert DropForUser(rows, u, ids) == (if dropped then [] else [rows[0]]) + DropForUser(rows[1..], u, ids);
      if rows[0].userId == u {
        var w := [rows[0].playlistId] + s;
        assert w[0] == rows[0].playlistId && w[1..] == s;
        assert Among(w, ids) == (if dropped then [w[0]] else []) + Among(s, ids);
      } else {
        assert StoredIds(rows, u) == s;
      }
    }
  }

  lemma {:induction false} AmongAbsent(xs: seq<string>, ids: seq<string>, current: seq<string>)
    requires forall x :: x in xs ==> (x in ids <==> x !in current)
    ensures Among(xs, ids) == Absent(xs, current)
  {
    if xs != [] {
      assert xs[0] in xs;
      AmongAbsent(xs[1..], ids, current);
    }
  }

  /**
   * The unscoped delete also counts every other user's row holding a removed
   * id, so the count check fails exactly when another user stores one.
   */
  lemma {:induction false} UnscopedRemovalCount(rows: seq<Row>, u: string, ids: seq<string>)
    ensures |rows| - |DropAnyUser(rows, ids)| == (|rows| - |DropForUser(rows, u, ids)|) + |OthersHolding(rows, u, ids)|
  {
    if rows != [] {
      UnscopedRemovalCount(rows[1..], u, ids);
    }
  }

  /** After the scoped sync the user stores exactly the listed ids. */
  lemma StoredAfterSync(rows: seq<Row>, u: string, current: seq<string>, x: string)
    ensures var d := Diff(current, StoredIds(rows, u));
            x in StoredIds(DropForUser(rows, u, d.1) + NewRows(u, d.0), u) <==> x in current
  {
    var d := Diff(current, StoredIds(rows, u));
    StoredIdsAppend(DropForUser(rows, u, d.1), NewRows(u, d.0), u);
    StoredIdsNew(u, d.0);
  }

  /** A concrete table on which the unscoped delete takes another user's row and still answers 500. */
  lemma UnscopedDropsOthers()
    ensures var rows := [Row("alice", "p"), Row("bob", "p")];
            var d := Diff([], StoredIds(rows, "alice"));
            d.1 == ["p"]
            && StoredIds(DropAnyUser(rows, d.1), "bob") == []
            && StoredIds(rows, "bob") == ["p"]
            && |rows| - |DropAnyUser(rows, d.1)| != |d.1|
  {
    var rows := [Row("alice", "p"), Row("bob", "p")];
    assert StoredIds(rows, "alice") == ["p"] by {
      assert rows[1..] == [Row("bob", "p")];
      assert StoredIds(rows[1..], "alice") == [] + StoredIds([], "alice");
    }
    assert StoredIds(rows, "bob") == ["p"] by {
      assert rows[1..] == [Row("bob", "p")];
      assert StoredIds(rows[1..], "bob") == ["p"] + StoredIds([], "bob");
    }
    assert Absent(["p"], []) == ["p"] by { AbsentNothing(["p"]); }
    assert DropAnyUser(rows, ["p"]) == [];
  }

  // ---------------------------------------------------------------------------
  // the remote listing
  // ---------------------------------------------------------------------------

  /**
   * The status sent when listing fails, as written: only the first page's
   * status is tested, so a client error on a later page falls through to an
   * exception and 500.
   */
  function FetchFailureStatusAsWritten(e: FetchError): (code: int)
    ensures e.LaterPage? ==> code == 500
    ensures 400 <= code < 500 <==> e.FirstPage? && 400 <= e.status < 500
  {
    if e.FirstPage? && 400 <= e.status < 500 then e.status else 500
  }

  /** The status sent when listing fails, with every page's own status tested. */
  function FetchFailureStatus(e: FetchError): (code: int)
    ensures 400 <= code < 500 <==> !e.NoResponse? && 400 <= e.status < 500
    ensures !(400 <= code < 500) ==> code == 500
  {
    if !e.NoResponse? && 400 <= e.status < 500 then e.status else 500
  }

  /** A later page refused with 404 is answered 500 as written, and 404 once corrected. */
  lemma LaterPageStatusLost()
    ensures FetchFailureStatusAsWritten(LaterPage(404)) == 500
    ensures FetchFailureStatus(LaterPage(404)) == 404
  {
  }

  /** One request of the listing: its page, or how it failed (the HTTP status, `None` without a response). */
  method RequestPage(spotify: Spotify, offset: nat) returns (r: Result<Page<Roster.Pl>, Option<int>>)
    requires offset <= |spotify.roster|
    ensures r.Success? ==> r.value == PageAt(spotify.roster, offset, RosterPageSize)
  {
    var page := spotify.GetCurrentUsersPlaylistsPage(offset);
    if page.Some? {
      return Success(page.value);
    }
    var status: Option<int> := *;
    r := Failure(status);
  }

  lemma IdsAppend(a: seq<Roster.Pl>, b: seq<Roster.Pl>)
    ensures Roster.Ids(a + b) == Roster.Ids(a) + Roster.Ids(b)
  {
    assert forall i :: 0 <= i < |a| + |b| ==> (a + b)[i].playlistId == (Roster.Ids(a) + Roster.Ids(b))[i];
  }

  /**
   * The listing loop: the first page of 50, then every `next` page, each
   * playlist reduced to its id. On success the ids of every listed playlist,
   * in listing order.
   */
  method ListPlaylistIds(spotify: Spotify) returns (r: Result<seq<string>, FetchError>)
    ensures r.Success? ==> r.value == Roster.Ids(spotify.roster)
  {
    var first := RequestPage(spotify, 0);
    if first.Failure? {
      return Failure(if first.error.Some? then FirstPage(first.error.value) else NoResponse);
    }
    ghost var all := spotify.roster;
    PageExtends(all, 0, RosterPageSize);
    IdsAppend([], first.value.items);
    var current := Roster.Ids(first.value.items);
    var next := first.value.next;
    while next.Some?
      invariant next.Some? ==> next.value < |all| && current == Roster.Ids(all[..next.value])
      invariant next.None? ==> current == Roster.Ids(all)
      decreases if next.Some? then |all| - next.value else 0
    {
      var page := RequestPage(spotify, next.value);
      if page.Failure? {
        return Failure(if page.error.Some? then LaterPage(page.error.value) else NoResponse);
      }
      PageExtends(all, next.value, RosterPageSize);
      IdsAppend(all[..next.value], page.value.items);
      current := current + Roster.Ids(page.value.items);
      next := page.value.next;
    }
    r := Success(current);
  }

  // ---------------------------------------------------------------------------
  // the table and the handler
  // ---------------------------------------------------------------------------

  class Table {
    var rows: seq<Row>

    constructor(rows: seq<Row>)
      ensures this.rows == rows
    {
      this.rows := rows;
    }

    /** The unscoped `destroy`: the number of deleted rows, or `None` when the query throws. */
    method DestroyAnyUser(ids: seq<string>) returns (r: Option<nat>)
      modifies this
      ensures r.Some? ==> rows == DropAnyUser(old(rows), ids) && r.value == |old(rows)| - |rows|
      ensures r.None? ==> rows == old(rows)
    {
      var ok: bool := *;
      if !ok {
        return None;
      }
      var before := |rows|;
      rows := DropAnyUser(rows, ids);
      r := Some(before - |rows|);
    }

    /** The user-scoped `destroy`. */
    method DestroyForUser(u: string, ids: seq<string>) returns (r: Option<nat>)
      modifies this
      ensures r.Some? ==> rows == DropForUser(old(rows), u, ids) && r.value == |old(rows)| - |rows|
      ensures r.None? ==> rows == old(rows)
    {
      var ok: bool := *;
      if !ok {
        return None;
      }
      var before := |rows|;
      rows := DropForUser(rows, u, ids);
      r := Some(before - |rows|);
    }

    /** `bulkCreate` with validation: every row is inserted, or the call throws and none is. */
    method BulkCreate(u: string, ids: seq<string>) returns (created: bool)
      modifies this
      ensures created ==> rows == old(rows) + NewRows(u, ids)
      ensures !created ==> rows == old(rows)
    {
      created := *;
      if created {
        rows := rows + NewRows(u, ids);
      }
    }
  }

  /**
   * The handler as written. On 200 the table is the old one less every row,
   * of any user, holding a removed id, plus the added rows; no other user
   * held such an id. A 500 leaves the table as it was, or, when it comes
   * after the delete, less every row of any user holding a removed id.
   */
  method UpdateUserAsWritten(table: Table, spotify: Spotify, u: string) returns (code: int)
    modifies table
    ensures code != 200 && code != 500 ==> 400 <= code < 500 && table.rows == old(table.rows)
    ensures code == 200 ==>
      var d := Diff(Roster.Ids(spotify.roster), StoredIds(old(table.rows), u));
      table.rows == DropAnyUser(old(table.rows), d.1) + NewRows(u, d.0)
      && OthersHolding(old(table.rows), u, d.1) == []
    ensures code == 500 ==>
      var d := Diff(Roster.Ids(spotify.roster), StoredIds(old(table.rows), u));
      table.rows == old(table.rows) || table.rows == DropAnyUser(old(table.rows), d.1)
  {
    var fetched := ListPlaylistIds(spotify);
    if fetched.Failure? {
      return FetchFailureStatusAsWritten(fetched.error);
    }
    var current := fetched.value;
    var d := Diff(current, StoredIds(table.rows, u));
    var toAdd, toRemove := d.0, d.1;
    ghost var before := table.rows;
    if |toRemove| > 0 {
      var cleaned := table.DestroyAnyUser(toRemove);
      if cleaned.None? {
        return 500;
      }
      UnscopedRemovalCount(before, u, toRemove);
      ScopedRemovalCount(before, u, current);
      if cleaned.value != |toRemove| {
        return 500;
      }
      assert |OthersHolding(before, u, toRemove)| == 0;
    } else {
      DropNothing(before);
      NoOthersHolding(before, u);
    }
    if |toAdd| > 0 {
      var created := table.BulkCreate(u, toAdd);
      if !created {
        return 500;
      }
    } else {
      assert NewRows(u, toAdd) == [];
    }
    return 200;
  }

  lemma {:induction false} NoOthersHolding(rows: seq<Row>, u: string)
    ensures OthersHolding(rows, u, []) == []
  {
    if rows != [] {
      NoOthersHolding(rows[1..], u);
    }
  }

  lemma {:induction false} DropNothing(rows: seq<Row>)
    ensures DropAnyUser(rows, []) == rows
  {
    if rows != [] {
      DropNothing(rows[1..]);
      assert rows == [rows[0]] + rows[1..];
    }
  }

  /**
   * The handler with the delete scoped to the user. Other users never see a
   * change; the count check never fails; on 200 the user stores exactly the
   * listed ids.
   */
  method UpdateUser(table: Table, spotify: Spotify, u: string) returns (code: int)
    modifies table
    ensures code != 200 && code != 500 ==> 400 <= code < 500 && table.rows == old(table.rows)
    ensures forall v :: v != u ==> StoredIds(table.rows, v) == StoredIds(old(table.rows), v)
    ensures code == 200 ==> forall x :: x in StoredIds(table.rows, u) <==> x in Roster.Ids(spotify.roster)
  {
    var fetched := ListPlaylistIds(spotify);
    if fetched.Failure? {
      return FetchFailureStatus(fetched.error);
    }
    var current := fetched.value;
    var d := Diff(current, StoredIds(table.rows, u));
    var toAdd, toRemove := d.0, d.1;
    ghost var before := table.rows;
    if |toRemove| > 0 {
      assert toRemove == Absent(StoredIds(before, u), current);
      ScopedRemovalCount(before, u, current);
      var cleaned := table.DestroyForUser(u, toRemove);
      // the count always matches (ScopedRemovalCount): only a failed query answers 500 here
      if cleaned.None? || cleaned.value != |toRemove| {
        return 500;
      }
    } else {
      DropForNothing(before, u);
    }
    ghost var dropped := table.rows;
    assert dropped == DropForUser(before, u, toRemove);
    forall v | v != u
      ensures StoredIds(dropped, v) == StoredIds(before, v)
    {
      DropForUserKeepsOthers(before, u, toRemove, v);
    }
    if |toAdd| > 0 {
      var created := table.BulkCreate(u, toAdd);
      if !created {
        return 500;
      }
      forall v | v != u
        ensures StoredIds(table.rows, v) == StoredIds(before, v)
      {
        StoredIdsAppend(dropped, NewRows(u, toAdd), v);
        NewRowsInvisible(u, toAdd, v);
      }
    } else {
      assert table.rows == dropped + NewRows(u, toAdd);
    }
    forall x
      ensures x in StoredIds(table.rows, u) <==> x in current
    {
      StoredAfterSync(before, u, current, x);
    }
    return 200;
  }

  lemma {:induction false} DropForNothing(rows: seq<Row>, u: string)
    ensures DropForUser(rows, u, []) == rows
  {
    if rows != [] {
      DropForNothing(rows[1..], u);
      assert rows == [rows[0]] + rows[1..];
    }
  }
}
