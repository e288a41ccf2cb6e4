/**
 * The request handlers of the operations controller: syncing the stored
 * roster with the service, creating and removing a link, and populating or
 * pruning along one link. A handler's outcome is the reply it sends and the
 * state it leaves behind in the store and at the service.
 */
module Operations {
  import opened Wrappers
  import opened Roster
  import opened LinkGraph
  import opened Store
  import opened SpotifyUri
  import opened SpotifyApi
  import opened SpotifyService
  import opened Sync
  import opened TrackLists
  import Text

  /**
   * What a handler leaves behind: a reply with a status and a message, the
   * reply of a successful sync, or no reply of its own (`return null` after a
   * failed call to the service). After a failed read the request wrapper,
   * handed `res`, has answered already; after a failed append or removal,
   * whose wrapper is not handed `res`, nobody answers.
   */
  datatype Reply =
    | Sent(status: int, message: string)
    | Updated(removedLinks: bool)
    | NoReply

  const InternalError: string := "Internal Server Error"

  // ---------------------------------------------------------------------------
  // the two links of a request
  // ---------------------------------------------------------------------------

  /** The `message` of what `parseSpotifyLink` and `parseSpotifyURI` throw. */
  function ParseErrorMessage(link: string, e: ParseError): string
  {
    match e
    case NotSpotifyUri => link + " is not a valid Spotify URI"
    case NotLocalFileUri => link + " is not a valid local file URI"
    case InvalidId => link + " has an invalid ID"
    case InvalidDuration => link + " has an invalid duration"
    case NotSpotifyLink => link + " is not a valid Spotify link"
    case MalformedEscape => "URI malformed"
  }

  /** The message tells which check failed: two errors on the same link never share a message. */
  lemma ParseErrorMessagesDiffer(link: string, e1: ParseError, e2: ParseError)
    requires e1 != e2
    ensures ParseErrorMessage(link, e1) != ParseErrorMessage(link, e2)
  {
    assert |ParseErrorMessage(link, e1)| != |ParseErrorMessage(link, e2)|;
  }

  /**
   * Both links parsed, then both checked to be playlists. A parse failure is
   * answered with "Could not parse link", or with the error's own message
   * when `detailed` (as prune does).
   */
  function ParsePlaylistPair(from: string, to: string, detailed: bool): (r: Result<(string, string), Reply>)
    ensures r.Success? <==>
      ParseSpotifyLink(from).Success? && ParseSpotifyLink(to).Success?
      && ParseSpotifyLink(from).value.kind == "playlist" && ParseSpotifyLink(to).value.kind == "playlist"
    ensures r.Success? ==> r.value == (ParseSpotifyLink(from).value.id, ParseSpotifyLink(to).value.id)
    ensures r.Success? ==> Text.IsBase62(r.value.0) && Text.IsBase62(r.value.1)
    ensures r.Success? ==> BuildSpotifyLink(Remote("playlist", r.value.0)) <= from && BuildSpotifyLink(Remote("playlist", r.value.1)) <= to
    ensures r.Failure? ==> r.error.Sent? && r.error.status == 400
    ensures r.Failure? && !detailed ==> r.error.message in {"Could not parse link", "Link is not a playlist"}
    ensures r.Failure? && detailed && ParseSpotifyLink(from).Failure? ==> r.error.message == ParseErrorMessage(from, ParseSpotifyLink(from).error)
  {
    match ParseSpotifyLink(from)
    case Failure(e) => Failure(Sent(400, if detailed then ParseErrorMessage(from, e) else "Could not parse link"))
    case Success(f) =>
      match ParseSpotifyLink(to)
      case Failure(e) => Failure(Sent(400, if detailed then ParseErrorMessage(to, e) else "Could not parse link"))
      case Success(t) =>
        if f.kind != "playlist" || t.kind != "playlist" then Failure(Sent(400, "Link is not a playlist"))
        else Success((f.id, t.id))
  }

  /** The links the service hands out for two playlists are accepted, with their ids. */
  lemma PlaylistLinksAccepted(fromId: string, toId: string, detailed: bool)
    requires Text.IsBase62(fromId) && Text.IsBase62(toId)
    ensures ParsePlaylistPair(BuildSpotifyLink(Remote("playlist", fromId)), BuildSpotifyLink(Remote("playlist", toId)), detailed)
         == Success((fromId, toId))
  {
    ParseBuildRemoteLink("playlist", fromId);
    ParseBuildRemoteLink("playlist", toId);
  }

  // ---------------------------------------------------------------------------
  // the editability gate
  // ---------------------------------------------------------------------------

  /**
   * JavaScript truthiness of the record `checkPlaylistEditable` resolves to.
   * The constant `true` is the point: the record is an object, and an object
   * is truthy whatever its `canEdit` field says, so the gate built on it
   * (`GateAsWritten`) never stops a request.
   */
  predicate Truthy(check: EditCheck)
  {
    true
  }

  /** The gate as written: `if (!(await checkPlaylistEditable(...))) return null;` stops when the record is falsy. */
  function GateAsWritten(check: EditCheck): (stop: bool)
  {
    !Truthy(check)
  }

  /** As written, the gate lets a refused playlist through: a stranger's private playlist passes. */
  lemma GateAsWrittenPassesRefusal()
    ensures var check := CheckPlaylistEditable(Fetched(PlaylistFields(false, "owner", Some("Mix"))), "pl", "stranger");
      !check.status && !GateAsWritten(check)
  {
  }

  /**
   * The gate corrected to read `status`: an editable playlist passes; a
   * refusal is answered 403 with the check's message, as the older helper
   * answered it; a failed fields request gets no reply of the handler's own.
   */
  function Gate(check: EditCheck): (stop: Option<Reply>)
    ensures stop.None? <==> check.status
    ensures stop.Some? ==> stop.value == NoReply || (stop.value.Sent? && stop.value.status == 403)
  {
    if check.status then None
    else if check.error.Some? && check.error.value.NotEditable? then Some(Sent(403, check.message))
    else Some(NoReply)
  }

  /** Through the corrected gate pass exactly the playlists the user may edit. */
  lemma GateDecides(fetched: Fetched<PlaylistFields>, playlistId: string, userId: string)
    ensures Gate(CheckPlaylistEditable(fetched, playlistId, userId)).None? <==> fetched.Fetched? && Editable(fetched.data, userId)
    ensures fetched.FetchFailed? ==> Gate(CheckPlaylistEditable(fetched, playlistId, userId)) == Some(NoReply)
    ensures fetched.Fetched? && !Editable(fetched.data, userId) ==>
      Gate(CheckPlaylistEditable(fetched, playlistId, userId)) == Some(Sent(403, "Cannot edit playlist: " + JsText(fetched.data.name)))
  {
  }

  /** The rule the gate applies to a playlist at the service. */
  predicate EditableBy(playlists: map<string, RemotePlaylist>, playlistId: string, userId: string)
  {
    playlistId in playlists && (playlists[playlistId].info.collaborative || playlists[playlistId].info.ownerId == userId)
  }

  /** A session, two playlist links, and a stored link between them. */
  predicate Linked(db: Database, session: Option<string>, from: string, to: string, detailed: bool)
    reads db`links
  {
    session.Some? && ParsePlaylistPair(from, to, detailed).Success?
    && db.HasLink(session.value, ParsePlaylistPair(from, to, detailed).value.0, ParsePlaylistPair(from, to, detailed).value.1)
  }

  // ---------------------------------------------------------------------------
  // updateUser
  // ---------------------------------------------------------------------------

  /** The roster, page by page while `next` is set; `None` as soon as one page fails. */
  method FetchRoster(spotify: Spotify) returns (r: Option<seq<Pl>>)
    ensures r.Some? ==> r.value == spotify.roster
  {
    var first := spotify.GetCurrentUsersPlaylistsPage(0);
    if first.None? {
      return None;
    }
    ghost var all := spotify.roster;
    PageExtends(all, 0, RosterPageSize);
    var current := first.value.items;
    var next := first.value.next;
    while next.Some?
      invariant next.Some? ==> next.value < |all| && current == all[..next.value]
      invariant next.None? ==> current == all
      decreases if next.Some? then |all| - next.value else 0
    {
      var page := spotify.GetCurrentUsersPlaylistsPage(next.value);
      if page.None? {
        return None;
      }
      PageExtends(all, next.value, RosterPageSize);
      current := current + page.value.items;
      next := page.value.next;
    }
    r := Some(current);
  }

  /** For a link between stored playlists, touching a deleted id is ending outside the listing. */
  lemma TouchesDeleted(prior: seq<Pl>, current: seq<Pl>, e: Edge)
    requires e.from in Ids(prior) && e.to in Ids(prior)
    ensures (e.from in Ids(RosterDiff(prior, current).deleted) || e.to in Ids(RosterDiff(prior, current).deleted))
        <==> (e.from !in Ids(current) || e.to !in Ids(current))
  {
    DeletedIdsAre(prior, current, e.from);
    DeletedIdsAre(prior, current, e.to);
  }

  /**
   * The cascade of `updateUser`: links touching deleted playlists go first,
   * then the playlists, then the new ones are inserted, then the renames run
   * in one transaction. A failed step stops the rest (`ok` is false); the
   * count of destroyed links is what the reply reports.
   */
  method ApplyDiff(db: Database, u: string, current: seq<Pl>, d: Diff) returns (ok: bool, removedLinks: nat)
    requires db.Valid() && UniqueIds(current)
    requires d == RosterDiff(db.UserPlaylists(u), current)
    modifies db
    ensures db.Valid()
    ensures forall v :: v != u ==> db.UserPlaylists(v) == old(db.UserPlaylists(v)) && db.UserEdges(v) == old(db.UserEdges(v))
    ensures ok ==> db.UserPlaylists(u) == Synced(old(db.UserPlaylists(u)), current)
    ensures ok ==> forall e :: e in db.UserEdges(u) <==> e in old(db.UserEdges(u)) && e.from !in Ids(d.deleted) && e.to !in Ids(d.deleted)
    ensures ok ==> (removedLinks > 0 <==> exists e :: e in old(db.UserEdges(u)) && (e.from in Ids(d.deleted) || e.to in Ids(d.deleted)))
  {
    ghost var prior := db.UserPlaylists(u);
    var deletedIds := Ids(d.deleted);
    removedLinks := 0;
    if |d.deleted| > 0 {
      var destroyed := db.DestroyLinksTouching(u, deletedIds);
      if destroyed.None? {
        return false, 0;
      }
      removedLinks := destroyed.value;
      var delNum := db.DestroyPlaylists(u, deletedIds);
      if delNum.None? || delNum.value != |d.deleted| {
        return false, removedLinks;
      }
    } else {
      WithoutNothing(prior);
      assert deletedIds == [];
    }
    assert db.UserPlaylists(u) == Without(prior, deletedIds);
    AddedFresh(prior, current);
    if |d.added| > 0 {
      var created := db.BulkCreate(u, d.added);
      if !created {
        return false, removedLinks;
      }
    } else {
      assert db.UserPlaylists(u) + d.added == db.UserPlaylists(u);
    }
    ok := db.RenameAll(u, d.renamed);
  }

  /**
   * `updateUser`: the stored roster is brought in line with the service's
   * listing; a failed step of the cascade is answered with a 500.
   */
  method UpdateUser(db: Database, spotify: Spotify, session: Option<string>) returns (reply: Reply)
    requires db.Valid() && UniqueIds(spotify.roster)
    modifies db
    ensures db.Valid()
    ensures session.None? ==> reply == Sent(500, InternalError) && db.playlists == old(db.playlists) && db.links == old(db.links)
    ensures forall v :: session != Some(v) ==> db.UserPlaylists(v) == old(db.UserPlaylists(v)) && db.UserEdges(v) == old(db.UserEdges(v))
    ensures reply.NoReply? ==> db.playlists == old(db.playlists) && db.links == old(db.links)
    ensures reply.Sent? ==> reply == Sent(500, InternalError)
    ensures reply.Updated? ==> session.Some? && db.UserPlaylists(session.value) == Synced(old(db.UserPlaylists(session.value)), spotify.roster)
    ensures reply.Updated? ==> forall pl :: pl in db.UserPlaylists(session.value) <==> pl in spotify.roster
    ensures reply.Updated? ==> UniqueIds(db.UserPlaylists(session.value))
    ensures reply.Updated? ==> forall e :: e in db.UserEdges(session.value) <==>
      e in old(db.UserEdges(session.value)) && e.from in Ids(spotify.roster) && e.to in Ids(spotify.roster)
    ensures reply.Updated? ==> (reply.removedLinks <==>
      exists e :: e in old(db.UserEdges(session.value)) && (e.from !in Ids(spotify.roster) || e.to !in Ids(spotify.roster)))
  {
    if session.None? {
      return Sent(500, InternalError);
    }
    var u := session.value;
    var fetched := FetchRoster(spotify);
    if fetched.None? {
      return NoReply;
    }
    var current := fetched.value;
    var prior := db.UserPlaylists(u);
    ghost var priorEdges := db.UserEdges(u);
    assert UserConsistent(db.playlists, db.links, u);
    var d := ComputeDiff(prior, current);
    var ok, removedLinks := ApplyDiff(db, u, current, d);
    if !ok {
      return Sent(500, InternalError);
    }
    SyncedIsCurrent(prior, current);
    forall e | e in priorEdges
      ensures (e.from in Ids(d.deleted) || e.to in Ids(d.deleted)) <==> (e.from !in Ids(current) || e.to !in Ids(current))
    {
      TouchesDeleted(prior, current, e);
    }
    reply := Updated(removedLinks > 0);
  }

  // ---------------------------------------------------------------------------
  // fetchUser
  // ---------------------------------------------------------------------------

  /** The body of `fetchUser`'s 200: the user's stored playlists and links. */
  datatype UserData = UserData(playlists: seq<Pl>, links: seq<Edge>)

  /**
   * `fetchUser`: without a session user the handler answers 500; otherwise it
   * reads the user's rows of both tables. What it hands out is a roster with
   * unique ids and an acyclic graph over it, because the store keeps those.
   */
  method FetchUser(db: Database, session: Option<string>) returns (r: Result<UserData, Reply>)
    requires db.Valid()
    ensures r.Failure? <==> session.None?
    ensures r.Failure? ==> r.error == Sent(500, InternalError)
    ensures r.Success? ==> r.value == UserData(db.UserPlaylists(session.value), db.UserEdges(session.value))
    ensures r.Success? ==> UniqueIds(r.value.playlists) && !HasCycle(r.value.links)
    ensures r.Success? ==> forall e :: e in r.value.links ==> e.from in Ids(r.value.playlists) && e.to in Ids(r.value.playlists)
  {
    if session.None? {
      return Failure(Sent(500, InternalError));
    }
    var u := session.value;
    assert UserConsistent(db.playlists, db.links, u);
    r := Success(UserData(db.UserPlaylists(u), db.UserEdges(u)));
  }

  // ---------------------------------------------------------------------------
  // createLink and removeLink
  // ---------------------------------------------------------------------------

  /** Unique playlist ids make a duplicate-free node list. */
  lemma UniqueIdsNoDup(pls: seq<Pl>)
    requires UniqueIds(pls)
    ensures NoDup(Ids(pls))
  {
  }

  /**
   * `createLink`: the link from the head to the tail is stored when both are
   * stored playlists of the user, the link is new, and it closes no cycle,
   * that is, the tail does not already lead back to the head.
   */
  method CreateLink(db: Database, session: Option<string>, from: string, to: string) returns (reply: Reply)
    requires db.Valid()
    modifies db
    ensures db.Valid() && db.playlists == old(db.playlists)
    ensures forall v :: session != Some(v) ==> db.UserEdges(v) == old(db.UserEdges(v))
    ensures reply != Sent(201, "Created link.") ==> db.links == old(db.links)
    ensures session.None? ==> reply == Sent(500, InternalError)
    ensures session.Some? && ParsePlaylistPair(from, to, false).Failure? ==> reply == ParsePlaylistPair(from, to, false).error
    ensures session.Some? && ParsePlaylistPair(from, to, false).Success? ==>
      var (f, t) := ParsePlaylistPair(from, to, false).value;
      var ids := Ids(db.UserPlaylists(session.value));
      var edges := old(db.UserEdges(session.value));
      (f !in ids || t !in ids ==> reply == Sent(404, "Playlists out of sync."))
      && (f in ids && t in ids && Edge(f, t) in edges ==> reply == Sent(409, "Link already exists!"))
      && (f in ids && t in ids && Edge(f, t) !in edges && (f == t || Reaches(edges, t, f)) ==>
            reply == Sent(400, "Proposed link cannot cause a cycle in the graph"))
      && (f in ids && t in ids && Edge(f, t) !in edges && !(f == t || Reaches(edges, t, f)) ==>
            reply == Sent(201, "Created link.") || reply == Sent(500, InternalError))
    ensures reply == Sent(201, "Created link.") ==>
      session.Some? && ParsePlaylistPair(from, to, false).Success?
      && var (f, t) := ParsePlaylistPair(from, to, false).value;
      db.UserEdges(session.value) == old(db.UserEdges(session.value)) + [Edge(f, t)]
  {
    if session.None? {
      return Sent(500, InternalError);
    }
    var pair := ParsePlaylistPair(from, to, false);
    if pair.Failure? {
      return pair.error;
    }
    reply := LinkStored(db, session.value, pair.value.0, pair.value.1);
  }

  /** The part of `createLink` after both links parsed: the checks on the stored playlists and links, then the insert. */
  method LinkStored(db: Database, u: string, f: string, t: string) returns (reply: Reply)
    requires db.Valid()
    modifies db
    ensures db.Valid() && db.playlists == old(db.playlists)
    ensures forall v :: v != u ==> db.UserEdges(v) == old(db.UserEdges(v))
    ensures reply != Sent(201, "Created link.") ==> db.links == old(db.links)
    ensures
      var ids := Ids(db.UserPlaylists(u));
      var edges := old(db.UserEdges(u));
      (f !in ids || t !in ids ==> reply == Sent(404, "Playlists out of sync."))
      && (f in ids && t in ids && Edge(f, t) in edges ==> reply == Sent(409, "Link already exists!"))
      && (f in ids && t in ids && Edge(f, t) !in edges && (f == t || Reaches(edges, t, f)) ==>
            reply == Sent(400, "Proposed link cannot cause a cycle in the graph"))
      && (f in ids && t in ids && Edge(f, t) !in edges && !(f == t || Reaches(edges, t, f)) ==>
            reply == Sent(201, "Created link.") || reply == Sent(500, InternalError))
    ensures reply == Sent(201, "Created link.") ==> db.UserEdges(u) == old(db.UserEdges(u)) + [Edge(f, t)]
  {
    var playlistIds := Ids(db.UserPlaylists(u));
    if f !in playlistIds || t !in playlistIds {
      return Sent(404, "Playlists out of sync.");
    }
    if db.HasLink(u, f, t) {
      return Sent(409, "Link already exists!");
    }
    var allLinks := db.UserEdges(u);
    assert UserConsistent(db.playlists, db.links, u);
    UniqueIdsNoDup(db.UserPlaylists(u));
    var graph := new Graph(playlistIds, allLinks + [Edge(f, t)]);
    var cyclic := graph.DetectCycle();
    AddEdgeCycle(allLinks, f, t);
    if cyclic {
      return Sent(400, "Proposed link cannot cause a cycle in the graph");
    }
    var created := db.CreateLink(u, f, t);
    if !created {
      return Sent(500, InternalError);
    }
    reply := Sent(201, "Created link.");
  }

  /** `removeLink`: the stored link from the head to the tail is destroyed. */
  method RemoveLink(db: Database, session: Option<string>, from: string, to: string) returns (reply: Reply)
    requires db.Valid()
    modifies db
    ensures db.Valid() && db.playlists == old(db.playlists)
    ensures forall v :: session != Some(v) ==> db.UserEdges(v) == old(db.UserEdges(v))
    ensures reply != Sent(200, "Deleted link.") ==> db.links == old(db.links)
    ensures session.None? ==> reply == Sent(500, InternalError)
    ensures session.Some? && ParsePlaylistPair(from, to, false).Failure? ==> reply == ParsePlaylistPair(from, to, false).error
    ensures session.Some? && ParsePlaylistPair(from, to, false).Success? ==>
      var (f, t) := ParsePlaylistPair(from, to, false).value;
      (!old(db.HasLink(session.value, f, t)) ==> reply == Sent(409, "Link does not exist!"))
      && (old(db.HasLink(session.value, f, t)) ==> reply == Sent(200, "Deleted link.") || reply == Sent(500, InternalError))
    ensures reply == Sent(200, "Deleted link.") ==>
      session.Some? && ParsePlaylistPair(from, to, false).Success?
      && var (f, t) := ParsePlaylistPair(from, to, false).value;
      forall e :: e in db.UserEdges(session.value) <==> e in old(db.UserEdges(session.value)) && e != Edge(f, t)
  {
    if session.None? {
      return Sent(500, InternalError);
    }
    var u := session.value;
    var pair := ParsePlaylistPair(from, to, false);
    if pair.Failure? {
      return pair.error;
    }
    var f, t := pair.value.0, pair.value.1;
    if !db.HasLink(u, f, t) {
      return Sent(409, "Link does not exist!");
    }
    var removed := db.DestroyLink(u, f, t);
    if removed.None? || removed.value == 0 {
      return Sent(500, InternalError);
    }
    reply := Sent(200, "Deleted link.");
  }

  // ---------------------------------------------------------------------------
  // populateSingleLink and pruneSingleLink
  // ---------------------------------------------------------------------------

  /** The populate reply: how many tracks were added, and how many local files were skipped. */
  function PopulateMessage(toAddNum: nat, localNum: nat): string
  {
    (if toAddNum > 0 then "Added " + Text.NatToString(toAddNum) + " tracks" else "No tracks to add")
    + (if localNum > 0 then "; could not process " + Text.NatToString(localNum) + " local files" else ".")
  }

  /** The prune reply. */
  function PruneMessage(toDelNum: nat): string
  {
    "Removed " + Text.NatToString(toDelNum) + " tracks."
  }

  /**
   * `populateSingleLink`, corrected: for a stored link, once the head passes
   * the corrected editability gate (`Gate`, over `NamedCheckFields`), the
   * tail's tracks the head lacks are appended to it.
   */
  method PopulateSingleLink(db: Database, spotify: Spotify, session: Option<string>, from: string, to: string) returns (reply: Reply)
    modifies spotify
    ensures spotify.roster == old(spotify.roster)
    ensures session.None? ==> reply == Sent(500, InternalError)
    ensures session.Some? && ParsePlaylistPair(from, to, false).Failure? ==> reply == ParsePlaylistPair(from, to, false).error
    ensures session.Some? && ParsePlaylistPair(from, to, false).Success? && !Linked(db, session, from, to, false) ==>
      reply == Sent(409, "Link does not exist!")
    ensures !Linked(db, session, from, to, false) ==> spotify.playlists == old(spotify.playlists) && spotify.sent == old(spotify.sent)
    ensures Linked(db, session, from, to, false) && !EditableBy(old(spotify.playlists), ParsePlaylistPair(from, to, false).value.0, session.value) ==>
      spotify.playlists == old(spotify.playlists) && spotify.sent == old(spotify.sent)
      && (reply == NoReply || (reply.Sent? && reply.status == 403))
    ensures reply.Sent? && reply.status == 200 ==>
      Linked(db, session, from, to, false)
      && var (f, t) := ParsePlaylistPair(from, to, false).value;
      EditableBy(old(spotify.playlists), f, session.value)
      && PopulateDone(old(spotify.playlists), old(spotify.sent), spotify.playlists, spotify.sent, f, t)
      && reply.message == PopulateMessage(|Missing(old(spotify.playlists), f, t)|, LocalCount(old(spotify.playlists)[t].tracks))
    ensures reply.NoReply? ==>
      Linked(db, session, from, to, false)
      && var (f, t) := ParsePlaylistPair(from, to, false).value;
      PartlyPopulated(old(spotify.playlists), old(spotify.sent), spotify.playlists, spotify.sent, f, t)
  {
    if session.None? {
      return Sent(500, InternalError);
    }
    var u := session.value;
    var pair := ParsePlaylistPair(from, to, false);
    if pair.Failure? {
      return pair.error;
    }
    var f, t := pair.value.0, pair.value.1;
    if !db.HasLink(u, f, t) {
      return Sent(409, "Link does not exist!");
    }
    var fields := spotify.GetPlaylistFields(f, NamedCheckFields);
    GateDecides(fields, f, u);
    var stop := Gate(CheckPlaylistEditable(fields, f, u));
    if stop.Some? {
      return stop.value;
    }
    var result := PopulateCore(spotify, f, t);
    if result.None? {
      return NoReply;
    }
    reply := Sent(200, PopulateMessage(result.value.toAddNum, result.value.localNum));
  }

  /**
   * `pruneSingleLink`, corrected: for a stored link, once the tail passes
   * the corrected editability gate (`Gate`, over `NamedCheckFields`), the
   * tail's tracks whose URI the head lacks are removed.
   */
  method PruneSingleLink(db: Database, spotify: Spotify, session: Option<string>, from: string, to: string) returns (reply: Reply)
    modifies spotify
    ensures spotify.roster == old(spotify.roster)
    ensures session.None? ==> reply == Sent(500, InternalError)
    ensures session.Some? && ParsePlaylistPair(from, to, true).Failure? ==> reply == ParsePlaylistPair(from, to, true).error
    ensures session.Some? && ParsePlaylistPair(from, to, true).Success? && !Linked(db, session, from, to, true) ==>
      reply == Sent(409, "Link does not exist!")
    ensures !Linked(db, session, from, to, true) ==> spotify.playlists == old(spotify.playlists) && spotify.sent == old(spotify.sent)
    ensures Linked(db, session, from, to, true) && !EditableBy(old(spotify.playlists), ParsePlaylistPair(from, to, true).value.1, session.value) ==>
      spotify.playlists == old(spotify.playlists) && spotify.sent == old(spotify.sent)
      && (reply == NoReply || (reply.Sent? && reply.status == 403))
    ensures reply.Sent? && reply.status == 200 ==>
      Linked(db, session, from, to, true)
      && var (f, t) := ParsePlaylistPair(from, to, true).value;
      EditableBy(old(spotify.playlists), t, session.value)
      && PruneDone(old(spotify.playlists), old(spotify.sent), spotify.playlists, spotify.sent, f, t)
      && reply.message == PruneMessage(|MissingAt(old(spotify.playlists), f, t)|)
    ensures reply.NoReply? ==>
      Linked(db, session, from, to, true)
      && var (f, t) := ParsePlaylistPair(from, to, true).value;
      PartlyPruned(old(spotify.playlists), old(spotify.sent), spotify.playlists, spotify.sent, f, t)
  {
    if session.None? {
      return Sent(500, InternalError);
    }
    var u := session.value;
    var pair := ParsePlaylistPair(from, to, true);
    if pair.Failure? {
      return pair.error;
    }
    var f, t := pair.value.0, pair.value.1;
    if !db.HasLink(u, f, t) {
      return Sent(409, "Link does not exist!");
    }
    var fields := spotify.GetPlaylistFields(t, NamedCheckFields);
    GateDecides(fields, t, u);
    var stop := Gate(CheckPlaylistEditable(fields, t, u));
    if stop.Some? {
      return stop.value;
    }
    var result := PruneCore(spotify, f, t);
    if result.None? {
      return NoReply;
    }
    reply := Sent(200, PruneMessage(result.value));
  }
}
