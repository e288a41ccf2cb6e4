# spotify-manager: a Dafny model of the link engine

spotify-manager lets a user link two of their Spotify playlists. A link runs
from a *head* playlist to a *tail* playlist. Links form a directed graph that
must stay acyclic.

- **Populate** along a link appends to the head the tail's tracks that the
  head lacks.
- **Prune** removes from the tail the tracks whose URI the head lacks.
- **updateUser** keeps the stored copy of the user's playlist list (the
  *roster*) in line with what the service lists.

This project models that engine and proves what it promises:

- the link graph `myGraph`: direct and transitive heads and tails, Kahn's
  topological sort and cycle detection (module `LinkGraph`);
- the Spotify URI and link parsers and builders, both versions (modules
  `SpotifyUri` and `LegacyUri`);
- the helpers they use, written out as definitions:
  - `encodeURIComponent` and `decodeURIComponent`, percent-encoding of UTF-8
    as in section 2.1 of RFC 3986 (module `Percent`);
  - `String.split`, `Array.join` and `parseInt` (module `Text`);
- the editability rule of `checkPlaylistEditable`, and the request bodies of
  the append and removal calls (module `SpotifyApi`);
- the remote service as a class (module `SpotifyService`):
  - playlists are sequences of tracks carrying a snapshot id;
  - positional removal and appending are modelled;
  - every call may fail;
- the store as a class over the playlist and link tables, whose queries may
  fail (module `Store`);
- the roster diff of `updateUser` and the result of applying it (module
  `Roster`);
- the pure track-list filters and the batch plans of populate and prune
  (module `TrackLists`);
- the loops that fetch pages, append and remove (module `Sync`);
- the handlers of the operations controller (module `Operations`) and the
  earlier `updateUser` (module `LegacyOperations`);
- `zeroPaddedString` (module `FormattedNumber`);
- both versions of `getNestedValuesString` (module `JsonValues`).

Code that updates state step by step is imperative Dafny with loop
invariants:

- the graph's breadth-first searches and topological sort;
- the diff loops;
- the paging, append and removal loops;
- the handlers.

Each is proved against a specification function, and the properties are
proved about that function.

Where the two versions of a file differ, each is modelled:

- `graph.js` and `graph.ts` run the same algorithm. `LinkGraph` models both,
  with the TypeScript names.
- The older URI parser insists on a duration for local files and accepts
  extra segments. `LegacyUri` models it, and `UriVersionsAgree` and
  `LinkVersionsAgree` state exactly where the two versions agree.
- The older `getNestedValuesString` joins with `,` at every level.
  `JsonValues.LegacyGetNestedValuesString` models it.

The newer `updateUser` differs from the older one in kind: it has a rename
step, it scopes its destroys to the user, and it cascades to the links. So it
has its own module.

Callers of `createLink`, `populateSingleLink` and `pruneSingleLink` send
links, which are parsed with `parseSpotifyLink`. The handlers answer with the
statuses and messages the source sends, except where a finding below is
corrected: the populate and prune handlers stop on a refused editability
check and answer it with a 403, as the older `api/spotify.js` does.

## Model

| member | source | states |
|---|---|---|
| LinkGraph.HeadEdgesOf | utils/graph.ts:41-43 | exactly the edges ending at the node, each as often as it occurs in the edge list |
| LinkGraph.TailEdgesOf | utils/graph.ts:72-74 | exactly the edges leaving the node, each as often as it occurs in the edge list |
| LinkGraph.HeadsOf | utils/graph.ts:35-39 | `u` is a direct head iff `u -> node` is an edge, listed once per such edge (duplicates kept) |
| LinkGraph.TailsOf | utils/graph.ts:62-66 | `v` is a direct tail iff `node -> v` is an edge, listed once per such edge |
| LinkGraph.HeadsAreFromsOfHeadEdges | utils/graph.js:38-40 | the direct heads are the sources of the direct head edges, in edge order |
| LinkGraph.TailsAreTosOfTailEdges | utils/graph.js:46-48 | the direct tails are the targets of the direct tail edges, in edge order |
| LinkGraph.Graph.constructor | utils/graph.ts:30-33 | the graph holds the given node and edge lists, which no method changes afterwards |
| LinkGraph.Graph.InitialInDegrees | utils/graph.ts:99-107 | one entry per node, holding the number of edges into it |
| LinkGraph.Graph.ZeroInDegreeNodes | utils/graph.ts:109-114 | the initial queue holds exactly the nodes of in-degree 0, each once |
| LinkGraph.Graph.ReleaseTails | utils/graph.ts:121-126 | after a node is emitted, each in-degree counts the edges from nodes not yet emitted; the queue holds exactly the unemitted nodes at 0, each once |
| LinkGraph.Graph.DecrementInDegree | utils/graph.ts:122-125 | one decrement keeps in-degrees and queue in step with the tails still to be processed |
| LinkGraph.Graph.TopoSort | utils/graph.ts:94-129 | the order repeats no node and holds only nodes; every edge into an emitted node comes from an earlier one; each node left out has an incoming edge from another node left out; on valid acyclic input every node is emitted |
| LinkGraph.Graph.QueueHeadsOf | utils/graph.ts:52-56 | adds exactly the direct heads to the head set; the visit queue gets every direct head; no duplicates in either |
| LinkGraph.Graph.AllHeads | utils/graph.ts:46-60 | on an acyclic graph: without duplicates, exactly the nodes with a non-empty path to the node |
| LinkGraph.Graph.AllTails | utils/graph.ts:77-91 | on an acyclic graph: without duplicates, exactly the nodes reachable from the node by a non-empty path |
| LinkGraph.Graph.DetectCycle | utils/graph.ts:132-135 | on valid lists, true iff some non-empty path returns to its start |
| LinkGraph.DetectCycleExample | utils/graph.js:10-22 | the documented example a->b->c->d->a plus e->a has a cycle |
| LinkGraph.FullLengthAcyclic | utils/graph.js:54-89 | an order as long as the distinct node list that respects every edge rules out any cycle |
| LinkGraph.BlockedAcyclicFull | utils/graph.ts:117-127 | when the queue runs dry on an acyclic graph, every node has been emitted |
| LinkGraph.EmitKeepsOrder | utils/graph.ts:118-119 | emitting a node whose in-degree is 0 keeps every edge going forward, and none of its tails is emitted yet |
| LinkGraph.PendingStep | utils/graph.ts:121-122 | emitting `n` lowers the in-degree of `v` by the number of edges `n -> v` |
| LinkGraph.ReachesReverse | utils/graph.ts:77-91 | reversing every edge turns "b reaches a" into "a reaches b", so tails are the heads of the reversed graph |
| LinkGraph.AcyclicReverse | utils/graph.ts:77-91 | the reversed graph of an acyclic graph is acyclic |
| LinkGraph.AddEdgeCycle | controllers/operations.ts:305-322 | adding `f -> t` to an acyclic graph makes a cycle iff `f == t` or `t` already reaches `f` |
| SpotifyUri.DecodeNames | utils/spotifyUriTransformer.ts:29-31 | fails with a malformed-escape error iff one of artist, album or title does not decode; otherwise the three decoded names |
| SpotifyUri.ParseSpotifyUri | utils/spotifyUriTransformer.ts:11-62 | a success starts with `spotify`; a non-local result has a base-62 id and rebuilds to the input; a local result comes from exactly four segments after `spotify:local`, is a track with empty id, carries the percent-decoded names and `parseInt` of the last segment as duration; four segments that decode always give a local result, and a malformed escape among them is a `URIError`; any other count after `local` is a not-a-local-file error; input whose first segment is not `spotify` is not a Spotify URI; a non-local URI with other than three segments is not a Spotify URI, one with a non-base-62 id has an invalid id, and one with three segments and a base-62 id gives exactly that type and id |
| SpotifyUri.MatchLocalLink | utils/spotifyUriTransformer.ts:70-71 | a match gives four slash-free groups, a non-empty title and an all-digit duration, and the link is the local prefix followed by them joined with `/`; converse: `SpotifyUri.LocalMatch` |
| SpotifyUri.LocalMatch | utils/spotifyUriTransformer.ts:70-71 | every link of the local shape (four `/`-free groups after the local prefix, a non-empty title, an all-digit duration) matches the local pattern with exactly those groups |
| SpotifyUri.MatchStandardLink | utils/spotifyUriTransformer.ts:72 | a match gives a non-empty slash-free type and a non-empty id free of `/` and `?`, and the link starts with prefix, type, `/`, id |
| SpotifyUri.ParseSpotifyLink | utils/spotifyUriTransformer.ts:69-118 | a local result comes from a match of the local pattern and carries its decoded groups as names and the value of its digits as duration; a match whose names decode always gives a local result; a local match whose names do not decode is a `URIError`; a standard result comes only from a missed local pattern and a standard match with that type and id, has a base-62 id, and its built link is a prefix of the input; after a missed local pattern, a standard match gives its type and id when the id is base-62 and an invalid-id error otherwise, and no match at all is not a Spotify link; failures are the four thrown errors |
| SpotifyUri.LocalUriSegments | utils/spotifyUriTransformer.ts:21-47 | a local URI whose names contain no `%` parses to those names as written (a `+` stays a `+`) and to `parseInt` of its last segment |
| SpotifyUri.ShortLocalUriRefused | utils/spotifyUriTransformer.ts:22-25 | a local URI with three segments after `spotify:local` is a not-a-local-file error |
| SpotifyUri.DurationTextParses | utils/spotifyUriTransformer.ts:126 | the duration text the builders write parses back to the duration, except that an absent or zero duration writes nothing |
| SpotifyUri.LocalPartsSeparatorFree | utils/spotifyUriTransformer.ts:123-126 | the encoded names and the duration contain neither `:` nor `/` |
| SpotifyUri.BuildSpotifyUri | utils/spotifyUriTransformer.ts:120-130 | a local object gives `spotify:local:` followed by its artist, album and title percent-encoded and its duration (empty when absent or 0), split at `:` into exactly those six segments; any other object with `:`-free type and id gives `spotify:<type>:<id>`, split into exactly those three; round-trip partners: `SpotifyUri.ParseBuildRemoteUri`, `SpotifyUri.ParseBuildLocalUri` |
| SpotifyUri.BuildSpotifyLink | utils/spotifyUriTransformer.ts:132-142 | a local object gives `https://open.spotify.com/local/` followed by its four encoded parts, split at `/` into exactly those four; any other object with `/`-free type and id gives `https://open.spotify.com/<type>/<id>`; round-trip partners: `SpotifyUri.ParseBuildRemoteLink`, `SpotifyUri.ParseBuildLocalLink` |
| SpotifyUri.ParseBuildRemoteUri | utils/spotifyUriTransformer.ts:129 | for a type other than `local` without `:` and a base-62 id, parsing the built URI gives the object back |
| SpotifyUri.ParseBuildLocalUri | utils/spotifyUriTransformer.ts:121-128 | parsing a built local URI gives back the names, and the duration unless it was 0 |
| SpotifyUri.NotLocalLink | utils/spotifyUriTransformer.ts:71 | a standard link of any type other than `local` never starts with the local prefix |
| SpotifyUri.LocalMiss | utils/spotifyUriTransformer.ts:74 | such a link never matches the local pattern |
| SpotifyUri.StandardMatch | utils/spotifyUriTransformer.ts:72 | prefix + type + `/` + id, followed by nothing, a `/` or a `?`, matches with exactly that type and id |
| SpotifyUri.ParseLinkIgnoresSuffix | utils/spotifyUriTransformer.ts:100-114 | query strings and trailing path segments after the id are ignored |
| SpotifyUri.LocalKindMiss | utils/spotifyUriTransformer.ts:71 | a standard link of type `local` has too few segments to match the local pattern |
| SpotifyUri.ParseBuildRemoteLink | utils/spotifyUriTransformer.ts:141 | for any slash-free non-empty type and base-62 id, parsing the built link gives the object back |
| SpotifyUri.ParseBuildLocalLink | utils/spotifyUriTransformer.ts:133-140 | a built local link with a non-empty title and a positive duration parses back to the same local file |
| SpotifyUri.LocalLinkWithoutDuration | utils/spotifyUriTransformer.ts:138 | a local file without a duration builds a link that parses as a standard link of type `local`, not as the file |
| SpotifyUri.LocalLinkWithoutDurationExample | utils/spotifyUriTransformer.ts:133-142 | a concrete instance: Artist/Album/Title without a duration comes back as `local`/`Artist` |
| LegacyUri.LocalResult | utils/spotifyUriTransformer.js:30-39 | a local result carries the parsed duration; a duration that does not parse is an invalid-duration error |
| LegacyUri.ParseSpotifyUri | utils/spotifyUriTransformer.js:13-54 | a success starts with `spotify`; a local result needs at least four segments after `spotify:local` and carries the first three decoded and `parseInt` of the fourth; such segments that decode and parse always give a local result; fewer segments is a not-a-local-file error; with six or more the result is the local branch on the first four, extra ones ignored; a resource has a base-62 id and is exactly `spotify:type:id`; input whose first segment is not `spotify` is not a Spotify URI; a non-local URI with other than three segments is not a Spotify URI, one with a non-base-62 id has an invalid id, and one with three segments and a base-62 id gives exactly that type and id |
| LegacyUri.ParseSpotifyLink | utils/spotifyUriTransformer.js:63-103 | a local result carries the decoded groups of the local pattern and the value of its digits; a match whose names decode always gives a local result; a local match always gives the local branch on its groups; a resource comes only from a missed local pattern and a standard match with that type and id, and has a base-62 id at the start of the link; after a missed local pattern, a standard match gives its type and id when the id is base-62 and an invalid-id error otherwise, and no match at all is not a Spotify link; failures are the thrown errors |
| LegacyUri.UriVersionsAgree | utils/spotifyUriTransformer.js:22-39 | on URIs of at most six segments both parsers agree, except that the older one rejects a duration that does not parse |
| LegacyUri.LinkVersionsAgree | utils/spotifyUriTransformer.js:63-103 | both link parsers agree on every input (the older result has no id field for local files) |
| LegacyUri.DurationMandatory | utils/spotifyUriTransformer.js:33-37 | a local URI whose duration does not parse is accepted by the newer parser and rejected by the older one |
| LegacyUri.ExtraSegmentsIgnored | utils/spotifyUriTransformer.js:24-27 | the older parser ignores segments after the sixth |
| LegacyUri.ExtraSegmentsRefusedByCurrent | utils/spotifyUriTransformer.ts:22-25 | the newer parser rejects a local URI with more than six segments |
| Percent.DecodeEncode | utils/spotifyUriTransformer.ts:29-31 | decoding an encoded string gives it back |
| Percent.Decode | utils/spotifyUriTransformer.ts:29-31 | `decodeURIComponent`: a decoded string is never longer than its input, and text without `%` decodes to itself, so `+` is not read as a space; partner: `Percent.DecodeEncode` |
| Percent.Encode | utils/spotifyUriTransformer.ts:123-125 | `encodeURIComponent`: the result is never shorter than the input, and equals it exactly when every character is one left unescaped; partners: `Percent.DecodeEncode`, `Percent.EncodeHasNoSeparators` |
| Percent.EncodeHasNoSeparators | utils/spotifyUriTransformer.ts:123-127 | an encoded name contains no `:`, `/` or `?`, so it stays within one segment |
| Percent.EncodeEmpty | utils/spotifyUriTransformer.ts:135-139 | an encoded name is empty iff the name is |
| Text.Split | utils/spotifyUriTransformer.ts:12 | at least one piece, none containing the separator, and joining them with it gives the input back |
| Text.SplitJoin | utils/spotifyUriTransformer.ts:127 | splitting a join of separator-free pieces gives the pieces back |
| Text.ParseInt | utils/spotifyUriTransformer.ts:32 | `parseInt(s, 10)`: with no digit anywhere the result is NaN (`None`); from a leading digit on the longest run of digits is read and the rest ignored; a negative result needs a `-` in the text; partner: `Text.ParseIntOfIntToString` |
| Text.ParseIntOfIntToString | utils/spotifyUriTransformer.ts:32 | `parseInt` reads back every integer written in decimal |
| Text.DigitsParse | utils/spotifyUriTransformer.ts:85 | an all-digit string parses to its decimal value |
| Text.NatToString | utils/getFormattedNumber.ts:11 | a natural is written as digits without a leading zero |
| Text.DigitsValueOfNatToString | utils/getFormattedNumber.ts:13 | the decimal value of a written natural is the natural |
| FormattedNumber.Repeat | utils/getFormattedNumber.ts:12 | `n` copies of the character |
| FormattedNumber.ZeroPaddedString | utils/getFormattedNumber.ts:1-14 | the two range errors and the position error in the source's order; success iff the digits fit in `requiredDigits`, and then the result has exactly that length; too many digits is the `repeat` error |
| FormattedNumber.PadBeforeValue | utils/getFormattedNumber.ts:13 | zeros before the digits leave the value unchanged |
| FormattedNumber.PadAfterValue | utils/getFormattedNumber.ts:13 | zeros after the digits keep them as a prefix and multiply the value by a power of ten |
| FormattedNumber.ExactWidth | utils/getFormattedNumber.ts:11-13 | padding to the number's own width returns its digits |
| JsonValues.Entries | utils/jsonTransformer.ts:4 | the values `for...in` visits, in key order: array items, object member values, a string's characters, nothing otherwise |
| JsonValues.Elements | utils/jsonTransformer.ts:3-10 | one element per visited value |
| JsonValues.GetNestedValuesString | utils/jsonTransformer.ts:2-13 | the loop's result is the flattening with the caller's delimiter at the top and `", "` below |
| JsonValues.LegacyGetNestedValuesString | utils/jsonTransformer.js:7-18 | the loop's result is the flattening with `,` at every level |
| JsonValues.OneElementPerKey | utils/jsonTransformer.ts:5-8 | each key gives one element: a plain value rendered, a nested object its own flattening |
| JsonValues.EmptyGivesEmpty | utils/jsonTransformer.ts:12 | an empty object, an empty array and null flatten to `""` |
| JsonValues.EmptyNestedCounts | utils/jsonTransformer.ts:8 | an empty nested object still contributes an (empty) element |
| JsonValues.DelimiterNotPassedDown | utils/jsonTransformer.ts:8 | the nested call joins with `", "` whatever the caller's delimiter |
| JsonValues.FlatVersionsAgree | utils/jsonTransformer.js:17 | on flat objects the newer version with `,` and the older one agree |
| JsonValues.LegacySplitsBack | utils/jsonTransformer.js:17 | on flat objects whose values contain no comma, splitting the result at `,` gives the rendered values back |
| Roster.Lookup | controllers/operations.ts:91 | the stored entry for an id, absent iff the id is not stored; with unique ids it is the entry with that id |
| Roster.AddedOf | controllers/operations.ts:97-110 | exactly the remote playlists whose id is not stored |
| Roster.RenamedOf | controllers/operations.ts:97-110 | exactly the stored ids listed under another name, with the stored and the new name |
| Roster.DeletedOf | controllers/operations.ts:113-117 | exactly the stored playlists whose id is no longer listed |
| Roster.NewUserDiff | controllers/operations.ts:118-121 | the new-user branch (everything added) agrees with the general diff against an empty roster |
| Roster.NoneRenamed | controllers/operations.ts:118-121 | nothing is renamed against an empty roster |
| Roster.NoneDropped | controllers/operations.ts:118-121 | everything listed is added against an empty roster |
| Roster.IndexById | controllers/operations.ts:91 | the map from stored id to stored entry agrees with `Lookup` |
| Roster.CollectAddedRenamed | controllers/operations.ts:97-110 | the `forEach` loop pushes exactly `AddedOf` and `RenamedOf`, in remote order |
| Roster.CollectDeleted | controllers/operations.ts:113-117 | the loop pushes exactly `DeletedOf`, in stored order |
| Roster.ComputeDiff | controllers/operations.ts:85-121 | the diff the handler computes, including the new-user branch |
| Roster.Without | controllers/operations.ts:146-155 | the stored playlists whose id is not destroyed; unique ids stay unique |
| Roster.RenameIn | controllers/operations.ts:178-184 | one rename changes the name of exactly the entries with that id and keeps every id |
| Roster.ApplyRenames | controllers/operations.ts:174-190 | the transaction's renames keep length and ids |
| Roster.SyncedIsCurrent | controllers/operations.ts:128-190 | after deleting, inserting and renaming, the stored roster holds exactly the listed playlists, with unique ids |
| Roster.AddedUnique | controllers/operations.ts:97-110 | the added playlists have unique ids |
| Roster.DeletedIdsAre | controllers/operations.ts:113-117 | a stored id is deleted iff the service no longer lists it |
| Roster.AddedFresh | controllers/operations.ts:158-172 | what `bulkCreate` receives has unique ids, none stored once the deleted ones are gone |
| Roster.RenamesUnique | controllers/operations.ts:97-110 | each id is renamed at most once, so the order of the renames does not matter |
| Roster.KeptAddedUnique | controllers/operations.ts:146-172 | the kept and the added playlists together have unique ids |
| Roster.Kept | controllers/operations.ts:146-155 | a stored playlist survives the destroy iff its id is still listed |
| Store.PlaylistsView | controllers/operations.ts:146-155 | destroying the user's playlists by id changes only that user's roster, to `Without` |
| Store.LinksTouchingCount | controllers/operations.ts:131-143 | the destroy removes a row iff some link of the user touches a deleted id |
| Store.LinkCount | controllers/operations.ts:383-394 | destroying a link removes a row iff the user has that link |
| Store.PlaylistsCount | controllers/operations.ts:146-155 | the destroyed count equals the number of the user's playlists that went |
| Store.DestroyLinksConsistent | controllers/operations.ts:131-143 | removing links keeps every user's roster and graph consistent (unique ids, links between stored playlists, no cycle) |
| Store.DestroyLinkConsistent | controllers/operations.ts:383-394 | removing one link keeps the store consistent |
| Store.DestroyPlaylistsConsistent | controllers/operations.ts:146-155 | removing playlists that no link of the user touches keeps the store consistent |
| Store.BulkCreateConsistent | controllers/operations.ts:158-172 | inserting fresh playlists with unique ids keeps the store consistent |
| Store.RenameAllConsistent | controllers/operations.ts:174-190 | renaming keeps the store consistent |
| Store.CreateLinkConsistent | controllers/operations.ts:324-337 | adding a link between stored playlists that closes no cycle keeps the store consistent |
| Store.Database.DestroyLinksTouching | controllers/operations.ts:131-143 | on success the user keeps exactly the links touching no deleted id, the count is positive iff one went, and other users keep theirs; on failure nothing changes |
| Store.Database.DestroyLink | controllers/operations.ts:383-394 | on success exactly that link is gone and the count is positive iff it existed; on failure nothing changes |
| Store.Database.DestroyPlaylists | controllers/operations.ts:146-155 | on success the user's roster is `Without` the ids and the count is the number removed; other users are untouched |
| Store.Database.BulkCreate | controllers/operations.ts:158-172 | all rows are appended or none is |
| Store.Database.RenameAll | controllers/operations.ts:174-190 | the transaction applies every rename or none |
| Store.Database.CreateLink | controllers/operations.ts:324-337 | on success the user's graph gains exactly the new edge; on failure nothing changes |
| SpotifyApi.CheckPlaylistEditable | api/spotify.ts:248-276 | a failed fetch gives `status:false` with its error and message; a collaborative or owned playlist gives `status:true` with `""`; otherwise `status:false` with the playlist and "Cannot edit playlist: " + name; `status` holds iff fetched and editable |
| SpotifyApi.RefusalNeverNamed | api/spotify.ts:256-271 | with the fields the check requests, a refusal always reads "Cannot edit playlist: undefined" |
| SpotifyApi.RefusalNamed | api/spotify.ts:267-272 | once `name` is requested, the refusal names the playlist |
| SpotifyApi.TracksPathInjective | api/spotify.ts:203 | different playlists are addressed by different paths |
| SpotifyApi.RequestsCarryArguments | api/spotify.ts:197-233 | an append is a POST with body `{uris: batch}`, a removal a DELETE with `{positions, snapshot_id}`; equal requests have equal arguments |
| SpotifyService.PageExtends | api/spotify.ts:123-151 | a page followed by its `next` pages rebuilds the whole list |
| SpotifyService.Spotify.GetCurrentUsersPlaylistsPage | api/spotify.ts:123-151 | a page of at most 50 playlists starting at the offset, with `next` set iff more follow |
| SpotifyService.Spotify.GetPlaylistFields | api/spotify.ts:158-176 | a success returns the selected fields of an existing playlist |
| SpotifyService.TracksResponse | api/spotify.ts:158-190 | the page of the playlist's tracks at the offset, and its current snapshot id exactly when the request's `fields` select `snapshot_id` |
| SpotifyService.Spotify.GetPlaylistTracksPage | api/spotify.ts:158-190 | a success returns the page of an existing playlist's tracks at the offset, with the current snapshot id exactly when `fields` select it |
| SpotifyService.Spotify.AddItemsToPlaylist | api/spotify.ts:197-207 | the request is recorded; on success the batch (at most 100) is appended and a new snapshot returned; on failure the playlist is unchanged |
| SpotifyService.Spotify.RemovePlaylistItems | api/spotify.ts:215-233 | the request is recorded; success requires the current snapshot and valid positions, removes exactly those positions and returns a new snapshot |
| Sync.GetPlaylistTracks | controllers/operations.ts:416-471 | corrected (the first request also selects `snapshot_id`): on success the playlist's tracks of all pages in page order, and the playlist's current snapshot |
| Sync.FirstSnapshotAsWritten | controllers/operations.ts:419-432 | with the fields the source requests, the first page carries no snapshot id |
| Sync.FirstSnapshotVersioned | controllers/operations.ts:419-432 | with `snapshot_id` added to the fields, the first page carries the playlist's current snapshot |
| Sync.AppendBatches | controllers/operations.ts:528-538 | on success every front batch was appended, in order, one request each; a failure stops the loop after the failed request |
| Sync.PopulateCore | controllers/operations.ts:496-546 | on success the head gained the tail's missing tracks at its end and the counts are the missing and local numbers; on failure nothing or a prefix of the batches was applied |
| Sync.PopulateCovers | controllers/operations.ts:484-492 | after a populate every non-local tail URI is in the head, and the head lost nothing |
| Sync.AppendedAllContents | controllers/operations.ts:528-538 | appending the batches one by one appends their concatenation and advances the snapshot once per batch |
| Sync.RemoveBatches | controllers/operations.ts:664-677 | on success each back batch was removed with the snapshot the previous call returned; a failure stops the loop |
| Sync.PruneCore | controllers/operations.ts:634-685 | on success the tail keeps exactly its tracks whose URI the head has and the count is the number of removed positions; on failure a prefix of the batches was applied |
| TrackLists.MissingUris | controllers/operations.ts:519-526 | exactly the non-local tail URIs absent from the head, at most one per tail track |
| TrackLists.MissingUrisCount | controllers/operations.ts:519-526 | each such URI is listed as often as the tail holds it (tail order and duplicates kept) |
| TrackLists.LocalCount | controllers/operations.ts:521 | the number of local tail tracks, at most the tail's length |
| TrackLists.PopulateAccounting | controllers/operations.ts:519-526 | missing, local and already-present tail tracks add up to the tail |
| TrackLists.PopulateExample | controllers/operations.ts:484-492 | the documented example: head a,b,c and tail e,b,d give a,b,c,e,d |
| TrackLists.FrontBatchesShape | controllers/operations.ts:528-538 | the front batches concatenate to the list, each has 1 to 100 items, and there are ceil(n/100) of them |
| TrackLists.BackBatchesShape | controllers/operations.ts:664-677 | each back batch has 1 to 100 items and there are ceil(n/100) of them |
| TrackLists.BackBatchesConcat | controllers/operations.ts:664-677 | the back batches, read in reverse, concatenate to the list |
| TrackLists.BackBatchesDescend | controllers/operations.ts:664-677 | for ascending positions, every position of a batch exceeds every position of a later batch |
| TrackLists.MissingPositions | controllers/operations.ts:653-662 | ascending, in range, and exactly the tail positions whose URI the head lacks |
| TrackLists.KeepMembers | controllers/operations.ts:619-632 | the kept tail tracks are exactly those whose URI the head has |
| TrackLists.PruneKeeps | controllers/operations.ts:653-677 | removing the missing positions leaves exactly the kept tracks, in order |
| TrackLists.PruneExample | controllers/operations.ts:619-632 | the documented example: tail e,b,d,c,f,g keeps b,c |
| Operations.ParseErrorMessagesDiffer | controllers/operations.ts:703-706 | different parse errors give different messages |
| Operations.ParsePlaylistPair | controllers/operations.ts:264-277 | succeeds iff both links parse as playlists, yielding their base-62 ids; otherwise a 400 with the generic or the detailed message |
| Operations.PlaylistLinksAccepted | controllers/operations.ts:264-277 | the links built for two playlists are accepted with their ids |
| Operations.GateAsWrittenPassesRefusal | controllers/operations.ts:582-590 | as written, a refused check does not stop the handler |
| Operations.Gate | controllers/operations.ts:721-729 | the corrected gate stops exactly when `status` is false, answering 403 on a refusal and sending no reply of its own after a failed request |
| Operations.GateDecides | api/spotify.ts:263-275 | through the corrected gate pass exactly the playlists the user may edit; a refusal is a 403 with the check's message |
| Operations.FetchRoster | controllers/operations.ts:44-75 | on success the pages concatenate to the whole listing |
| Operations.TouchesDeleted | controllers/operations.ts:131-143 | a link between stored playlists touches a deleted id iff one of its ends is no longer listed |
| Operations.ApplyDiff | controllers/operations.ts:128-190 | the cascade in its order; on success the roster is synced, the links touching deleted ids are gone, and the reply flag says whether any went; other users and consistency are kept |
| Operations.UpdateUser | controllers/operations.ts:37-207 | on success the roster holds exactly the listed playlists with unique ids and the links keep exactly those between listed playlists; failures answer 500; other users are untouched |
| Operations.FetchUser | controllers/operations.ts:212-252 | 500 without a session user; otherwise the user's stored playlists and links, a roster with unique ids and an acyclic graph over it |
| Operations.CreateLink | controllers/operations.ts:257-345 | answers 404, 409, 400 (cycle) or 201 in the source's order; only 201 changes the store, adding exactly the new edge; the store stays consistent |
| Operations.RemoveLink | controllers/operations.ts:350-404 | answers 409 when the link is absent; only 200 changes the store, removing exactly that edge |
| Operations.PopulateSingleLink | controllers/operations.ts:548-614 | corrected (the gate reads `status`): nothing changes without a stored link or edit rights on the head; a 200 means the populate completed and reports its counts |
| Operations.PruneSingleLink | controllers/operations.ts:687-750 | corrected (the gate reads `status`): nothing changes without a stored link or edit rights on the tail; a 200 means the prune completed and reports its count |
| LegacyOperations.StoredIds | controllers/operations.js:60-71 | an id is stored for the user iff a row pairs them |
| LegacyOperations.Absent | controllers/operations.js:75-76 | exactly the ids of the first list missing from the second |
| LegacyOperations.DropAnyUser | controllers/operations.js:84-86 | the rows whose playlist id is not destroyed, whoever they belong to |
| LegacyOperations.DropForUser | controllers/operations.js:84-86 | the rows kept by a destroy scoped to the user |
| LegacyOperations.OthersHolding | controllers/operations.js:84-86 | the rows of other users holding a destroyed id |
| LegacyOperations.NewRows | controllers/operations.js:94-97 | one row per added id, for the user |
| LegacyOperations.NewUserDiff | controllers/operations.js:77-81 | the new-user branch agrees with the general set difference against nothing stored |
| LegacyOperations.ScopedRemovalCount | controllers/operations.js:83-91 | a scoped destroy removes exactly as many rows as there are ids to remove |
| LegacyOperations.UnscopedRemovalCount | controllers/operations.js:84-87 | the unscoped destroy removes the user's rows plus every other user's row holding such an id |
| LegacyOperations.StoredAfterSync | controllers/operations.js:83-102 | after the scoped removal and the insertion the user stores exactly the listed ids |
| LegacyOperations.DropForUserKeepsOthers | controllers/operations.js:84-86 | a scoped destroy leaves other users' ids alone |
| LegacyOperations.UnscopedDropsOthers | controllers/operations.js:84-89 | as written, another user's row is deleted and the count check then answers 500 |
| LegacyOperations.FetchFailureStatusAsWritten | controllers/operations.js:33-50 | only the first page's client error is passed on; a later page's turns into 500 |
| LegacyOperations.FetchFailureStatus | controllers/operations.js:33-50 | every page's client error is passed on, anything else is 500 |
| LegacyOperations.LaterPageStatusLost | controllers/operations.js:49-50 | a later page refused with 404 is answered 500 as written and 404 once corrected |
| LegacyOperations.RequestPage | controllers/operations.js:41-48 | a successful request returns the page at the offset |
| LegacyOperations.ListPlaylistIds | controllers/operations.js:19-57 | on success the ids of every listed playlist, in listing order |
| LegacyOperations.Table.DestroyAnyUser | controllers/operations.js:84-86 | on success the unscoped rows are gone and the count is how many; on failure nothing changes |
| LegacyOperations.Table.DestroyForUser | controllers/operations.js:84-86 | the same, scoped to the user |
| LegacyOperations.Table.BulkCreate | controllers/operations.js:94-97 | all rows are appended or none is |
| LegacyOperations.UpdateUserAsWritten | controllers/operations.js:14-109 | a client error changes nothing; a 200 removes every user's rows holding a removed id and appends the added ones, and then no other user held one; a 500 leaves the table unchanged or with that delete already done (no rollback) |
| LegacyOperations.UpdateUser | controllers/operations.js:14-109 | corrected: other users never change; on 200 the user stores exactly the listed ids |

## Left out

- HTTP, sessions, OAuth, logging and the request wrapper `singleRequest` are not modelled.
  - After a failed service call a handler returns without a reply of its own; the model records that as `NoReply`. For a failed read (the listing, a playlist's fields or items) the wrapper, handed `res`, has answered. `addItemsToPlaylist` and `removePlaylistItems` do not hand `res` on (`api/spotify.ts:197-233`), so after a failed append or removal no reply is sent.
  - Its mapping of errors to statuses is not modelled.
- Exceptions:
  - A thrown exception in a handler is modelled as a call that may fail (`var ok: bool := *`), answered with 500.
  - A store or service call that fails is a nondeterministic outcome. Whether it fails is not a function of the state.
- Snapshot ids are modelled as a counter that grows by one per successful append or removal. Real ids are opaque strings.
- Concurrency is not modelled. Each handler runs alone against the store and the service.
- The inserted-count check after `bulkCreate` is not modelled, in the newer `updateUser` (`operations.ts:165`) nor in the older one (`operations.js:98-101`). `bulkCreate` with `validate: true` inserts all rows or throws, so the model treats a failed insert as the thrown case.
- Queries that only read the store never fail in the model.
- `controllers/operations.ts` is out of step with `api/spotify.ts`. It calls every helper as `{req, res, ...}` without the `authHeaders` the helpers require (`types/spotify_manager/shorthands.types.ts:9`). It reads every result as data or `null` (`respData.tracks.next` at `:437`, `!addData` at `:537`, `!delResponse` and `delResponse.snapshot_id` at `:675-676`), whereas the helpers resolve to `{resp?, error?, message}` records (`api/spotify.ts:46-51`), which are always truthy. The model reads the listing, items, append and removal calls as data or `null`, the way the controller uses them, and `checkPlaylistEditable` as the `api/spotify.ts` record, which is where the first finding comes from. Under the record reading throughout, the `null` checks of the loops would never stop them either; that reading is not modelled.
- Operations.PopulateSingleLink: models the corrected gate, not `operations.ts:582-590` as written (see the first finding). Its fields request includes `name`, and a refusal is answered with a 403 as `api/spotify.js:141-148` sends it, carrying the check's own message.
- Operations.PruneSingleLink: models the corrected gate, not `operations.ts:721-729` as written (see the first finding). Its fields request includes `name`, and a refusal is answered with a 403 as `api/spotify.js:141-148` sends it, carrying the check's own message.
- Sync.GetPlaylistTracks: models the corrected first request, which selects `snapshot_id`; as written the first removal of a prune names no snapshot (see the findings).
- JavaScript numbers are modelled as unbounded integers (`zeroPaddedString`, the builders' duration text, `parseInt`, JSON numbers). From 1e21 on, `String(n)` switches to exponent notation, so `zeroPaddedString(1e21, 30, "before")` counts five characters and a local URI built with duration 1e21 parses back as 1; above 2^53 `parseInt` loses precision; and JSON numbers that are not integers, rendered as `1.5`, are not representable. The model agrees with the source for integers below 2^53 only.
- `api/spotify.js` is not part of this model. Its `checkPlaylistEditable` applies the same rule but sends the 403 itself.
- `getFormattedDate`, `flake`, the logger, the auth controllers and the middleware are not part of this model. So are the routes, the validators, the ORM models, `load.ts` and `playlists.*`.
- Strings:
  - JavaScript strings are UTF-16. The model's strings are sequences of Unicode scalar values, so lone surrogates cannot arise.
  - `encodeURIComponent` would throw on a lone surrogate, and that case is not modelled.
  - `decodeURIComponent`, `encodeURIComponent`, `parseInt` and `split` are written out as definitions rather than assumed.
- Operations.UpdateUser: requires the service to list each playlist id once. With duplicate ids the source would try to insert the same row twice.
- LinkGraph.Graph.TopoSort: requires a node list without repeats. `DetectCycle` requires the valid lists the class documents ("nodes and edges are valid").
  - With an edge ending outside the nodes, the source's in-degree becomes `NaN`. The model keeps no entry for it and never queues it, which matches.
- LinkGraph.Graph.AllHeads and LinkGraph.Graph.AllTails: require an acyclic graph. The source's loop does not terminate when a cycle through some node other than the start can be reached; a graph whose only cycle is a self-loop on the start node still terminates there, because `toVisit` is a `Set`, and that case is excluded too.
- LegacyOperations.UpdateUser and LegacyOperations.UpdateUserAsWritten: the user id is taken as given. The source parses it from the session URI (`operations.js:17`).
- LegacyOperations.ListPlaylistIds: returns playlist ids directly. The source parses them from each playlist's URI (`operations.js:36`).
- Operations.ApplyDiff: a separate method for the cascade of `updateUser`, which the source writes inline.
- The wording of the thrown errors' messages is kept only where a handler sends it (`ParseErrorMessage`).

## Findings

| source | as written | input that shows it | evidently intended | confidence | as-written member | corrected member |
|---|---|---|---|---|---|---|
| controllers/operations.ts:582-590 | `if (!(await checkPlaylistEditable(...)))` tests the returned record, which is always truthy | a private playlist owned by someone else: `status` is false, yet populate goes on | stop when `status` is false | high; not executed | Operations.GateAsWrittenPassesRefusal | Operations.GateDecides, Operations.PopulateSingleLink, Operations.PruneSingleLink |
| api/spotify.ts:256-271 | the check requests `collaborative,owner(id)` but its refusal reads `resp.data.name` | any refused playlist: the message is "Cannot edit playlist: undefined" | request `name` too, so the refusal names the playlist | high; not executed | SpotifyApi.RefusalNeverNamed | SpotifyApi.RefusalNamed |
| controllers/operations.js:84-86 | `destroy({where: {playlistID: toRemove}})` is not scoped to the user | rows (alice, p) and (bob, p), and alice's listing no longer has p: bob's row is deleted too and the count check answers 500 | also match `userID` | high; not executed | LegacyOperations.UnscopedDropsOthers | LegacyOperations.UpdateUser |
| controllers/operations.js:49-50 | the page loop tests `response.status` (the first page) instead of `nextResponse.status` | a later page answered 404: the handler sends 500 instead of 404 | test the later page's own status | medium; not executed | LegacyOperations.LaterPageStatusLost | LegacyOperations.FetchFailureStatus |
| controllers/operations.ts:419-432 | the first items request selects `tracks(next,items(is_local,track(uri)))` only, then reads `respData.snapshot_id` | any prune: the snapshot is undefined, so the first removal carries no `snapshot_id` and is not checked against the version the positions were read from | add `snapshot_id` to the first request's fields | medium; not executed | Sync.FirstSnapshotAsWritten | Sync.GetPlaylistTracks |
