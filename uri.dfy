/**
 * Spotify URIs (`spotify:<type>:<id>`, `spotify:local:<artist>:<album>:<title>:<duration>`)
 * and open.spotify.com links: the parsers and builders of the current version.
 */
module SpotifyUri {
  import opened Wrappers
  import Text
  import Percent

  /** `URIObject`; a local file has the empty id, the other fields only for local files. */
  datatype UriObject = UriObject(
    kind: string,
    isLocal: bool,
    id: string,
    artist: Option<string>,
    album: Option<string>,
    title: Option<string>,
    duration: Option<int>)

  /** What the parsers throw: a `TypeError` with one of these messages, or a `URIError`. */
  datatype ParseError =
    | NotSpotifyUri       // "is not a valid Spotify URI"
    | NotLocalFileUri     // "is not a valid local file URI"
    | InvalidId           // "has an invalid ID"
    | InvalidDuration     // "has an invalid duration"
    | NotSpotifyLink      // "is not a valid Spotify link"
    | MalformedEscape     // URIError from decodeURIComponent

  function Remote(kind: string, id: string): UriObject
  {
    UriObject(kind, false, id, None, None, None, None)
  }

  function LocalFile(artist: string, album: string, title: string, duration: Option<int>): UriObject
  {
    UriObject("track", true, "", Some(artist), Some(album), Some(title), duration)
  }

  /** Percent-decodes artist, album and title, in that order; the first malformed one throws. */
  function DecodeNames(artist: string, album: string, title: string): (r: Result<(string, string, string), ParseError>)
    ensures r.Success? <==> Percent.Decode(artist).Some? && Percent.Decode(album).Some? && Percent.Decode(title).Some?
    ensures r.Success? ==> r.value == (Percent.Decode(artist).value, Percent.Decode(album).value, Percent.Decode(title).value)
    ensures r.Failure? ==> r.error == MalformedEscape
  {
    match (Percent.Decode(artist), Percent.Decode(album), Percent.Decode(title))
    case (Some(a), Some(b), Some(t)) => Success((a, b, t))
    case _ => Failure(MalformedEscape)
  }

  /** `parseSpotifyURI` */
  function ParseSpotifyUri(uri: string): (r: Result<UriObject, ParseError>)
    ensures r.Success? ==> Text.Split(uri, ':')[0] == "spotify"
    ensures r.Success? && !r.value.isLocal ==> Text.IsBase62(r.value.id) && BuildSpotifyUri(r.value) == uri
    ensures r.Success? && r.value.isLocal ==>
      r.value.kind == "track" && r.value.id == ""
      && r.value.artist.Some? && r.value.album.Some? && r.value.title.Some?
    // a local file: exactly four segments after `local`, the names decoded, the duration read by parseInt
    ensures r.Success? && r.value.isLocal ==>
      var p := Text.Split(uri, ':');
      |p| == 6 && p[1] == "local" && DecodeNames(p[2], p[3], p[4]).Success?
      && var (artist, album, title) := DecodeNames(p[2], p[3], p[4]).value;
      r.value == LocalFile(artist, album, title, Text.ParseInt(p[5]))
    ensures var p := Text.Split(uri, ':');
      p[0] == "spotify" && |p| == 6 && p[1] == "local" && DecodeNames(p[2], p[3], p[4]).Success? ==>
        r.Success? && r.value.isLocal
    ensures var p := Text.Split(uri, ':');
      p[0] == "spotify" && |p| > 1 && p[1] == "local" && |p| != 6 ==> r == Failure(NotLocalFileUri)
    ensures var p := Text.Split(uri, ':');
      p[0] == "spotify" && |p| == 6 && p[1] == "local" && DecodeNames(p[2], p[3], p[4]).Failure? ==> r == Failure(MalformedEscape)
    // anything not starting with `spotify` throws
    ensures Text.Split(uri, ':')[0] != "spotify" ==> r == Failure(NotSpotifyUri)
    // a resource: exactly three segments, and then a base-62 id
    ensures var p := Text.Split(uri, ':');
      p[0] == "spotify" && (|p| < 2 || p[1] != "local") && |p| != 3 ==> r == Failure(NotSpotifyUri)
    ensures var p := Text.Split(uri, ':');
      p[0] == "spotify" && |p| == 3 && p[1] != "local" && !Text.IsBase62(p[2]) ==> r == Failure(InvalidId)
    ensures var p := Text.Split(uri, ':');
      p[0] == "spotify" && |p| == 3 && p[1] != "local" && Text.IsBase62(p[2]) ==> r == Success(Remote(p[1], p[2]))
  {
    var parts := Text.Split(uri, ':');
    if parts[0] != "spotify" then Failure(NotSpotifyUri)
    else
      var kind := if |parts| > 1 then parts[1] else "";
      if kind == "local" then
        var idParts := parts[2..];
        if |idParts| != 4 then Failure(NotLocalFileUri)
        else match DecodeNames(idParts[0], idParts[1], idParts[2])
          case Failure(e) => Failure(e)
          case Success((artist, album, title)) =>
            Success(LocalFile(artist, album, title, Text.ParseInt(idParts[3])))
      else if |parts| != 3 then Failure(NotSpotifyUri)
      else if !Text.IsBase62(parts[2]) then Failure(InvalidId)
      else
        assert parts == ["spotify"] + [kind, parts[2]];
        Text.JoinCons("spotify", [kind, parts[2]], ":");
        Text.JoinCons(kind, [parts[2]], ":");
        assert uri == "spotify:" + kind + ":" + parts[2];
        Success(Remote(kind, parts[2]))
  }

  /**
   * A local-file URI read segment by segment: names without `%` come back
   * as written (a `+` stays a `+`), and the duration is what parseInt makes
   * of the last segment.
   */
  lemma LocalUriSegments(artist: string, album: string, title: string, duration: string)
    requires ':' !in artist && ':' !in album && ':' !in title && ':' !in duration
    requires '%' !in artist && '%' !in album && '%' !in title
    ensures ParseSpotifyUri(Text.Join(["spotify", "local", artist, album, title, duration], ":"))
         == Success(LocalFile(artist, album, title, Text.ParseInt(duration)))
  {
    var parts := ["spotify", "local", artist, album, title, duration];
    assert forall i :: 0 <= i < |parts| ==> ':' !in parts[i];
    Text.SplitJoin(parts, ':');
    var p := Text.Split(Text.Join(parts, ":"), ':');
    assert p == parts;
    assert DecodeNames(p[2], p[3], p[4]) == Success((artist, album, title));
  }

  /** A local-file URI with three segments after `local` is refused. */
  lemma ShortLocalUriRefused(a: string, b: string, c: string)
    requires ':' !in a && ':' !in b && ':' !in c
    ensures ParseSpotifyUri(Text.Join(["spotify", "local", a, b, c], ":")) == Failure(NotLocalFileUri)
  {
    var parts := ["spotify", "local", a, b, c];
    assert forall i :: 0 <= i < |parts| ==> ':' !in parts[i];
    Text.SplitJoin(parts, ':');
  }

  // ---------------------------------------------------------------------------
  // the two link patterns
  // ---------------------------------------------------------------------------

  const LinkPrefix: string := "https://open.spotify.com/"
  const LocalLinkPrefix: string := "https://open.spotify.com/local/"

  /**
   * `^https://open\.spotify\.com/local/([^/]*)/([^/]*)/([^/]+)/(\d+)$`: the four
   * captured groups, if the link matches.
   */
  function MatchLocalLink(link: string): (groups: Option<seq<string>>)
    ensures groups.Some? ==> |groups.value| == 4 && |groups.value[2]| > 0 && Text.IsDigits(groups.value[3])
    ensures groups.Some? ==> forall i :: 0 <= i < 4 ==> '/' !in groups.value[i]
    ensures groups.Some? ==> link == LocalLinkPrefix + Text.Join(groups.value, "/")
  {
    if LocalLinkPrefix <= link then
      var rest := link[|LocalLinkPrefix|..];
      var g := Text.Split(rest, '/');
      if |g| == 4 && |g[2]| > 0 && Text.IsDigits(g[3]) then
        assert link == LocalLinkPrefix + rest;
        Some(g)
      else None
    else None
  }

  /** The longest prefix of `s` that avoids every character of `stops`. */
  function RunWithout(s: string, stops: set<char>): (run: string)
    ensures run <= s
    ensures forall i :: 0 <= i < |run| ==> run[i] !in stops
    ensures |run| < |s| ==> s[|run|] in stops
    decreases |s|
  {
    if s != [] && s[0] !in stops then [s[0]] + RunWithout(s[1..], stops) else ""
  }

  /**
   * `^https://open\.spotify\.com/([^/]+)/([^/?]+)`: the type (up to the next `/`)
   * and the id (up to the next `/` or `?`), if the link matches; anything after
   * the id is ignored.
   */
  function MatchStandardLink(link: string): (groups: Option<(string, string)>)
    ensures groups.Some? ==> |groups.value.0| > 0 && '/' !in groups.value.0
    ensures groups.Some? ==> |groups.value.1| > 0 && '/' !in groups.value.1 && '?' !in groups.value.1
    ensures groups.Some? ==> LinkPrefix + groups.value.0 + "/" + groups.value.1 <= link
  {
    if LinkPrefix <= link then
      var rest := link[|LinkPrefix|..];
      var kind := RunWithout(rest, {'/'});
      if |kind| == 0 || |kind| == |rest| then None
      else
        var after := rest[|kind| + 1..];
        var id := RunWithout(after, {'/', '?'});
        if |id| == 0 then None
        else
          StandardLinkShape(link, rest, kind, after, id);
          Some((kind, id))
    else None
  }

  lemma StandardLinkShape(link: string, rest: string, kind: string, after: string, id: string)
    requires LinkPrefix <= link && rest == link[|LinkPrefix|..]
    requires kind <= rest && |kind| < |rest| && rest[|kind|] == '/' && after == rest[|kind| + 1..]
    requires id <= after
    ensures LinkPrefix + kind + "/" + id <= link
  {
    assert rest == kind + "/" + after;
    assert link == (LinkPrefix + kind + "/") + after;
    Text.PrefixAfter(LinkPrefix + kind + "/", id, after);
  }

  /** `parseSpotifyLink`: the local pattern is tried first, then the standard one. */
  function ParseSpotifyLink(link: string): (r: Result<UriObject, ParseError>)
    ensures r.Success? && r.value.isLocal ==> r.value.duration.Some? && r.value.duration.value >= 0
    ensures r.Success? && r.value.isLocal ==> r.value.kind == "track" && r.value.id == "" && LocalLinkPrefix <= link
    // a local file: the names are the decoded groups of the local pattern, the duration the value of its digits
    ensures r.Success? && r.value.isLocal ==>
      MatchLocalLink(link).Some?
      && var g := MatchLocalLink(link).value;
      DecodeNames(g[0], g[1], g[2]).Success?
      && var (artist, album, title) := DecodeNames(g[0], g[1], g[2]).value;
      r.value == LocalFile(artist, album, title, Some(Text.DigitsValue(g[3]) as int))
    ensures (MatchLocalLink(link).Some? && var g := MatchLocalLink(link).value; DecodeNames(g[0], g[1], g[2]).Success?) ==>
      r.Success? && r.value.isLocal
    ensures (MatchLocalLink(link).Some? && var g := MatchLocalLink(link).value; DecodeNames(g[0], g[1], g[2]).Failure?) ==>
      r == Failure(MalformedEscape)
    ensures r.Success? && !r.value.isLocal ==> Text.IsBase62(r.value.id) && BuildSpotifyLink(r.value) <= link
    // a resource: the local pattern missed, and the standard one gave its type and id
    ensures r.Success? && !r.value.isLocal ==>
      MatchLocalLink(link).None? && MatchStandardLink(link) == Some((r.value.kind, r.value.id))
    ensures MatchLocalLink(link).None? && MatchStandardLink(link).Some? ==>
      var (kind, id) := MatchStandardLink(link).value;
      r == if Text.IsBase62(id) then Success(Remote(kind, id)) else Failure(InvalidId)
    // a link matching neither pattern throws
    ensures MatchLocalLink(link).None? && MatchStandardLink(link).None? ==> r == Failure(NotSpotifyLink)
    ensures r.Failure? ==> r.error in {InvalidId, InvalidDuration, NotSpotifyLink, MalformedEscape}
  {
    match MatchLocalLink(link)
    case Some(g) =>
      (match DecodeNames(g[0], g[1], g[2])
       case Failure(e) => Failure(e)
       case Success((artist, album, title)) =>
         match Text.ParseInt(g[3])
         case None => Failure(InvalidDuration)
         case Some(d) =>
           Text.DigitsParse(g[3]);
           Success(LocalFile(artist, album, title, Some(d))))
    case None =>
      match MatchStandardLink(link)
      case None => Failure(NotSpotifyLink)
      case Some((kind, id)) =>
        if !Text.IsBase62(id) then Failure(InvalidId) else Success(Remote(kind, id))
  }

  // ---------------------------------------------------------------------------
  // builders
  // ---------------------------------------------------------------------------

  /** `uriObj.duration ? uriObj.duration.toString() : ""`: absent and 0 both give `""`. */
  function DurationText(duration: Option<int>): string
  {
    if duration.Some? && duration.value != 0 then Text.IntToString(duration.value) else ""
  }

  function OrEmpty(s: Option<string>): string
  {
    if s.Some? then s.value else ""
  }

  /** The URI parts of a local file: the three encoded names and the duration text. */
  function LocalParts(o: UriObject): seq<string>
  {
    [Percent.Encode(OrEmpty(o.artist)), Percent.Encode(OrEmpty(o.album)),
     Percent.Encode(OrEmpty(o.title)), DurationText(o.duration)]
  }

  /**
   * `buildSpotifyURI`: a local file gives `spotify:local:` and its four parts,
   * anything else `spotify:<type>:<id>`; split at `:` these are read back as
   * the segments the parser expects.
   */
  function BuildSpotifyUri(o: UriObject): (uri: string)
    ensures o.isLocal ==> Text.Split(uri, ':') == ["spotify", "local"] + LocalParts(o)
    ensures !o.isLocal && ':' !in o.kind && ':' !in o.id ==> Text.Split(uri, ':') == ["spotify", o.kind, o.id]
  {
    if o.isLocal then
      var ids := LocalParts(o);
      var parts := ["spotify", "local"] + ids;
      Text.JoinCons("spotify", ["local"] + ids, ":");
      Text.JoinCons("local", ids, ":");
      assert ["spotify"] + (["local"] + ids) == parts;
      var uri := "spotify:local:" + Text.Join(ids, ":");
      assert uri == Text.Join(parts, ":");
      LocalPartsSeparatorFree(o);
      Text.SplitJoin(parts, ':');
      uri
    else
      var parts := ["spotify", o.kind, o.id];
      Text.JoinCons("spotify", [o.kind, o.id], ":");
      Text.JoinCons(o.kind, [o.id], ":");
      assert [o.kind, o.id][1..] == [o.id];
      assert ["spotify"] + [o.kind, o.id] == parts;
      var uri := "spotify:" + o.kind + ":" + o.id;
      assert uri == Text.Join(parts, ":");
      if ':' !in o.kind && ':' !in o.id then
        Text.SplitJoin(parts, ':');
        uri
      else uri
  }

  /**
   * `buildSpotifyLink`: a local file gives the local prefix and its four
   * parts joined with `/`, anything else `https://open.spotify.com/<type>/<id>`.
   */
  function BuildSpotifyLink(o: UriObject): (link: string)
    ensures o.isLocal ==> LocalLinkPrefix <= link && Text.Split(link[|LocalLinkPrefix|..], '/') == LocalParts(o)
    ensures !o.isLocal && '/' !in o.kind && '/' !in o.id ==>
      LinkPrefix <= link && Text.Split(link[|LinkPrefix|..], '/') == [o.kind, o.id]
  {
    if o.isLocal then
      var link := LocalLinkPrefix + Text.Join(LocalParts(o), "/");
      assert link[|LocalLinkPrefix|..] == Text.Join(LocalParts(o), "/");
      LocalPartsSeparatorFree(o);
      Text.SplitJoin(LocalParts(o), '/');
      link
    else
      var link := LinkPrefix + o.kind + "/" + o.id;
      assert link[|LinkPrefix|..] == o.kind + "/" + o.id;
      Text.JoinCons(o.kind, [o.id], "/");
      assert [o.kind] + [o.id] == [o.kind, o.id];
      if '/' !in o.kind && '/' !in o.id then
        Text.SplitJoin([o.kind, o.id], '/');
        link
      else link
  }

  // ---------------------------------------------------------------------------
  // round trips
  // ---------------------------------------------------------------------------

  /** Neither the encoded names nor the duration text contain `:`, `/` or `?`. */
  lemma LocalPartsSeparatorFree(o: UriObject)
    ensures forall i :: 0 <= i < 4 ==> ':' !in LocalParts(o)[i] && '/' !in LocalParts(o)[i]
  {
    Percent.EncodeHasNoSeparators(OrEmpty(o.artist));
    Percent.EncodeHasNoSeparators(OrEmpty(o.album));
    Percent.EncodeHasNoSeparators(OrEmpty(o.title));
    if o.duration.Some? {
      Text.IntToStringAlphabet(o.duration.value);
    }
  }

  /** The duration text reads back as the duration, except that 0 reads back as absent. */
  lemma DurationTextParses(d: Option<int>)
    ensures Text.ParseInt(DurationText(d)) == if d == Some(0) then None else d
  {
    if d.Some? && d.value != 0 {
      Text.ParseIntOfIntToString(d.value);
    }
  }

  /**
   * A non-local object whose type is not `local` and has no `:` and whose id
   * is base-62 survives `buildSpotifyURI` followed by `parseSpotifyURI`.
   */
  lemma ParseBuildRemoteUri(kind: string, id: string)
    requires kind != "local" && ':' !in kind && Text.IsBase62(id)
    ensures ParseSpotifyUri(BuildSpotifyUri(Remote(kind, id))) == Success(Remote(kind, id))
  {
    var parts := ["spotify", kind, id];
    Text.JoinCons("spotify", [kind, id], ":");
    Text.JoinCons(kind, [id], ":");
    assert [kind, id][1..] == [id];
    assert ["spotify"] + [kind, id] == parts;
    assert BuildSpotifyUri(Remote(kind, id)) == Text.Join(parts, ":");
    Text.SplitJoin(parts, ':');
  }

  /**
   * A local file survives `buildSpotifyURI` followed by `parseSpotifyURI`,
   * except that a duration of 0 comes back as no duration.
   */
  lemma ParseBuildLocalUri(artist: string, album: string, title: string, duration: Option<int>)
    ensures ParseSpotifyUri(BuildSpotifyUri(LocalFile(artist, album, title, duration)))
         == Success(LocalFile(artist, album, title, if duration == Some(0) then None else duration))
  {
    var o := LocalFile(artist, album, title, duration);
    var ids := LocalParts(o);
    var parts := ["spotify", "local"] + ids;
    Text.JoinCons("spotify", ["local"] + ids, ":");
    Text.JoinCons("local", ids, ":");
    assert ["spotify"] + (["local"] + ids) == parts;
    assert BuildSpotifyUri(o) == Text.Join(parts, ":");
    LocalPartsSeparatorFree(o);
    Text.SplitJoin(parts, ':');
    assert parts[2..] == ids;
    Percent.DecodeEncode(artist);
    Percent.DecodeEncode(album);
    Percent.DecodeEncode(title);
    DurationTextParses(duration);
  }

  /** The longest stop-free prefix of `x + y` is `x` when `x` is stop-free and `y` starts with a stop. */
  lemma {:induction false} RunWithoutConcat(x: string, y: string, stops: set<char>)
    requires forall i :: 0 <= i < |x| ==> x[i] !in stops
    requires y == [] || y[0] in stops
    ensures RunWithout(x + y, stops) == x
    decreases |x|
  {
    if x == [] {
      assert x + y == y;
    } else {
      assert (x + y)[1..] == x[1..] + y;
      RunWithoutConcat(x[1..], y, stops);
      assert x == [x[0]] + x[1..];
    }
  }

  /** A standard link does not match the local pattern unless its type is `local`. */
  lemma NotLocalLink(kind: string, tail: string)
    requires '/' !in kind && kind != "local"
    ensures !(LocalLinkPrefix <= LinkPrefix + kind + "/" + tail)
  {
    var link := LinkPrefix + kind + "/" + tail;
    var n := |LinkPrefix|;
    assert LocalLinkPrefix == LinkPrefix + "local/";
    assert forall i :: 0 <= i < |kind| ==> link[n + i] == kind[i];
    assert link[n + |kind|] == '/';
    if |kind| < 5 {
      assert LocalLinkPrefix[n + |kind|] != link[n + |kind|];
    } else if |kind| > 5 {
      assert LocalLinkPrefix[n + 5] != link[n + 5];
    } else {
      var i :| 0 <= i < 5 && kind[i] != "local"[i];
      assert LocalLinkPrefix[n + i] != link[n + i];
    }
  }

  /** Under the standard pattern, a link yields its type and id; what follows the id from a `/` or `?` on is ignored. */
  lemma StandardMatch(kind: string, id: string, suffix: string)
    requires |kind| > 0 && '/' !in kind && |id| > 0 && '/' !in id && '?' !in id
    requires suffix == [] || suffix[0] == '/' || suffix[0] == '?'
    ensures MatchStandardLink(LinkPrefix + kind + "/" + id + suffix) == Some((kind, id))
  {
    var link := LinkPrefix + kind + "/" + id + suffix;
    var rest := kind + ("/" + (id + suffix));
    assert link == LinkPrefix + rest;
    assert link[|LinkPrefix|..] == rest;
    RunWithoutConcat(kind, "/" + (id + suffix), {'/'});
    assert rest[|kind| + 1..] == id + suffix;
    RunWithoutConcat(id, suffix, {'/', '?'});
  }

  /**
   * Every link of the local shape matches the local pattern: four `/`-free
   * groups after the local prefix, a non-empty title and an all-digit duration.
   */
  lemma LocalMatch(g: seq<string>)
    requires |g| == 4 && forall i :: 0 <= i < 4 ==> '/' !in g[i]
    requires |g[2]| > 0 && Text.IsDigits(g[3])
    ensures MatchLocalLink(LocalLinkPrefix + Text.Join(g, "/")) == Some(g)
  {
    var link := LocalLinkPrefix + Text.Join(g, "/");
    assert link[|LocalLinkPrefix|..] == Text.Join(g, "/");
    Text.SplitJoin(g, '/');
  }

  /** A link whose type is not `local` misses the local pattern. */
  lemma LocalMiss(kind: string, tail: string)
    requires '/' !in kind && kind != "local"
    ensures MatchLocalLink(LinkPrefix + kind + "/" + tail) == None
  {
    NotLocalLink(kind, tail);
  }

  /**
   * The link parser ignores a query string or further segments after the id,
   * for any type other than `local`.
   */
  lemma ParseLinkIgnoresSuffix(kind: string, id: string, suffix: string)
    requires |kind| > 0 && '/' !in kind && kind != "local" && Text.IsBase62(id)
    requires suffix == [] || suffix[0] == '/' || suffix[0] == '?'
    ensures ParseSpotifyLink(LinkPrefix + kind + "/" + id + suffix) == Success(Remote(kind, id))
  {
    var link := LinkPrefix + kind + "/" + id + suffix;
    assert link == LinkPrefix + kind + "/" + (id + suffix);
    LocalMiss(kind, id + suffix);
    StandardMatch(kind, id, suffix);
  }

  /** The local prefix is the standard prefix with the type `local`. */
  lemma LocalPrefixSplits(id: string, suffix: string)
    ensures LocalLinkPrefix + (id + suffix) == LinkPrefix + "local" + "/" + id + suffix
  {
    var p := LinkPrefix + "local" + "/";
    assert LocalLinkPrefix == p;
    assert p + (id + suffix) == p + id + suffix;
  }

  /** A standard link of type `local` has one segment after the prefix, too few for a local file. */
  lemma LocalKindMiss(id: string)
    requires Text.IsBase62(id)
    ensures MatchLocalLink(LinkPrefix + "local" + "/" + id + []) == None
  {
    var link := LinkPrefix + "local" + "/" + id + [];
    assert link == LocalLinkPrefix + id;
    assert link[|LocalLinkPrefix|..] == id;
    Text.SplitWithoutSeparator(id, '/');
  }

  /**
   * A non-local object with a non-empty type free of `/` and a base-62 id
   * survives `buildSpotifyLink` followed by `parseSpotifyLink`.
   */
  lemma ParseBuildRemoteLink(kind: string, id: string)
    requires |kind| > 0 && '/' !in kind && Text.IsBase62(id)
    ensures ParseSpotifyLink(BuildSpotifyLink(Remote(kind, id))) == Success(Remote(kind, id))
  {
    var link := BuildSpotifyLink(Remote(kind, id));
    assert link == LinkPrefix + kind + "/" + id + [];
    StandardMatch(kind, id, []);
    if kind == "local" {
      LocalKindMiss(id);
    } else {
      assert link == LinkPrefix + kind + "/" + (id + []);
      LocalMiss(kind, id + []);
    }
  }

  /**
   * A local file with a non-empty title and a positive duration survives
   * `buildSpotifyLink` followed by `parseSpotifyLink`.
   */
  lemma ParseBuildLocalLink(artist: string, album: string, title: string, duration: int)
    requires title != "" && duration > 0
    ensures ParseSpotifyLink(BuildSpotifyLink(LocalFile(artist, album, title, Some(duration))))
         == Success(LocalFile(artist, album, title, Some(duration)))
  {
    var o := LocalFile(artist, album, title, Some(duration));
    var ids := LocalParts(o);
    var link := BuildSpotifyLink(o);
    assert link == LocalLinkPrefix + Text.Join(ids, "/");
    assert ids[3] == Text.NatToString(duration);
    LocalPartsSeparatorFree(o);
    Percent.EncodeEmpty(title);
    LocalMatch(ids);
    Text.DigitsValueOfNatToString(duration);
    Percent.DecodeEncode(artist);
    Percent.DecodeEncode(album);
    Percent.DecodeEncode(title);
    assert DecodeNames(ids[0], ids[1], ids[2]) == Success((artist, album, title));
  }

  /**
   * A link built for a local file without a duration ends in `/` and misses
   * the local pattern; when the encoded artist is base-62 the standard pattern
   * reads it as an object of type `local` whose id is the artist.
   */
  lemma LocalLinkWithoutDuration(artist: string, album: string, title: string)
    requires Text.IsBase62(Percent.Encode(artist))
    ensures ParseSpotifyLink(BuildSpotifyLink(LocalFile(artist, album, title, None)))
         == Success(Remote("local", Percent.Encode(artist)))
  {
    var o := LocalFile(artist, album, title, None);
    var link := BuildSpotifyLink(o);
    var ea := Percent.Encode(artist);
    var suffix := NoDurationLinkShape(o);
    NoDurationLinkMisses(o);
    StandardMatch("local", ea, suffix);
  }

  /** Without a duration, the built link has an empty last segment, so the local pattern misses it. */
  lemma NoDurationLinkMisses(o: UriObject)
    requires o.isLocal && o.duration.None?
    ensures MatchLocalLink(BuildSpotifyLink(o)) == None
  {
    var link := BuildSpotifyLink(o);
    var ids := LocalParts(o);
    assert ids[3] == "";
    LocalPartsSeparatorFree(o);
    Text.SplitJoin(ids, '/');
    assert link[|LocalLinkPrefix|..] == Text.Join(ids, "/");
  }

  /** A built local link reads as a standard link of type `local` whose id is the encoded artist. */
  lemma NoDurationLinkShape(o: UriObject) returns (suffix: string)
    requires o.isLocal
    ensures BuildSpotifyLink(o) == LinkPrefix + "local" + "/" + Percent.Encode(OrEmpty(o.artist)) + suffix
    ensures suffix == [] || suffix[0] == '/'
  {
    var ids := LocalParts(o);
    assert BuildSpotifyLink(o) == LocalLinkPrefix + Text.Join(ids, "/");
    suffix := LocalLinkOfParts(ids);
  }

  /** A local link over several segments is a standard link of type `local` whose id is the first segment. */
  lemma LocalLinkOfParts(ids: seq<string>) returns (suffix: string)
    requires |ids| >= 2
    ensures LocalLinkPrefix + Text.Join(ids, "/") == LinkPrefix + "local" + "/" + ids[0] + suffix
    ensures suffix == [] || suffix[0] == '/'
  {
    suffix := "/" + Text.Join(ids[1..], "/");
    assert Text.Join(ids, "/") == ids[0] + suffix;
    LocalPrefixSplits(ids[0], suffix);
  }

  /** For instance, the local file `Artist`/`Album`/`Title` without a duration. */
  lemma LocalLinkWithoutDurationExample()
    ensures ParseSpotifyLink(BuildSpotifyLink(LocalFile("Artist", "Album", "Title", None))) == Success(Remote("local", "Artist"))
  {
    Percent.EncodeUnescapedText("Artist");
    LocalLinkWithoutDuration("Artist", "Album", "Title");
  }
}
