/**
 * The parsers of the older JavaScript version.  They differ from the current
 * ones in three ways: a local-file URI may carry more than four segments
 * after `local` (the extra ones are ignored), a duration that does not parse
 * is an error, and the result has no `id` for a local file.
 */
module LegacyUri {
  import opened Wrappers
  import Text
  import Percent
  import SpotifyUri

  type ParseError = SpotifyUri.ParseError

  /** `UriObject` of the older version: a local track has no id, a resource has no names. */
  datatype LegacyUriObject =
    | LocalTrack(artist: string, album: string, title: string, duration: int)
    | Resource(kind: string, id: string)
  {
    /** The `type` field: always `track` for a local file. */
    function Kind(): string
    {
      if LocalTrack? then "track" else kind
    }
  }

  /** The names decoded and the duration read, or the error the older version throws. */
  function LocalResult(artist: string, album: string, title: string, duration: string): (r: Result<LegacyUriObject, ParseError>)
    ensures r.Success? ==> r.value.LocalTrack? && Text.ParseInt(duration) == Some(r.value.duration)
    ensures r.Failure? ==> r.error == SpotifyUri.MalformedEscape || (r.error == SpotifyUri.InvalidDuration && Text.ParseInt(duration) == None)
  {
    match SpotifyUri.DecodeNames(artist, album, title)
    case Failure(e) => Failure(e)
    case Success((a, b, t)) =>
      match Text.ParseInt(duration)
      case None => Failure(SpotifyUri.InvalidDuration)
      case Some(d) => Success(LocalTrack(a, b, t, d))
  }

  /** `parseSpotifyUri` */
  function ParseSpotifyUri(uri: string): (r: Result<LegacyUriObject, ParseError>)
    ensures r.Success? ==> Text.Split(uri, ':')[0] == "spotify"
    ensures r.Success? && r.value.LocalTrack? ==> |Text.Split(uri, ':')| >= 6 && Text.Split(uri, ':')[1] == "local"
    // a local file: the first three segments after `local` decoded, the fourth read by parseInt
    ensures r.Success? && r.value.LocalTrack? ==>
      var p := Text.Split(uri, ':');
      SpotifyUri.DecodeNames(p[2], p[3], p[4]) == Success((r.value.artist, r.value.album, r.value.title))
      && Text.ParseInt(p[5]) == Some(r.value.duration)
    ensures var p := Text.Split(uri, ':');
      (p[0] == "spotify" && |p| >= 6 && p[1] == "local" && SpotifyUri.DecodeNames(p[2], p[3], p[4]).Success?
       && Text.ParseInt(p[5]).Some?) ==> r.Success? && r.value.LocalTrack?
    ensures var p := Text.Split(uri, ':');
      p[0] == "spotify" && |p| > 1 && p[1] == "local" && |p| < 6 ==> r == Failure(SpotifyUri.NotLocalFileUri)
    ensures r.Success? && r.value.Resource? ==>
      Text.IsBase62(r.value.id) && uri == "spotify:" + r.value.kind + ":" + r.value.id
    ensures var p := Text.Split(uri, ':');
      p[0] == "spotify" && |p| >= 6 && p[1] == "local" ==>
        r == LocalResult(p[2], p[3], p[4], p[5])
    // anything not starting with `spotify` throws
    ensures Text.Split(uri, ':')[0] != "spotify" ==> r == Failure(SpotifyUri.NotSpotifyUri)
    // a resource: exactly three segments, and then a base-62 id
    ensures var p := Text.Split(uri, ':');
      p[0] == "spotify" && (|p| < 2 || p[1] != "local") && |p| != 3 ==> r == Failure(SpotifyUri.NotSpotifyUri)
    ensures var p := Text.Split(uri, ':');
      p[0] == "spotify" && |p| == 3 && p[1] != "local" && !Text.IsBase62(p[2]) ==> r == Failure(SpotifyUri.InvalidId)
    ensures var p := Text.Split(uri, ':');
      p[0] == "spotify" && |p| == 3 && p[1] != "local" && Text.IsBase62(p[2]) ==> r == Success(Resource(p[1], p[2]))
  {
    var parts := Text.Split(uri, ':');
    if parts[0] != "spotify" then Failure(SpotifyUri.NotSpotifyUri)
    else
      var kind := if |parts| > 1 then parts[1] else "";
      if kind == "local" then
        var idParts := parts[2..];
        if |idParts| < 4 then Failure(SpotifyUri.NotLocalFileUri)
        else LocalResult(idParts[0], idParts[1], idParts[2], idParts[3])
      else if |parts| != 3 then Failure(SpotifyUri.NotSpotifyUri)
      else if !Text.IsBase62(parts[2]) then Failure(SpotifyUri.InvalidId)
      else
        assert parts == ["spotify"] + [kind, parts[2]];
        Text.JoinCons("spotify", [kind, parts[2]], ":");
        Text.JoinCons(kind, [parts[2]], ":");
        Success(Resource(kind, parts[2]))
  }

  /** `parseSpotifyLink`, over the same two patterns as the current version. */
  function ParseSpotifyLink(link: string): (r: Result<LegacyUriObject, ParseError>)
    ensures r.Success? && r.value.LocalTrack? ==> r.value.duration >= 0 && SpotifyUri.LocalLinkPrefix <= link
    // a local file: the decoded groups of the local pattern and the value of its digits
    ensures r.Success? && r.value.LocalTrack? ==>
      SpotifyUri.MatchLocalLink(link).Some?
      && var g := SpotifyUri.MatchLocalLink(link).value;
      SpotifyUri.DecodeNames(g[0], g[1], g[2]) == Success((r.value.artist, r.value.album, r.value.title))
      && r.value.duration == Text.DigitsValue(g[3]) as int
    ensures (SpotifyUri.MatchLocalLink(link).Some? && var g := SpotifyUri.MatchLocalLink(link).value;
      SpotifyUri.DecodeNames(g[0], g[1], g[2]).Success?) ==> r.Success? && r.value.LocalTrack?
    ensures r.Success? && r.value.Resource? ==>
      Text.IsBase62(r.value.id) && SpotifyUri.LinkPrefix + r.value.kind + "/" + r.value.id <= link
    ensures SpotifyUri.MatchLocalLink(link).Some? ==>
      var g := SpotifyUri.MatchLocalLink(link).value;
      r == LocalResult(g[0], g[1], g[2], g[3])
    // a resource: the local pattern missed, and the standard one gave its type and id
    ensures r.Success? && r.value.Resource? ==>
      SpotifyUri.MatchLocalLink(link).None? && SpotifyUri.MatchStandardLink(link) == Some((r.value.kind, r.value.id))
    ensures SpotifyUri.MatchLocalLink(link).None? && SpotifyUri.MatchStandardLink(link).Some? ==>
      var (kind, id) := SpotifyUri.MatchStandardLink(link).value;
      r == if Text.IsBase62(id) then Success(Resource(kind, id)) else Failure(SpotifyUri.InvalidId)
    // a link matching neither pattern throws
    ensures SpotifyUri.MatchLocalLink(link).None? && SpotifyUri.MatchStandardLink(link).None? ==>
      r == Failure(SpotifyUri.NotSpotifyLink)
    ensures r.Failure? ==> r.error in {SpotifyUri.InvalidId, SpotifyUri.NotSpotifyLink, SpotifyUri.MalformedEscape}
  {
    match SpotifyUri.MatchLocalLink(link)
    case Some(g) =>
      Text.DigitsParse(g[3]);
      LocalResult(g[0], g[1], g[2], g[3])
    case None =>
      match SpotifyUri.MatchStandardLink(link)
      case None => Failure(SpotifyUri.NotSpotifyLink)
      case Some((kind, id)) =>
        if !Text.IsBase62(id) then Failure(SpotifyUri.InvalidId) else Success(Resource(kind, id))
  }

  // ---------------------------------------------------------------------------
  // relation to the current version
  // ---------------------------------------------------------------------------

  /** What the older version makes of an object the current version returns. */
  function FromCurrent(o: SpotifyUri.UriObject): Result<LegacyUriObject, ParseError>
  {
    if !o.isLocal then Success(Resource(o.kind, o.id))
    else if o.duration.None? then Failure(SpotifyUri.InvalidDuration)
    else Success(LocalTrack(SpotifyUri.OrEmpty(o.artist), SpotifyUri.OrEmpty(o.album), SpotifyUri.OrEmpty(o.title), o.duration.value))
  }

  function FromCurrentResult(r: Result<SpotifyUri.UriObject, ParseError>): Result<LegacyUriObject, ParseError>
  {
    match r
    case Failure(e) => Failure(e)
    case Success(o) => FromCurrent(o)
  }

  /**
   * On a URI of at most six segments the two versions agree, except that a
   * local file whose duration does not parse is an error in the older one.
   */
  lemma UriVersionsAgree(uri: string)
    requires |Text.Split(uri, ':')| <= 6
    ensures ParseSpotifyUri(uri) == FromCurrentResult(SpotifyUri.ParseSpotifyUri(uri))
  {
  }

  /** The two versions read every link the same way. */
  lemma LinkVersionsAgree(link: string)
    ensures ParseSpotifyLink(link) == FromCurrentResult(SpotifyUri.ParseSpotifyLink(link))
  {
  }

  /**
   * A local-file URI with a duration that does not parse: the current version
   * returns the file without a duration, the older one throws.
   */
  lemma DurationMandatory(artist: string, album: string, title: string, duration: string)
    requires ':' !in artist && ':' !in album && ':' !in title && ':' !in duration
    requires Percent.Decode(artist).Some? && Percent.Decode(album).Some? && Percent.Decode(title).Some?
    requires Text.ParseInt(duration) == None
    ensures SpotifyUri.ParseSpotifyUri(Text.Join(["spotify", "local", artist, album, title, duration], ":")).Success?
    ensures ParseSpotifyUri(Text.Join(["spotify", "local", artist, album, title, duration], ":")) == Failure(SpotifyUri.InvalidDuration)
  {
    var parts := ["spotify", "local", artist, album, title, duration];
    var uri := Text.Join(parts, ":");
    LocalSegmentsSeparatorFree(artist, album, title, duration);
    Text.SplitJoin(parts, ':');
    CurrentAcceptsBadDuration(uri, parts);
    LegacyRefusesBadDuration(uri, parts);
  }

  lemma LocalSegmentsSeparatorFree(artist: string, album: string, title: string, duration: string)
    requires ':' !in artist && ':' !in album && ':' !in title && ':' !in duration
    ensures var parts := ["spotify", "local", artist, album, title, duration];
      forall i :: 0 <= i < |parts| ==> ':' !in parts[i]
  {
    var parts := ["spotify", "local", artist, album, title, duration];
    assert ':' !in parts[0] && ':' !in parts[1];
  }

  lemma CurrentAcceptsBadDuration(uri: string, parts: seq<string>)
    requires Text.Split(uri, ':') == parts && |parts| == 6 && parts[0] == "spotify" && parts[1] == "local"
    requires Percent.Decode(parts[2]).Some? && Percent.Decode(parts[3]).Some? && Percent.Decode(parts[4]).Some?
    ensures SpotifyUri.ParseSpotifyUri(uri).Success?
  {
  }

  lemma LegacyRefusesBadDuration(uri: string, parts: seq<string>)
    requires Text.Split(uri, ':') == parts && |parts| == 6 && parts[0] == "spotify" && parts[1] == "local"
    requires Percent.Decode(parts[2]).Some? && Percent.Decode(parts[3]).Some? && Percent.Decode(parts[4]).Some?
    requires Text.ParseInt(parts[5]) == None
    ensures ParseSpotifyUri(uri) == Failure(SpotifyUri.InvalidDuration)
  {
    var idParts := parts[2..];
    assert |idParts| == 4 && idParts[0] == parts[2] && idParts[1] == parts[3] && idParts[2] == parts[4] && idParts[3] == parts[5];
    LocalResultBadDuration(parts[2], parts[3], parts[4], parts[5]);
  }

  lemma LocalResultBadDuration(artist: string, album: string, title: string, duration: string)
    requires Percent.Decode(artist).Some? && Percent.Decode(album).Some? && Percent.Decode(title).Some?
    requires Text.ParseInt(duration) == None
    ensures LocalResult(artist, album, title, duration) == Failure(SpotifyUri.InvalidDuration)
  {
  }

  /** Segments after the fourth one past `local` do not change the result. */
  lemma ExtraSegmentsIgnored(uri: string)
    requires |Text.Split(uri, ':')| >= 6 && Text.Split(uri, ':')[0] == "spotify" && Text.Split(uri, ':')[1] == "local"
    ensures ParseSpotifyUri(uri) == ParseSpotifyUri(Text.Join(Text.Split(uri, ':')[..6], ":"))
  {
    var parts := Text.Split(uri, ':');
    Text.SplitJoin(parts[..6], ':');
    assert parts[..6][2..] == parts[2..6];
  }

  /** The current version refuses every local-file URI with segments past the fourth. */
  lemma ExtraSegmentsRefusedByCurrent(uri: string)
    requires |Text.Split(uri, ':')| > 6 && Text.Split(uri, ':')[0] == "spotify" && Text.Split(uri, ':')[1] == "local"
    ensures SpotifyUri.ParseSpotifyUri(uri) == Failure(SpotifyUri.NotLocalFileUri)
  {
  }
}
