/** The command-line client's server addresses: which endpoint it talks to, the HTTP base
    URL derived from it, the signalling WebSocket URL and the room page URL. URL parsing
    is represented by its outcome (`None` when `Url::parse` fails); the scheme setter drops
    a port that is the new scheme's default, as the URL standard's setter does. */
module CliEndpoint {
  import opened Common

  /** The fields of a parsed URL that these functions read or write. */
  datatype Url = Url(scheme: string, host: string, port: Option<nat>, path: string,
                     query: Option<string>, fragment: Option<string>)

  datatype Error = ParseFailed | UnsupportedScheme(scheme: string)

  datatype Outcome<T> = Ok(value: T) | Err(error: Error)

  const DefaultEndpoint: string := "https://share-files.karakuri-maker.com"

  /** `--endpoint`, else `SHARE_FILES_ENDPOINT`, else the public server. */
  function ChooseEndpoint(arg: Option<string>, env: Option<string>): (r: string)
    ensures arg.Some? ==> r == arg.value
    ensures arg.None? && env.Some? ==> r == env.value
    ensures arg.None? && env.None? ==> r == DefaultEndpoint
  {
    match arg
    case Some(a) => a
    case None => match env { case Some(e) => e case None => DefaultEndpoint }
  }

  /** The default port of each special scheme used here. */
  function DefaultPort(scheme: string): Option<nat>
  {
    if scheme == "http" || scheme == "ws" then Some(80)
    else if scheme == "https" || scheme == "wss" then Some(443)
    else None
  }

  /** `url.set_scheme(s)` between special schemes: the port is dropped when it is the new
      scheme's default. */
  function SetScheme(u: Url, s: string): (r: Url)
    ensures r.scheme == s && r.host == u.host && r.path == u.path
    ensures r.query == u.query && r.fragment == u.fragment
    ensures r.port.Some? ==> r.port == u.port && r.port != DefaultPort(s)
    ensures u.port.Some? && u.port != DefaultPort(s) ==> r.port == u.port
  {
    u.(scheme := s, port := if u.port == DefaultPort(s) then None else u.port)
  }

  /** `base_endpoint_url`: an HTTP(S) origin, WebSocket schemes mapped to their HTTP
      counterparts, path, query and fragment cleared; any other scheme is an error. */
  function BaseEndpointUrl(parsed: Option<Url>): (r: Outcome<Url>)
    ensures parsed.None? ==> r == Err(ParseFailed)
    ensures parsed.Some? ==>
      (r.Err? <==> parsed.value.scheme !in {"https", "http", "wss", "ws"})
    ensures r.Ok? ==>
      (parsed.Some? && r.value.host == parsed.value.host
       && r.value.path == "/" && r.value.query.None? && r.value.fragment.None?)
    ensures r.Ok? ==>
      ((r.value.scheme == "https" <==> parsed.value.scheme in {"https", "wss"})
       && (r.value.scheme == "http" <==> parsed.value.scheme in {"http", "ws"}))
  {
    match parsed
    case None => Err(ParseFailed)
    case Some(u) =>
      var scheme :=
        if u.scheme == "https" || u.scheme == "http" then u.scheme
        else if u.scheme == "wss" then "https"
        else if u.scheme == "ws" then "http"
        else "";
      if scheme == "" then Err(UnsupportedScheme(u.scheme))
      else Ok(SetScheme(u, scheme).(path := "/", query := None, fragment := None))
  }

  /** `build_ws_url`: the base URL with https to wss and http to ws, path
      `/ws/{room_id}` and query `cid={client_id}`. */
  function BuildWsUrl(parsed: Option<Url>, roomId: string, clientId: string): (r: Outcome<Url>)
    ensures r.Ok? <==> BaseEndpointUrl(parsed).Ok?
    ensures r.Ok? ==>
      (r.value.path == "/ws/" + roomId && r.value.query == Some("cid=" + clientId)
       && r.value.fragment.None? && r.value.host == parsed.value.host)
    ensures r.Ok? ==>
      ((r.value.scheme == "wss" <==> parsed.value.scheme in {"https", "wss"})
       && (r.value.scheme == "ws" <==> parsed.value.scheme in {"http", "ws"}))
  {
    match BaseEndpointUrl(parsed)
    case Err(e) => Err(e)
    case Ok(u) =>
      var scheme := if u.scheme == "https" then "wss" else "ws";
      Ok(SetScheme(u, scheme).(path := "/ws/" + roomId, query := Some("cid=" + clientId)))
  }

  /** `url.to_string()`. */
  function Serialize(u: Url): string
  {
    u.scheme + "://" + u.host
    + (match u.port { case Some(p) => ":" + NatToString(p) case None => "" })
    + u.path
    + (match u.query { case Some(q) => "?" + q case None => "" })
    + (match u.fragment { case Some(f) => "#" + f case None => "" })
  }

  function NatToString(n: nat): string
    decreases n
  {
    if n < 10 then [(48 + n) as char] else NatToString(n / 10) + [(48 + n % 10) as char]
  }

  /** `build_room_url`: the base URL with path `/r/{room_id}` and no query. */
  function BuildRoomUrl(parsed: Option<Url>, roomId: string): (r: Outcome<string>)
    ensures r.Ok? <==> BaseEndpointUrl(parsed).Ok?
    ensures r.Ok? ==> r.value == Serialize(BaseEndpointUrl(parsed).value.(path := "/r/" + roomId))
  {
    match BaseEndpointUrl(parsed)
    case Err(e) => Err(e)
    case Ok(u) => Ok(Serialize(u.(path := "/r/" + roomId, query := None)))
  }

  /** The URL `create_room` posts to: the base URL with path `/api/rooms`. */
  function CreateRoomUrl(parsed: Option<Url>): (r: Outcome<Url>)
    ensures r.Ok? <==> BaseEndpointUrl(parsed).Ok?
    ensures r.Ok? ==> r.value == BaseEndpointUrl(parsed).value.(path := "/api/rooms")
  {
    match BaseEndpointUrl(parsed)
    case Err(e) => Err(e)
    case Ok(u) => Ok(u.(path := "/api/rooms"))
  }

  /** Naming a server by its secure WebSocket or its HTTPS address, with the same host,
      port and anything else, gives the same signalling URL (and likewise ws and http). */
  lemma SchemeSpellingsAgree(u: Url, roomId: string, clientId: string)
    ensures BuildWsUrl(Some(u.(scheme := "wss")), roomId, clientId)
         == BuildWsUrl(Some(u.(scheme := "https")), roomId, clientId)
    ensures BuildWsUrl(Some(u.(scheme := "ws")), roomId, clientId)
         == BuildWsUrl(Some(u.(scheme := "http")), roomId, clientId)
  {
  }

  /** The base URL is a fixed point: deriving it again from itself changes nothing. */
  lemma BaseIdempotent(parsed: Option<Url>)
    requires BaseEndpointUrl(parsed).Ok?
    ensures BaseEndpointUrl(Some(BaseEndpointUrl(parsed).value)) == BaseEndpointUrl(parsed)
  {
  }

  /** Reading the WebSocket URL back through `base_endpoint_url` gives the HTTP origin that
      the room page and `create_room` use: all three name the same server. */
  lemma WsUrlSameServer(parsed: Option<Url>, roomId: string, clientId: string)
    requires BuildWsUrl(parsed, roomId, clientId).Ok?
    ensures BaseEndpointUrl(Some(BuildWsUrl(parsed, roomId, clientId).value)) == BaseEndpointUrl(parsed)
  {
  }
}
