/**
 The request-resolution logic of the web handler: which address a request is
 about (`getClientIP`), how a query is reduced to a bare host (`extractHost`),
 and the chain of lookups that decides what the page shows (`homeHandler`).
 The URL parser, the DNS resolver and the two GeoLite2 databases are inputs,
 passed in as functions; the HTML page is replaced by a structured `Response`.
 */
module Handler {
  import opened Wrappers
  import opened Text
  import opened HostPort
  import opened Geo

  /** The request headers and peer address the handler reads; `Header.Get`
      yields "" for an absent header, so absence is the empty string. */
  datatype Request = Request(forwardedFor: string, realIP: string, remoteAddr: string)

  /** The parts of a `url.URL` that `extractHost` reads. */
  datatype Url = Url(scheme: string, host: string)

  /** The collaborators of one query: `url.Parse` (`None` on a parse error),
      `net.LookupIP` (`None` on a resolver error), and the two database readers
      (`None` when the lookup returns an error). */
  datatype Env = Env(
    parse: string -> Option<Url>,
    lookupIP: string -> Option<seq<IP>>,
    cityDB: IP -> Option<CityRecord>,
    asnDB: IP -> Option<AsnRecord>)

  /** One call the handler makes into a collaborator that does I/O. */
  datatype Lookup = ResolveName(host: string) | CityQuery(ip: IP) | AsnQuery(ip: IP)

  /** What the result area of the page shows. */
  datatype Outcome =
    | NoQuery
    | DnsFailed(query: string)
    | CityFailed
    | AsnFailed
    | Found(ip: IP, country: string, province: string, city: string,
            latitude: Float64, longitude: Float64, asn: nat, organization: string)

  /** The handler's answer: a 400 error, or the page with the normalised query
      echoed in the form, the outcome, and the lookups made, in order. */
  datatype Response =
    | BadRequest
    | Page(query: string, outcome: Outcome, lookups: seq<Lookup>)

  /** The error `extractHost` could report; no path of it does. */
  datatype HostError = InvalidUrl

  // ---------------------------------------------------------------------------
  // getClientIP

  /** The client address: the first hop of a non-empty `X-Forwarded-For`, else a
      non-empty `X-Real-IP` verbatim, else the host of the peer address, or the
      peer address itself when it does not split into host and port. */
  function ClientIP(req: Request): (ip: string)
    ensures req.forwardedFor != "" ==> ',' !in ip && IsTrimOf(BeforeFirst(req.forwardedFor, ','), ip)
    ensures req.forwardedFor == "" && req.realIP != "" ==> ip == req.realIP
    ensures req.forwardedFor == "" && req.realIP == "" ==>
              (SplitHostPort(req.remoteAddr).None? ==> ip == req.remoteAddr)
              && (SplitHostPort(req.remoteAddr).Some? ==> ip == SplitHostPort(req.remoteAddr).value.0)
  {
    if req.forwardedFor != "" then
      var first := BeforeFirst(req.forwardedFor, ',');
      var ip := TrimSpace(first);
      TrimSpaceTrims(first);
      TrimOfKeepsOut(first, ip, ',');
      ip
    else if req.realIP != "" then
      req.realIP
    else
      match SplitHostPort(req.remoteAddr)
      case None => req.remoteAddr
      case Some(hp) => hp.0
  }

  // ---------------------------------------------------------------------------
  // extractHost

  /** Reduces a query to a bare host, given what `url.Parse` made of it: input
      without a scheme (or that does not parse) comes back as it is; otherwise
      the URL's host with any port removed, or "" when a host containing a
      colon does not split. It never reports an error. */
  function ExtractHost(input: string, parsed: Option<Url>): (r: Result<string, HostError>)
    ensures r.Success?
    ensures parsed.None? || parsed.value.scheme == "" ==> r.value == input
    ensures parsed.Some? && parsed.value.scheme != "" && ':' !in parsed.value.host ==>
              r.value == parsed.value.host
    ensures parsed.Some? && parsed.value.scheme != "" && ':' in parsed.value.host ==>
              (SplitHostPort(parsed.value.host).None? ==> r.value == "")
              && (SplitHostPort(parsed.value.host).Some? ==> r.value == SplitHostPort(parsed.value.host).value.0)
    // A consequence of the clause above and of `SplitHostPort`'s contract, kept
    // because it says directly that only the port (and brackets) are removed.
    ensures parsed.Some? && parsed.value.scheme != "" && ':' in parsed.value.host && r.value != "" ==>
              exists port :: ':' !in port && (parsed.value.host == r.value + ":" + port
                                              || parsed.value.host == "[" + r.value + "]:" + port)
  {
    match parsed
    case None => Success(input)
    case Some(u) =>
      if u.scheme == "" then Success(input)
      else if ':' in u.host then
        match SplitHostPort(u.host)
        case None => Success("")
        case Some(hp) =>
          assert u.host == hp.0 + ":" + hp.1 || u.host == "[" + hp.0 + "]:" + hp.1;
          Success(hp.0)
      else Success(u.host)
  }

  // ---------------------------------------------------------------------------
  // homeHandler

  /** The address whose details the page is about, before normalisation: the
      `ip` query parameter, or the client address when it is empty. */
  function RawQuery(ipParam: string, req: Request): (r: string)
  {
    if ipParam == "" then ClientIP(req) else ipParam
  }

  /** The lookup is one of the two database queries about `ip`. */
  predicate Concerns(l: Lookup, ip: IP)
  {
    l == CityQuery(ip) || l == AsnQuery(ip)
  }

  /** The lookups for one resolved address: City first, and ASN only once the
      City lookup succeeded. An ASN failure replaces the geographic result. */
  function Enrich(ip: IP, env: Env): (r: (Outcome, seq<Lookup>))
    ensures r.1 == [CityQuery(ip)] || r.1 == [CityQuery(ip), AsnQuery(ip)]
    ensures r.0.CityFailed? <==> env.cityDB(ip).None?
    ensures r.0.CityFailed? <==> r.1 == [CityQuery(ip)]
    ensures r.0.AsnFailed? <==> env.cityDB(ip).Some? && env.asnDB(ip).None?
    ensures r.0.Found? <==> env.cityDB(ip).Some? && env.asnDB(ip).Some?
    ensures r.0.Found? ==> r.0.ip == ip
  {
    match env.cityDB(ip)
    case None => (CityFailed, [CityQuery(ip)])
    case Some(rec) =>
      var country := LocalName(rec.country);
      var city := LocalName(rec.city);
      var province := Province(rec);
      match env.asnDB(ip)
      case None => (AsnFailed, [CityQuery(ip), AsnQuery(ip)])
      case Some(a) =>
        (Found(ip, country, province, city, rec.latitude, rec.longitude, a.number, a.organization),
         [CityQuery(ip), AsnQuery(ip)])
  }

  /** Resolves a normalised, non-empty query and enriches its first address. */
  function Resolve(query: string, env: Env): (r: (Outcome, seq<Lookup>))
    ensures |r.1| >= 1 && r.1[0] == ResolveName(query)
    ensures r.0.DnsFailed? <==> env.lookupIP(query).None? || env.lookupIP(query).value == []
    ensures r.0.DnsFailed? ==> r.0.query == query && r.1 == [ResolveName(query)]
    ensures !r.0.DnsFailed? ==>
              forall k :: 1 <= k < |r.1| ==> Concerns(r.1[k], env.lookupIP(query).value[0])
    ensures !r.0.NoQuery?
    ensures !r.0.DnsFailed? ==>
              var e := Enrich(env.lookupIP(query).value[0], env);
              r == (e.0, [ResolveName(query)] + e.1)
  {
    match env.lookupIP(query)
    case None => (DnsFailed(query), [ResolveName(query)])
    case Some(ips) =>
      if |ips| == 0 then (DnsFailed(query), [ResolveName(query)])
      else
        var e := Enrich(ips[0], env);
        (e.0, [ResolveName(query)] + e.1)
  }

  /** The decision flow of the home page handler. */
  function Handle(ipParam: string, req: Request, env: Env): (resp: Response)
    ensures resp.Page?
    ensures resp.query == ExtractHost(RawQuery(ipParam, req), env.parse(RawQuery(ipParam, req))).value
    ensures resp.query != "" ==> (resp.outcome, resp.lookups) == Resolve(resp.query, env)
    ensures resp.outcome.NoQuery? <==> resp.query == ""
    ensures resp.outcome.NoQuery? <==> resp.lookups == []
  {
    var raw := RawQuery(ipParam, req);
    match ExtractHost(raw, env.parse(raw))
    case Failure(_) => BadRequest
    case Success(query) =>
      if query == "" then Page(query, NoQuery, [])
      else
        var r := Resolve(query, env);
        Page(query, r.0, r.1)
  }
}
