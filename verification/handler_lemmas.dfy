/**
 Properties of the handler model that relate several calls: which request
 fields the client address depends on, how a port is stripped, which lookups a
 query can trigger, and that the response depends on nothing but those lookups.
 */
module HandlerLemmas {
  import opened Wrappers
  import opened Text
  import opened HostPort
  import opened Geo
  import opened Handler

  // ---------------------------------------------------------------------------
  // getClientIP

  /** A non-empty `X-Forwarded-For` decides alone: `X-Real-IP` and the peer
      address are ignored, and the answer is its trimmed first entry. */
  lemma ForwardedForWins(req: Request, realIP: string, remoteAddr: string)
    requires req.forwardedFor != ""
    ensures ClientIP(req) == ClientIP(Request(req.forwardedFor, realIP, remoteAddr))
    ensures ClientIP(req) == TrimSpace(BeforeFirst(req.forwardedFor, ','))
  {
    var first := BeforeFirst(req.forwardedFor, ',');
    TrimSpaceTrims(first);
    TrimOfUnique(first, ClientIP(req), TrimSpace(first));
  }

  /** The proxy chain "1.2.3.4, 5.6.7.8" names the client 1.2.3.4. */
  lemma ForwardedForExample(realIP: string, remoteAddr: string)
    ensures ClientIP(Request("1.2.3.4, 5.6.7.8", realIP, remoteAddr)) == "1.2.3.4"
  {
    var req := Request("1.2.3.4, 5.6.7.8", realIP, remoteAddr);
    ExampleFirstEntry();
    ExampleAlreadyTrimmed();
    calc {
      ClientIP(req);
      TrimSpace(BeforeFirst(req.forwardedFor, ','));
      TrimSpace("1.2.3.4");
      "1.2.3.4";
    }
  }

  /** The first entry of "1.2.3.4, 5.6.7.8" is "1.2.3.4". */
  lemma ExampleFirstEntry()
    ensures BeforeFirst("1.2.3.4, 5.6.7.8", ',') == "1.2.3.4"
  {
    assert "1.2.3.4, 5.6.7.8" == "1.2.3.4" + ", 5.6.7.8";
    BeforeFirstUnique("1.2.3.4, 5.6.7.8", ',', "1.2.3.4");
  }

  /** "1.2.3.4" has no surrounding white space, so trimming keeps it. */
  lemma ExampleAlreadyTrimmed()
    ensures TrimSpace("1.2.3.4") == "1.2.3.4"
  {
    NoSpaceIsTrimmed("1.2.3.4");
    TrimSpaceTrims("1.2.3.4");
    TrimOfUnique("1.2.3.4", "1.2.3.4", TrimSpace("1.2.3.4"));
  }

  /** A string without white space at its ends is its own trimmed form. */
  lemma NoSpaceIsTrimmed(s: string)
    requires |s| > 0 ==> !IsSpace(s[0]) && !IsSpace(s[|s| - 1])
    ensures IsTrimOf(s, s)
  {
    assert s[0..|s|] == s;
    assert s[..0] == [] && s[|s|..] == [];
  }

  /** With no `X-Forwarded-For`, a non-empty `X-Real-IP` is the answer verbatim,
      surrounding white space included, whatever the peer address. */
  lemma RealIPVerbatim(realIP: string, remoteAddr: string)
    requires realIP != ""
    ensures ClientIP(Request("", realIP, remoteAddr)) == realIP
  {
  }

  /** With neither header, a peer address `host:port` (or `[host]:port`) yields
      its host. */
  lemma PeerHostWithoutPort(host: string, port: string)
    requires '[' !in host && ']' !in host
    requires ':' !in port && '[' !in port && ']' !in port
    ensures ClientIP(Request("", "", JoinHostPort(host, port))) == host
    ensures ClientIP(Request("", "", "[" + host + "]:" + port)) == host
  {
    SplitJoinRoundTrip(host, port);
    SplitBracketed(host, port);
  }

  /** The peer address 9.9.9.9:443 names the client 9.9.9.9. */
  lemma PeerAddressExample()
    ensures ClientIP(Request("", "", "9.9.9.9:443")) == "9.9.9.9"
  {
    assert JoinHostPort("9.9.9.9", "443") == "9.9.9.9:443";
    PeerHostWithoutPort("9.9.9.9", "443");
  }

  /** A peer address without a colon does not split and is returned unchanged. */
  lemma PeerAddressWithoutColon(remoteAddr: string)
    requires ':' !in remoteAddr
    ensures ClientIP(Request("", "", remoteAddr)) == remoteAddr
  {
  }

  // ---------------------------------------------------------------------------
  // extractHost

  /** A URL whose host carries a port normalises to the bare host: exactly the
      port (and the brackets of an IPv6 literal) are removed. */
  lemma ExtractHostStripsPort(input: string, scheme: string, host: string, port: string)
    requires scheme != ""
    requires '[' !in host && ']' !in host
    requires ':' !in port && '[' !in port && ']' !in port
    ensures ExtractHost(input, Some(Url(scheme, JoinHostPort(host, port)))) == Success(host)
    ensures ExtractHost(input, Some(Url(scheme, "[" + host + "]:" + port))) == Success(host)
  {
    SplitJoinRoundTrip(host, port);
    SplitBracketed(host, port);
  }

  /** A bracketed host without a port, as in "http://[::1]/", does not split,
      so the query normalises to the empty string and the page shows nothing. */
  lemma ExtractHostBracketedWithoutPort(input: string, scheme: string, host: string)
    requires scheme != "" && ':' in host
    ensures ExtractHost(input, Some(Url(scheme, "[" + host + "]"))) == Success("")
  {
    var h := "[" + host + "]";
    assert ':' in h by {
      var k :| 0 <= k < |host| && host[k] == ':';
      assert h[k + 1] == ':';
    }
  }

  // ---------------------------------------------------------------------------
  // homeHandler

  /** Two collaborators that give the same answer to `lookup`. */
  predicate AgreeOn(lookup: Lookup, e1: Env, e2: Env)
  {
    match lookup
    case ResolveName(h) => e1.lookupIP(h) == e2.lookupIP(h)
    case CityQuery(ip) => e1.cityDB(ip) == e2.cityDB(ip)
    case AsnQuery(ip) => e1.asnDB(ip) == e2.asnDB(ip)
  }

  /** The `Response.lookups` trace is complete: two environments that parse the
      query alike and answer every recorded lookup alike give the same response,
      so nothing unrecorded is consulted. */
  lemma TraceComplete(ipParam: string, req: Request, e1: Env, e2: Env)
    requires e1.parse(RawQuery(ipParam, req)) == e2.parse(RawQuery(ipParam, req))
    requires forall k :: 0 <= k < |Handle(ipParam, req, e1).lookups| ==>
               AgreeOn(Handle(ipParam, req, e1).lookups[k], e1, e2)
    ensures Handle(ipParam, req, e1) == Handle(ipParam, req, e2)
  {
    var resp := Handle(ipParam, req, e1);
    if resp.query != "" {
      assert AgreeOn(resp.lookups[0], e1, e2);
      var ips := e1.lookupIP(resp.query);
      if ips.Some? && |ips.value| > 0 {
        var ip := ips.value[0];
        assert AgreeOn(resp.lookups[1], e1, e2);
        if e1.cityDB(ip).Some? {
          assert AgreeOn(resp.lookups[2], e1, e2);
        }
      }
    }
  }

  /** A non-empty `ip` parameter is the query: request headers and the peer
      address play no part. */
  lemma QueryParamWins(ipParam: string, req1: Request, req2: Request, env: Env)
    requires ipParam != ""
    ensures Handle(ipParam, req1, env) == Handle(ipParam, req2, env)
  {
  }

  /** Without an `ip` parameter the client address is the query, and it too is
      normalised as a possible URL before any lookup. */
  lemma ClientFallbackIsNormalised(req: Request, env: Env)
    ensures Handle("", req, env).query == ExtractHost(ClientIP(req), env.parse(ClientIP(req))).value
  {
  }

  /** An empty normalised query performs no lookup and shows no result. */
  lemma EmptyQueryNoLookup(ipParam: string, req: Request, env: Env)
    requires ExtractHost(RawQuery(ipParam, req), env.parse(RawQuery(ipParam, req))).value == ""
    ensures Handle(ipParam, req, env) == Page("", NoQuery, [])
  {
  }

  /** A resolver error or an empty address list is reported with the query and
      stops the flow before either database is consulted. */
  lemma DnsFailureStops(query: string, env: Env)
    requires env.lookupIP(query).None? || env.lookupIP(query) == Some([])
    ensures Resolve(query, env) == (DnsFailed(query), [ResolveName(query)])
  {
  }

  /** Only the first resolved address matters: the rest of the list is ignored. */
  lemma FirstAddressOnly(query: string, env: Env, rest: seq<IP>)
    requires env.lookupIP(query).Some? && |env.lookupIP(query).value| > 0
    ensures Resolve(query, env)
            == Resolve(query, env.(lookupIP := (h: string) =>
                                     if h == query then Some([env.lookupIP(query).value[0]] + rest)
                                     else env.lookupIP(h)))
  {
  }

  /** A City failure is final: the ASN database is never asked, so its
      contents cannot change the outcome. */
  lemma CityFailureSkipsAsn(ip: IP, env: Env, asnDB: IP -> Option<AsnRecord>)
    requires env.cityDB(ip).None?
    ensures Enrich(ip, env) == (CityFailed, [CityQuery(ip)])
    ensures Enrich(ip, env) == Enrich(ip, env.(asnDB := asnDB))
  {
  }

  /** An ASN failure after a City success discards the geographic fields
      already read: the outcome is the bare ASN failure. */
  lemma AsnFailureDiscardsGeo(ip: IP, env: Env, cityDB: IP -> Option<CityRecord>)
    requires env.cityDB(ip).Some? && env.asnDB(ip).None?
    requires cityDB(ip).Some?
    ensures Enrich(ip, env).0 == AsnFailed
    ensures Enrich(ip, env) == Enrich(ip, env.(cityDB := cityDB))
  {
  }

  /** With both records present, the page shows the Simplified Chinese names,
      the coordinates as stored, and the ASN record; the province is the first
      subdivision's name, or the placeholder when there is none. */
  lemma FoundFields(ip: IP, env: Env)
    requires env.cityDB(ip).Some? && env.asnDB(ip).Some?
    ensures var rec, a := env.cityDB(ip).value, env.asnDB(ip).value;
            var o := Enrich(ip, env).0;
            && o.Found? && o.ip == ip
            && (Locale in rec.country ==> o.country == rec.country[Locale])
            && (Locale !in rec.country ==> o.country == "")
            && (Locale in rec.city ==> o.city == rec.city[Locale])
            && (Locale !in rec.city ==> o.city == "")
            && (|rec.subdivisions| == 0 ==> o.province == UnknownProvince)
            && (|rec.subdivisions| > 0 && Locale in rec.subdivisions[0] ==>
                  o.province == rec.subdivisions[0][Locale])
            && (|rec.subdivisions| > 0 && Locale !in rec.subdivisions[0] ==> o.province == "")
            && o.latitude == rec.latitude && o.longitude == rec.longitude
            && o.asn == a.number && o.organization == a.organization
  {
  }
}
