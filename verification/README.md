# ip-location request resolution, modelled in Dafny

The web service answers "where is this address?" for an IP address, host
name or URL typed into a form. When the form is empty, it answers for the
visitor's own address instead. This project models the decision logic of its
one HTTP handler (`main.go`) as pure functions:

- **Client address** (`Handler.ClientIP`, Go `getClientIP`). A non-empty
  `X-Forwarded-For` header wins. Its text before the first comma is trimmed
  of Unicode white space. Otherwise a non-empty `X-Real-IP` is used verbatim.
  Otherwise the peer address is used, with its port split off. When the split
  fails, the peer address comes back unchanged.
- **Query normalisation** (`Handler.ExtractHost`, Go `extractHost`). The query
  comes back unchanged when `url.Parse` fails or finds no scheme. Otherwise the
  URL's host comes back. A host containing a colon goes through
  `net.SplitHostPort`, and a failed split yields the empty string. No error is
  ever reported.
- **Lookup flow** (`Handler.Handle`, Go `homeHandler`). The result is a
  `Response` instead of HTML: a 400 error, or a page that carries the
  normalised query, an `Outcome` and the list of lookups made. The outcome is
  one of `NoQuery`, `DnsFailed(query)`, `CityFailed`, `AsnFailed` or
  `Found(...)`.

The collaborators are inputs, held in an `Env` record of functions: `url.Parse`,
`net.LookupIP` and the two GeoLite2 readers. The source of Go's `strings` and `net`
packages is not part of this model. `Text` and `HostPort` restate
`strings.Split(..)[0]`, `strings.TrimSpace` and `net.SplitHostPort` as Go
implements them, and `strings.Contains(host, ":")` is written `':' in host`.
`JoinHostPort` is not called by the handler; it is added only to state the
round trip.

The model follows the code where it is not symmetric:

- The ASN database is consulted only after the City lookup succeeds.
- An ASN failure throws away the geographic fields already read.
- The client-address fallback is normalised as a possible URL too.

The two database lookups are therefore not independent partial failures
(main.go:125-146), and the model does not make them so.

One behaviour follows from the code as written: a URL whose host is a
bracketed IPv6 literal without a port, such as `http://[::1]/`, normalises to
the empty string, so the page shows no result
(`HandlerLemmas.ExtractHostBracketedWithoutPort`).

Files: `wrappers.dfy` (Option, Result), `text.dfy` (module `Text`),
`hostport.dfy` (module `HostPort`), `geo.dfy` (module `Geo`: record shapes,
`zh-CN` names, province rule), `handler.dfy` (module `Handler`),
`handler_lemmas.dfy` (module `HandlerLemmas`).

## Model

| member | source | states |
|---|---|---|
| Text.BeforeFirst | main.go:60 | The first element of a split on `,` is a prefix of the header that contains no comma and is followed by a comma or by the end of the header |
| Text.BeforeFirstUnique | main.go:60 | Those three conditions single out exactly one prefix, so they determine the first element |
| Text.TrimSpaceTrims | main.go:61 | Trimming yields a contiguous piece of the input with only white space around it and no white space at either end |
| Text.TrimOfUnique | main.go:61 | At most one string is the trimmed form of a given input |
| HostPort.SplitHostPort | main.go:71-75 | A split succeeds only on an address with a colon, of the form `host:port` or `[host]:port`; the port has no colon or brackets, the host has no brackets, and an unbracketed host has no colon (Go's "too many colons" rejection) |
| HostPort.SplitBracketed | main.go:71-75 | `[host]:port` splits into exactly that host and port, whether or not the host contains a colon, provided the host has no brackets and the port has no colon or brackets |
| HostPort.SplitJoinRoundTrip | main.go:71-75 | Splitting a joined host and port gives back that host and port, whenever the host has no brackets and the port has no colon or brackets |
| Handler.ClientIP | main.go:55-76 | With a forwarded header, the answer is the trimmed first entry and has no comma; otherwise a non-empty real-IP header comes back verbatim; otherwise the peer address's host comes back, or the peer address unchanged when it does not split |
| HandlerLemmas.ForwardedForWins | main.go:57-62 | A non-empty `X-Forwarded-For` decides alone: the answer does not depend on `X-Real-IP` or on the peer address |
| HandlerLemmas.ForwardedForExample | main.go:57-62 | The chain `1.2.3.4, 5.6.7.8` yields `1.2.3.4` |
| HandlerLemmas.RealIPVerbatim | main.go:65-68 | With no forwarded header, a non-empty `X-Real-IP` comes back untrimmed, whatever the peer address |
| HandlerLemmas.PeerHostWithoutPort | main.go:71-75 | With neither header, a peer address written by `JoinHostPort`, and any bracketed `[host]:port`, yields exactly its host |
| HandlerLemmas.PeerAddressExample | main.go:71-75 | The peer address `9.9.9.9:443` yields `9.9.9.9` |
| HandlerLemmas.PeerAddressWithoutColon | main.go:71-74 | A peer address without a colon fails to split and comes back unchanged |
| Handler.ExtractHost | main.go:79-92 | No error is ever returned. Input that does not parse, or has no scheme, comes back unchanged. A colon-free URL host comes back as it is. A host with a colon comes back as the host part of its split, or as `""` when the split fails; a non-empty result is that host with `:port` removed |
| HandlerLemmas.ExtractHostStripsPort | main.go:87-91 | With a scheme, a URL host written by `JoinHostPort`, and any bracketed `[host]:port`, normalises to exactly the bare host |
| HandlerLemmas.ExtractHostBracketedWithoutPort | main.go:87-91 | With a scheme, a URL host `[h]` where `h` has a colon normalises to the empty string, because the split finds no port |
| Handler.Handle | main.go:97-117 | The 400 branch is unreachable. The page echoes the `ip` parameter, or the client address when it is empty, after URL normalisation. A non-empty query is resolved and enriched, and that decides the outcome and the lookups. The outcome is `NoQuery` exactly when the normalised query is empty, and exactly when no lookup was made |
| Handler.Resolve | main.go:117-122 | The first lookup is always DNS on the query. DNS fails exactly on a resolver error or an empty address list, and then the failure carries the query and no database is consulted. Otherwise the outcome and the database lookups are exactly those of enriching the first address |
| Handler.Enrich | main.go:125-163 | City is always queried first. It fails exactly when the City lookup errs, and then ASN is not queried. ASN failure happens exactly when City succeeds and ASN errs. The result is `Found` exactly when both succeed, and then it carries the resolved address |
| HandlerLemmas.TraceComplete | main.go:115-146 | Two environments that agree on the URL parse and on every recorded lookup give the same response, so the lookup list names everything consulted |
| HandlerLemmas.QueryParamWins | main.go:97-102 | A non-empty `ip` parameter makes the response independent of headers and peer address |
| HandlerLemmas.ClientFallbackIsNormalised | main.go:100-105 | Without an `ip` parameter, the query shown and looked up is the client address after URL normalisation |
| HandlerLemmas.EmptyQueryNoLookup | main.go:115 | An empty normalised query gives an empty page with no lookup |
| HandlerLemmas.DnsFailureStops | main.go:117-119 | A resolver error or empty address list gives `DnsFailed(query)` after the single DNS lookup |
| HandlerLemmas.FirstAddressOnly | main.go:120-122 | Only the first resolved address matters: the rest of the list can be replaced by anything |
| HandlerLemmas.CityFailureSkipsAsn | main.go:125-128 | A City failure gives `CityFailed` after one City lookup, whatever the ASN database holds |
| HandlerLemmas.AsnFailureDiscardsGeo | main.go:144-146 | After a City success, an ASN failure gives the bare `AsnFailed`, whatever City record was found |
| HandlerLemmas.FoundFields | main.go:130-161 | With both records, country and city are the `zh-CN` names or `""`, and province is the first subdivision's `zh-CN` name or `"未知"` when there is none. Coordinates are copied as stored, and the ASN number and organisation come from the ASN record |

## Left out

- `main` (main.go:20-52): flag parsing, opening the two database files, fatal logging and starting the server. This is process start-up and I/O.
- The HTML page, the HTML-formatted messages and `fmt` formatting of coordinates, the ASN number and `ip.String()` (main.go:119-161, main.go:168-253). This is presentation; the `Outcome` datatype replaces it.
- The internals of `url.Parse`, `net.LookupIP` and the GeoLite2 readers (MaxMind DB format). They are foreign calls whose results are inputs (`Env`). Passing an IP literal through DNS unchanged is a property of `net.LookupIP`, so it is not stated here.
- Idempotence of query normalisation is not stated. It depends on what `url.Parse` makes of a bare host, which is an input here.
- Latitude and longitude are carried as raw float64 bit patterns, with no numeric property claimed.
- The ASN number is an unbounded `nat`. Go's `uint` width does not matter, because the handler only formats it.
- Concurrency of the HTTP server and the global database handles (main.go:17-18). No sequential logic depends on them.
- Header lookup is reduced to one string per header (`Header.Get` returns the first value, or "" when absent). Key canonicalisation is not modelled.
- Strings are sequences of Unicode scalar values. Go strings are bytes, so trimming of invalid UTF-8 in a header is not modelled.
- `SplitHostPort` reports rejection as `None` and does not distinguish Go's error messages, because every caller discards them.
