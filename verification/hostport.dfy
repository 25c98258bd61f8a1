/**
 Go's `net.SplitHostPort` and its inverse `net.JoinHostPort`, over strings.
 `SplitHostPort` accepts `host:port` and `[host]:port`; the port is what follows
 the last colon. Every rejected address maps to `None` (the Go error value is
 discarded by every caller in this model).
 */
module HostPort {
  import opened Wrappers

  /** Position of the first `c` in `s`, or -1 (Go's `IndexByte`). */
  function {:induction false} IndexOf(s: string, c: char): (r: int)
    ensures -1 <= r < |s|
    ensures r == -1 <==> c !in s
    ensures r >= 0 ==> s[r] == c && c !in s[..r]
  {
    if |s| == 0 then -1
    else if s[0] == c then 0
    else
      var k := IndexOf(s[1..], c);
      assert s == [s[0]] + s[1..];
      if k < 0 then -1
      else
        assert s[..k + 1] == [s[0]] + s[1..][..k];
        k + 1
  }

  /** Position of the last `c` in `s`, or -1 (Go's `LastIndexByte`). */
  function {:induction false} LastIndexOf(s: string, c: char): (r: int)
    ensures -1 <= r < |s|
    ensures r == -1 <==> c !in s
    ensures r >= 0 ==> s[r] == c && c !in s[r + 1..]
    decreases |s|
  {
    if |s| == 0 then -1
    else if s[|s| - 1] == c then |s| - 1
    else
      var init := s[..|s| - 1];
      var k := LastIndexOf(init, c);
      assert s == init + [s[|s| - 1]];
      if k < 0 then -1
      else
        assert s[k + 1..] == init[k + 1..] + [s[|s| - 1]];
        k
  }

  /** `net.JoinHostPort`: brackets a host that contains a colon. */
  function JoinHostPort(host: string, port: string): (r: string)
    ensures ':' in r
  {
    if ':' in host then "[" + host + "]:" + port else host + ":" + port
  }

  /** `net.SplitHostPort`, with the same rejections as Go: no colon at all
      ("missing port"), a missing or misplaced `]`, a colon in an unbracketed
      host ("too many colons"), and a stray `[` or `]`. */
  function SplitHostPort(hostport: string): (r: Option<(string, string)>)
    ensures ':' !in hostport ==> r.None?
    ensures r.Some? ==> hostport == r.value.0 + ":" + r.value.1
                        || hostport == "[" + r.value.0 + "]:" + r.value.1
    ensures r.Some? ==> ':' !in r.value.1 && '[' !in r.value.1 && ']' !in r.value.1
    ensures r.Some? ==> '[' !in r.value.0 && ']' !in r.value.0
    ensures r.Some? ==> hostport[0] == '[' || ':' !in r.value.0
  {
    var i := LastIndexOf(hostport, ':');
    if i < 0 then None
    else if hostport[0] == '[' then
      var end := IndexOf(hostport, ']');
      if end < 0 then None
      else if end + 1 != i then None
      else if '[' in hostport[1..] || ']' in hostport[end + 1..] then None
      else
        BracketedParts(hostport, end, i);
        Some((hostport[1..end], hostport[i + 1..]))
    else
      var host, port := hostport[..i], hostport[i + 1..];
      if ':' in host || '[' in hostport || ']' in hostport then None
      else
        PlainParts(hostport, i);
        Some((host, port))
  }

  /** How a `[host]:port` address falls apart at its first `]` and last colon. */
  lemma BracketedParts(hostport: string, end: int, i: int)
    requires 0 < end && end + 1 == i < |hostport| && hostport[0] == '['
    requires hostport[end] == ']' && ']' !in hostport[..end]
    requires hostport[i] == ':' && ':' !in hostport[i + 1..]
    requires '[' !in hostport[1..] && ']' !in hostport[end + 1..]
    ensures hostport == "[" + hostport[1..end] + "]:" + hostport[i + 1..]
    ensures '[' !in hostport[1..end] && ']' !in hostport[1..end]
    ensures '[' !in hostport[i + 1..] && ']' !in hostport[i + 1..]
  {
    var host, port := hostport[1..end], hostport[i + 1..];
    assert hostport == hostport[..1] + host + hostport[end..i + 1] + port;
    assert hostport[..1] == "[" && hostport[end..i + 1] == "]:";
    assert host == hostport[1..][..end - 1];
    assert host == hostport[..end][1..];
    assert port == hostport[1..][i..];
    assert port == hostport[end + 1..][1..];
  }

  /** How a `host:port` address falls apart at its last colon. */
  lemma PlainParts(hostport: string, i: int)
    requires 0 <= i < |hostport| && hostport[i] == ':' && ':' !in hostport[i + 1..]
    requires '[' !in hostport && ']' !in hostport
    ensures hostport == hostport[..i] + ":" + hostport[i + 1..]
    ensures '[' !in hostport[..i] && ']' !in hostport[..i]
    ensures '[' !in hostport[i + 1..] && ']' !in hostport[i + 1..]
  {
    assert hostport == hostport[..i] + [hostport[i]] + hostport[i + 1..];
  }

  /** `IndexOf` finds the one occurrence with no earlier one. */
  lemma IndexAt(s: string, c: char, k: int)
    requires 0 <= k < |s| && s[k] == c && c !in s[..k]
    ensures IndexOf(s, c) == k
  {
  }

  /** `LastIndexOf` finds the one occurrence with no later one. */
  lemma LastIndexAt(s: string, c: char, k: int)
    requires 0 <= k < |s| && s[k] == c && c !in s[k + 1..]
    ensures LastIndexOf(s, c) == k
  {
  }

  /** A host and a port free of the delimiters survive a join followed by a split. */
  lemma SplitJoinRoundTrip(host: string, port: string)
    requires '[' !in host && ']' !in host
    requires ':' !in port && '[' !in port && ']' !in port
    ensures SplitHostPort(JoinHostPort(host, port)) == Some((host, port))
  {
    if ':' in host {
      SplitBracketed(host, port);
    } else {
      SplitPlain(host, port);
    }
  }

  /** `[host]:port` splits into its host and port, whether or not the host
      contains a colon. */
  lemma SplitBracketed(host: string, port: string)
    requires '[' !in host && ']' !in host
    requires ':' !in port && '[' !in port && ']' !in port
    ensures SplitHostPort("[" + host + "]:" + port) == Some((host, port))
  {
    var hp := "[" + host + "]:" + port;
    BracketedLandmarks(host, port);
    assert hp[1..|host| + 1] == host;
    assert hp[|host| + 3..] == port;
  }

  /** Where the splitting of `[host]:port` finds its delimiters. */
  lemma BracketedLandmarks(host: string, port: string)
    requires '[' !in host && ']' !in host
    requires ':' !in port && '[' !in port && ']' !in port
    ensures var hp := "[" + host + "]:" + port;
            && hp[0] == '['
            && LastIndexOf(hp, ':') == |host| + 2
            && IndexOf(hp, ']') == |host| + 1
            && '[' !in hp[1..] && ']' !in hp[|host| + 2..]
  {
    BracketedLastColon(host, port);
    BracketedFirstClose(host, port);
    BracketedStrays(host, port);
  }

  /** `[host]:port` has no `[` after its first character and no `]` after its `]`. */
  lemma BracketedStrays(host: string, port: string)
    requires '[' !in host && '[' !in port && ']' !in port
    ensures '[' !in ("[" + host + "]:" + port)[1..]
    ensures ']' !in ("[" + host + "]:" + port)[|host| + 2..]
  {
    var hp := "[" + host + "]:" + port;
    assert hp[1..] == host + "]:" + port;
    assert hp[|host| + 2..] == ":" + port;
  }

  /** The last colon of `[host]:port` is the one after the `]`. */
  lemma BracketedLastColon(host: string, port: string)
    requires ':' !in port
    ensures LastIndexOf("[" + host + "]:" + port, ':') == |host| + 2
  {
    var hp := "[" + host + "]:" + port;
    assert hp[|host| + 2] == ':';
    assert hp[|host| + 3..] == port;
    LastIndexAt(hp, ':', |host| + 2);
  }

  /** The first `]` of `[host]:port` closes the host. */
  lemma BracketedFirstClose(host: string, port: string)
    requires ']' !in host
    ensures IndexOf("[" + host + "]:" + port, ']') == |host| + 1
  {
    var hp := "[" + host + "]:" + port;
    assert hp[|host| + 1] == ']';
    assert hp[..|host| + 1] == "[" + host;
    IndexAt(hp, ']', |host| + 1);
  }

  /** `host:port` with a colon-free host splits into that host and port. */
  lemma SplitPlain(host: string, port: string)
    requires ':' !in host && '[' !in host && ']' !in host
    requires ':' !in port && '[' !in port && ']' !in port
    ensures SplitHostPort(host + ":" + port) == Some((host, port))
  {
    var hp := host + ":" + port;
    var n := |host|;
    assert hp[n] == ':' && hp[n + 1..] == port;
    LastIndexAt(hp, ':', n);
    assert hp[..n] == host;
    assert '[' !in hp && ']' !in hp;
  }
}
