/** What src/Dns.java and src/NewDns.java share beyond the codec: the record tables (kind -> name
    -> value), getNsDomain, and the effect of one request-handling step on the pending-request
    map and on the datagrams sent, including the two branches whose code is identical in both
    revisions (answering the stored requester, and delegating to a name server). */
module RecordTables {
  import opened JavaText
  import opened Codec

  const V: string := "V"
  const A: string := "A"
  const CNAME: string := "CNAME"
  const NS: string := "NS"
  const NONE: string := "NONE"

  /** One record table: name -> value. */
  type Table = map<string, string>

  /** The records map: kind -> table. */
  type Tables = map<string, Table>

  /** A local result: {recordType, recordValue}. */
  datatype Hit = Hit(kind: string, value: string)

  /** The text after the first '.' (the whole name when there is none): substring(indexOf('.') + 1). */
  function Parent(domain: string): (p: string)
    ensures '.' !in domain ==> p == domain
    ensures '.' in domain ==> |p| < |domain| && domain == domain[..|domain| - |p| - 1] + "." + p
    ensures '.' in domain ==> '.' !in domain[..|domain| - |p| - 1]
  {
    var i := IndexOf(domain, '.');
    assert i != -1 ==> domain == domain[..i] + "." + domain[i + 1..];
    domain[i + 1..]
  }

  /** getNsDomain: the NS value for the exact name, else for its parent, else nothing. */
  function NsDomain(ns: Table, domain: string): (r: Option<string>)
    ensures domain in ns ==> r == Some(ns[domain])
    ensures domain !in ns && Parent(domain) in ns ==> r == Some(ns[Parent(domain)])
    ensures r.None? <==> domain !in ns && Parent(domain) !in ns
  {
    if domain in ns then Some(ns[domain])
    else if Parent(domain) in ns then Some(ns[Parent(domain)])
    else None
  }

  /** A name without a '.' is only looked up exactly. */
  lemma NsDomainSingleLabel(ns: Table, first: string)
    requires '.' !in first
    ensures NsDomain(ns, first) == if first in ns then Some(ns[first]) else None
  {
  }

  /** Exactly one label is stripped: a name two labels above a delegated zone is not delegated,
      however its own parent fares. */
  lemma {:induction false} NsDomainStripsOneLabel(ns: Table, first: string, rest: string)
    requires '.' !in first
    ensures Parent(first + "." + rest) == rest
    ensures NsDomain(ns, first + "." + rest)
         == if first + "." + rest in ns then Some(ns[first + "." + rest])
            else if rest in ns then Some(ns[rest])
            else None
  {
    IndexOfAfterPrefix(first, '.', rest);
    var d := first + "." + rest;
    assert d[|first| + 1..] == rest;
  }

  /** containsKey + get, with None for a missing key. */
  function Get(t: Table, name: string): (r: Option<string>)
    ensures r.Some? <==> name in t
    ensures r.Some? ==> r.value == t[name]
  {
    if name in t then Some(t[name]) else None
  }

  /** A reference reading of a lookup chain: probe the tables in order and take the first that
      has something. */
  function FirstHit(probes: seq<(string, Option<string>)>): (r: Option<Hit>)
    ensures r.None? <==> forall i :: 0 <= i < |probes| ==> probes[i].1.None?
    ensures r.Some? ==> exists i :: 0 <= i < |probes| && probes[i].0 == r.value.kind
                                      && probes[i].1 == Some(r.value.value)
                                      && forall j :: 0 <= j < i ==> probes[j].1.None?
  {
    if |probes| == 0 then None
    else if probes[0].1.Some? then Some(Hit(probes[0].0, probes[0].1.value))
    else
      var r := FirstHit(probes[1..]);
      assert forall i :: 0 <= i < |probes| - 1 ==> probes[1..][i] == probes[i + 1];
      r
  }

  // ---------------------------------------------------------------------------------------------
  // one step of a server

  /** What one socket.receive yields: the datagram's bytes with the sender's address as
      getAddress().toString() prints it ("/1.2.3.4") and its port, or an IOException. */
  datatype Inbound = Received(data: seq<byte>, addr: string, fromPort: nat) | ReceiveFailed

  /** The effect of handling one datagram: the pending map afterwards, the datagrams sent, and
      whether an exception escaped and ended the receive loop. */
  datatype Step = Step(requests: map<string, string>, out: seq<Datagram>, crashed: bool)

  /** sendResponse / createResponse to the requester a record names, with the original url. A
      requester read from a record never has ':' in its address. */
  function Reply(requests: map<string, string>, to: Requester, kind: string, value: string)
    : (s: Step)
    requires ':' !in to.ip
    ensures s.requests == requests && |s.out| <= 1
    ensures s.crashed <==> !ValidPort(to.port)
    ensures s.crashed ==> s.out == []
    ensures !s.crashed ==> s.out == [Response(StripSlash(to.ip), to.port, to.url, kind, value)]
  {
    match ResponseDatagram(to.url, kind, value, to.ip, to.port)
    case None => Step(requests, [], true)
    case Some(d) => Step(requests, [d], false)
  }

  /** The NS branch: read the server as "host" (this server's port) or "host:port", store the
      record under the requested name (replacing any earlier one), then send the request on. */
  function Delegate(requests: map<string, string>, url: string, record: string, server: string,
                    port: int): (s: Step)
    ensures |s.out| <= 1 && (s.crashed ==> s.out == [])
    ensures HostPort(server, port).None? ==> s == Step(requests, [], true)
    ensures HostPort(server, port).Some? ==> s.requests == requests[url := record]
    ensures HostPort(server, port).Some? && ValidPort(HostPort(server, port).value.1) ==>
              s == Step(requests[url := record],
                        [Request(HostPort(server, port).value.0, HostPort(server, port).value.1, url)],
                        false)
  {
    match HostPort(server, port)
    case None => Step(requests, [], true)
    case Some((host, nsPort)) =>
      var pending := requests[url := record];
      match RequestDatagram(url, host, nsPort)
      case None => Step(pending, [], true)
      case Some(d) => Step(pending, [d], false)
  }

  /** A name server given without a port is asked on this server's own port. */
  lemma DelegateDefaultPort(requests: map<string, string>, url: string, record: string,
                            server: string, port: int)
    requires ':' !in server && ValidPort(port)
    ensures Delegate(requests, url, record, server, port)
         == Step(requests[url := record], [Request(server, port, url)], false)
  {
  }

  /** "host:port" sends to that port, not to this server's. */
  lemma DelegateExplicitPort(requests: map<string, string>, url: string, record: string,
                             host: string, nsPort: nat, port: int)
    requires ':' !in host && nsPort <= 65535
    ensures Delegate(requests, url, record, host + ":" + NatToString(nsPort), port)
         == Step(requests[url := record], [Request(host, nsPort, url)], false)
  {
    HostPortExplicit(host, nsPort, port);
  }
}
