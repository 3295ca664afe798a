/** src/Dns.java: the resolver that answers from its own record tables, chases V and CNAME
    aliases while the target still resolves locally, and delegates to a name server through an
    NS record, keeping the original requester in a pending map until the answer comes back.

    Every handler is modelled twice: as a function from the pending map to a Step (what is sent,
    the new pending map, whether an exception ended the receive loop), and as a method of the
    class Dns that changes the server's fields exactly as that function says. */
module DnsServer {
  import opened JavaText
  import opened Codec
  import opened RecordTables

  /** All four kind tables exist. readRecordsFromFile always creates them; the constructor that
      takes a map relies on its caller. */
  predicate HasTables(records: Tables) {
    A in records && V in records && CNAME in records && NS in records
  }

  /** localUrlLookup: A, then V, then CNAME, then getNsDomain; None stands for null. */
  function LocalUrlLookup(records: Tables, url: string): (r: Option<Hit>)
    requires HasTables(records)
    ensures r.Some? && r.value.kind == A ==> url in records[A] && r.value.value == records[A][url]
    ensures r.Some? && r.value.kind == V ==> url in records[V] && r.value.value == records[V][url]
    ensures r.Some? && r.value.kind == CNAME ==>
              url in records[CNAME] && r.value.value == records[CNAME][url]
    ensures r.Some? && r.value.kind == NS ==> NsDomain(records[NS], url) == Some(r.value.value)
    ensures r.Some? ==> r.value.kind in {A, V, CNAME, NS}
  {
    var ns := NsDomain(records[NS], url);
    if url in records[A] then Some(Hit(A, records[A][url]))
    else if url in records[V] then Some(Hit(V, records[V][url]))
    else if url in records[CNAME] then Some(Hit(CNAME, records[CNAME][url]))
    else if ns.Some? then Some(Hit(NS, ns.value))
    else None
  }

  /** The tables localUrlLookup consults, in the order it consults them. */
  function Probes(records: Tables, url: string): seq<(string, Option<string>)>
    requires HasTables(records)
  {
    [(A, Get(records[A], url)), (V, Get(records[V], url)), (CNAME, Get(records[CNAME], url)),
     (NS, NsDomain(records[NS], url))]
  }

  /** localUrlLookup is the first hit in the order A, V, CNAME, NS: null only when all four miss,
      and otherwise the earliest table that has the name. */
  lemma LookupIsFirstHit(records: Tables, url: string)
    requires HasTables(records)
    ensures LocalUrlLookup(records, url) == FirstHit(Probes(records, url))
  {
    var p := Probes(records, url);
    assert p[1..] == [p[1], p[2], p[3]];
    assert p[1..][1..] == [p[2], p[3]];
    assert p[1..][1..][1..] == [p[3]];
    assert p[1..][1..][1..][1..] == [];
  }

  /** The names that can be aliases: the keys of the V and CNAME tables. */
  function AliasNames(records: Tables): set<string>
    requires HasTables(records)
  {
    records[V].Keys + records[CNAME].Keys
  }

  // ---------------------------------------------------------------------------------------------
  // the handlers as functions

  /** processRequest(requestedUrl, requestRecord). `visited` holds the names that calls further
      up the stack are processing: meeting one again means the recursion never ends, and the
      StackOverflowError ends the receive loop. */
  function Process(records: Tables, port: int, requests: map<string, string>, url: string,
                   record: string, visited: set<string>): (s: Step)
    requires HasTables(records)
    ensures |s.out| <= 1 && (s.crashed ==> s.out == [])
    ensures ParseRecord(record).None? ==> s == Step(requests, [], true)
    ensures forall k :: k in requests ==> k in s.requests
    ensures forall k :: k in s.requests ==>
              (k in requests && s.requests[k] == requests[k]) || s.requests[k] == record
    decreases AliasNames(records) - visited
  {
    if url in visited then Step(requests, [], true)
    else
      match ParseRecord(record)
      case None => Step(requests, [], true)
      case Some(req) =>
        match LocalUrlLookup(records, url)
        case None => Reply(requests, req, NONE, NONE)
        case Some(Hit(kind, value)) =>
          if kind == A then Reply(requests, req, A, value)
          else if kind == V || kind == CNAME then
            if LocalUrlLookup(records, value).Some? then
              Process(records, port, requests, value, record, visited + {url})
            else Reply(requests, req, kind, value)
          else Delegate(requests, url, record, value, port)
  }

  /** handleRequest(url, packet): serialise the requester as "url:ip:port" and process. */
  function Serve(records: Tables, port: int, requests: map<string, string>, url: string,
                   addr: string, fromPort: nat): (s: Step)
    requires HasTables(records)
    ensures |s.out| <= 1 && (s.crashed ==> s.out == [])
    ensures forall k :: k in requests ==> k in s.requests
    ensures ':' !in url && ':' !in StripSlash(addr) && fromPort <= INT_MAX && !s.crashed ==>
              && |s.out| == 1
              && (s.out[0].Response? ==>
                    s.out[0].url == url && s.out[0].host == StripSlash(StripSlash(addr))
                    && s.out[0].port == fromPort)
              && (s.out[0].Request? ==>
                    s.requests == requests[s.out[0].url := RequestRecord(url, StripSlash(addr), fromPort)])
  {
    var record := RequestRecord(url, StripSlash(addr), fromPort);
    ProcessShape(records, port, requests, url, record, {});
    if ':' !in url && ':' !in StripSlash(addr) && fromPort <= INT_MAX then
      RecordRoundTrip(url, StripSlash(addr), fromPort);
      Process(records, port, requests, url, record, {})
    else
      Process(records, port, requests, url, record, {})
  }

  /** handleResponse: resume the request that was waiting on url, if any. */
  function Respond(records: Tables, port: int, requests: map<string, string>, url: string,
                   kind: string, value: string): (s: Step)
    requires HasTables(records)
    ensures |s.out| <= 1 && (s.crashed ==> s.out == [])
    ensures forall k :: k in requests && k != url ==> k in s.requests
    ensures url !in requests ==> s == Step(requests, [], false)
  {
    if url !in requests then Step(requests, [], false)
    else
      var record := requests[url];
      var rest := requests - {url};
      match ParseRecord(record)
      case None => Step(rest, [], true)
      case Some(req) =>
        if kind == A then Reply(rest, req, value, value)
        else Process(records, port, rest, value, record, {})
  }

  /** run's switch on the tag byte of the buffer. */
  function Dispatch(records: Tables, port: int, requests: map<string, string>, frame: seq<byte>,
                    addr: string, fromPort: nat): (s: Step)
    requires HasTables(records) && |frame| == PACKET_SIZE
    ensures |s.out| <= 1 && (s.crashed ==> s.out == [])
    ensures frame[0] == DNS_REQUEST ==> forall k :: k in requests ==> k in s.requests
    ensures frame[0] != DNS_REQUEST && frame[0] != DNS_RESPONSE ==> s == Step(requests, [], false)
  {
    if frame[0] == DNS_REQUEST then
      Serve(records, port, requests, UrlField(frame), addr, fromPort)
    else if frame[0] == DNS_RESPONSE then
      Respond(records, port, requests, UrlField(frame), TypeField(frame), ValueField(frame))
    else Step(requests, [], false)
  }

  /** One turn of run's loop: a receive failure throws IllegalStateException. */
  function Handle(records: Tables, port: int, requests: map<string, string>, event: Inbound)
    : (s: Step)
    requires HasTables(records)
    ensures |s.out| <= 1 && (s.crashed ==> s.out == [])
    ensures event.ReceiveFailed? ==> s == Step(requests, [], true)
  {
    match event
    case ReceiveFailed => Step(requests, [], true)
    case Received(data, addr, fromPort) =>
      Dispatch(records, port, requests, Frame(data), addr, fromPort)
  }

  // ---------------------------------------------------------------------------------------------
  // what processRequest and handleResponse promise

  /** d is an answer to the requester req: addressed to it, about the url it asked for, and of
      one of the kinds processRequest answers with. An alias is only answered when its target
      has no local result. */
  predicate Answer(records: Tables, d: Datagram, req: Requester)
    requires HasTables(records)
  {
    && d.Response?
    && d.host == StripSlash(req.ip) && d.port == req.port && d.url == req.url
    && ((d.kind == A && d.value in records[A].Values)
        || ((d.kind == V || d.kind == CNAME) && LocalUrlLookup(records, d.value).None?)
        || (d.kind == NONE && d.value == NONE))
  }

  /** Whatever the tables and however long the alias chain: a record that does not parse ends
      the loop with nothing sent; otherwise, unless an exception ends the loop, exactly one
      datagram goes out. It is either an answer to the stored requester, with the pending map
      unchanged, or a request for a name, with the record pending under that name. */
  lemma {:induction false} ProcessShape(records: Tables, port: int, requests: map<string, string>,
                                        url: string, record: string, visited: set<string>)
    requires HasTables(records)
    ensures var s := Process(records, port, requests, url, record, visited);
            && |s.out| <= 1
            && (ParseRecord(record).None? ==> s.crashed && s.out == [])
            && (!s.crashed ==> ParseRecord(record).Some? && |s.out| == 1)
            && (!s.crashed && s.out[0].Response? ==>
                  Answer(records, s.out[0], ParseRecord(record).value) && s.requests == requests)
            && (!s.crashed && s.out[0].Request? ==> s.requests == requests[s.out[0].url := record])
    decreases AliasNames(records) - visited
  {
    if url !in visited && ParseRecord(record).Some? {
      var r := LocalUrlLookup(records, url);
      if r.Some? && r.value.kind != A && (r.value.kind == V || r.value.kind == CNAME) {
        if LocalUrlLookup(records, r.value.value).Some? {
          ProcessShape(records, port, requests, r.value.value, record, visited + {url});
        }
      } else if r.Some? && r.value.kind == A {
        assert records[A][url] in records[A].Values;
      }
    }
  }

  /** No local result: exactly one (original url, NONE, NONE) response to the requester, and no
      pending entry. */
  lemma UnknownNameAnsweredNone(records: Tables, port: int, requests: map<string, string>,
                                url: string, record: string, visited: set<string>)
    requires HasTables(records) && url !in visited
    requires LocalUrlLookup(records, url).None?
    requires ParseRecord(record).Some? && ValidPort(ParseRecord(record).value.port)
    ensures var req := ParseRecord(record).value;
            Process(records, port, requests, url, record, visited)
              == Step(requests, [Response(StripSlash(req.ip), req.port, req.url, NONE, NONE)], false)
  {
  }

  /** An A record: exactly one (original url, "A", value) response, pending map unchanged. */
  lemma AHitAnswered(records: Tables, port: int, requests: map<string, string>, url: string,
                     record: string, visited: set<string>)
    requires HasTables(records) && url !in visited && url in records[A]
    requires ParseRecord(record).Some? && ValidPort(ParseRecord(record).value.port)
    ensures var req := ParseRecord(record).value;
            Process(records, port, requests, url, record, visited)
              == Step(requests, [Response(StripSlash(req.ip), req.port, req.url, A,
                                          records[A][url])], false)
  {
  }

  /** A V or CNAME record whose target resolves locally: the same request continues with the
      target, the original url and requester unchanged. */
  lemma AliasChased(records: Tables, port: int, requests: map<string, string>, url: string,
                    record: string, visited: set<string>)
    requires HasTables(records) && url !in visited && ParseRecord(record).Some?
    requires LocalUrlLookup(records, url).Some?
    requires LocalUrlLookup(records, url).value.kind in {V, CNAME}
    requires LocalUrlLookup(records, LocalUrlLookup(records, url).value.value).Some?
    ensures Process(records, port, requests, url, record, visited)
         == Process(records, port, requests, LocalUrlLookup(records, url).value.value, record,
                    visited + {url})
  {
  }

  /** A V or CNAME record whose target has no local result: the alias itself is the answer. */
  lemma AliasAnswered(records: Tables, port: int, requests: map<string, string>, url: string,
                      record: string, visited: set<string>)
    requires HasTables(records) && url !in visited
    requires ParseRecord(record).Some? && ValidPort(ParseRecord(record).value.port)
    requires LocalUrlLookup(records, url).Some?
    requires LocalUrlLookup(records, url).value.kind in {V, CNAME}
    requires LocalUrlLookup(records, LocalUrlLookup(records, url).value.value).None?
    ensures var req := ParseRecord(record).value;
            var hit := LocalUrlLookup(records, url).value;
            Process(records, port, requests, url, record, visited)
              == Step(requests, [Response(StripSlash(req.ip), req.port, req.url, hit.kind,
                                          hit.value)], false)
  {
  }

  /** An NS record: the record becomes pending under the requested name, replacing any earlier
      entry, and one request for that name goes to the name server. */
  lemma NsHitDelegates(records: Tables, port: int, requests: map<string, string>, url: string,
                       record: string, visited: set<string>)
    requires HasTables(records) && url !in visited && ParseRecord(record).Some?
    requires url !in records[A] && url !in records[V] && url !in records[CNAME]
    requires NsDomain(records[NS], url).Some?
    requires HostPort(NsDomain(records[NS], url).value, port).Some?
    requires ValidPort(HostPort(NsDomain(records[NS], url).value, port).value.1)
    ensures var server := HostPort(NsDomain(records[NS], url).value, port).value;
            Process(records, port, requests, url, record, visited)
              == Step(requests[url := record], [Request(server.0, server.1, url)], false)
  {
  }

  /** A name that is its own alias recurses until the stack overflows. */
  lemma SelfAliasOverflows(records: Tables, port: int, requests: map<string, string>,
                           url: string, record: string)
    requires HasTables(records) && ParseRecord(record).Some?
    requires url !in records[A] && url in records[V] && records[V][url] == url
    ensures Process(records, port, requests, url, record, {}).crashed
  {
    assert Process(records, port, requests, url, record, {})
        == Process(records, port, requests, url, record, {url});
  }

  /** A response nobody is waiting for changes nothing and sends nothing. */
  lemma StaleResponseIgnored(records: Tables, port: int, requests: map<string, string>,
                             url: string, kind: string, value: string)
    requires HasTables(records) && url !in requests
    ensures Respond(records, port, requests, url, kind, value) == Step(requests, [], false)
  {
  }

  /** An A response is forwarded with its value in both the type and the value field, unlike a
      local A hit, which sends the token "A" as the type. */
  lemma DelegatedAnswerCarriesValueAsType(records: Tables, port: int,
                                          requests: map<string, string>, url: string,
                                          value: string)
    requires HasTables(records) && url in requests
    requires ParseRecord(requests[url]).Some? && ValidPort(ParseRecord(requests[url]).value.port)
    ensures var req := ParseRecord(requests[url]).value;
            Respond(records, port, requests, url, A, value)
              == Step(requests - {url}, [Response(StripSlash(req.ip), req.port, req.url, value,
                                                  value)], false)
  {
  }

  /** Any other response type resumes processing on the response value, for the same requester,
      after the pending entry is removed. */
  lemma NonAResponseResumes(records: Tables, port: int, requests: map<string, string>,
                            url: string, kind: string, value: string)
    requires HasTables(records) && url in requests && kind != A
    requires ParseRecord(requests[url]).Some?
    ensures Respond(records, port, requests, url, kind, value)
         == Process(records, port, requests - {url}, value, requests[url], {})
  {
  }

  /** Once a response has been answered, the same response again is a no-op: the pending entry
      is gone unless the resumed request was delegated again under the same name. */
  lemma RepeatedResponseIsNoOp(records: Tables, port: int, requests: map<string, string>,
                               url: string, kind: string, value: string, kind2: string,
                               value2: string)
    requires HasTables(records) && url in requests
    ensures var s := Respond(records, port, requests, url, kind, value);
            s.crashed || (|s.out| > 0 && s.out[0].Request?)
            || Respond(records, port, s.requests, url, kind2, value2) == Step(s.requests, [], false)
  {
    var record := requests[url];
    if ParseRecord(record).Some? && kind != A {
      ProcessShape(records, port, requests - {url}, value, record, {});
    }
  }

  /** End to end: a request from "/ip" for a name with an A record is answered to ip, on the
      port it came from, with the "A" token and the address; the requester record round-trips
      because neither the name nor the address contains ':'. */
  lemma LocalAnswerReturnsToSender(records: Tables, port: int, requests: map<string, string>,
                                   url: string, ip: string, fromPort: nat)
    requires HasTables(records) && url in records[A]
    requires ':' !in url && ':' !in ip && !StartsWith(ip, "/") && fromPort <= 65535
    ensures Serve(records, port, requests, url, "/" + ip, fromPort)
         == Step(requests, [Response(ip, fromPort, url, A, records[A][url])], false)
  {
    assert StripSlash("/" + ip) == ip;
    RecordRoundTrip(url, ip, fromPort);
    AHitAnswered(records, port, requests, url, RequestRecord(url, ip, fromPort), {});
  }

  /** A request datagram that fits the buffer reaches processRequest with its url. */
  lemma RequestDatagramServed(records: Tables, port: int, requests: map<string, string>,
                              url: string, addr: string, fromPort: nat)
    requires HasTables(records) && IsField(url) && |url| < PACKET_SIZE
    ensures Handle(records, port, requests, Received(EncodeRequest(url), addr, fromPort))
         == Serve(records, port, requests, url, addr, fromPort)
  {
    RequestInBuffer(url);
  }

  /** A response datagram that fits the buffer reaches handleResponse with its three fields. */
  lemma ResponseDatagramRouted(records: Tables, port: int, requests: map<string, string>,
                               url: string, kind: string, value: string, addr: string,
                               fromPort: nat)
    requires HasTables(records) && IsField(url) && IsField(kind) && IsField(value)
    requires |EncodeResponse(url, kind, value)| <= PACKET_SIZE
    ensures Handle(records, port, requests,
                   Received(EncodeResponse(url, kind, value), addr, fromPort))
         == Respond(records, port, requests, url, kind, value)
  {
    ResponseInBuffer(url, kind, value);
  }

  /** Datagrams whose first byte is neither tag are dropped without effect, and so are empty
      ones, whose tag byte is the zero left by the last fill. */
  lemma OtherTagsIgnored(records: Tables, port: int, requests: map<string, string>,
                         data: seq<byte>, addr: string, fromPort: nat)
    requires HasTables(records)
    requires data == [] || (data[0] != DNS_REQUEST && data[0] != DNS_RESPONSE)
    ensures Handle(records, port, requests, Received(data, addr, fromPort))
         == Step(requests, [], false)
  {
  }

  // ---------------------------------------------------------------------------------------------
  // the server

  class Dns {
    const port: int
    const records: Tables
    var requests: map<string, string>
    /** Every datagram sent so far, in order. */
    var sent: seq<Datagram>
    /** An exception has escaped run's loop: the server no longer receives. */
    var halted: bool
    /** run's BUFF. */
    const buff: array<byte>

    ghost predicate Valid()
      reads this, buff
    {
      && HasTables(records)
      && buff.Length == PACKET_SIZE
      && (!halted ==> buff[..] == Zeros(PACKET_SIZE))
    }

    /** The fields moved as the step s says. */
    twostate predicate Took(s: Step)
      reads this
    {
      requests == s.requests && sent == old(sent) + s.out && halted == s.crashed
    }

    constructor(port: int, records: Tables)
      requires HasTables(records)
      ensures Valid() && fresh(buff)
      ensures this.port == port && this.records == records
      ensures requests == map[] && sent == [] && !halted
    {
      this.port := port;
      this.records := records;
      requests := map[];
      sent := [];
      halted := false;
      buff := new byte[PACKET_SIZE](_ => 0);
    }

    /** sendResponse: createResponse's exceptions other than IOException escape. */
    method SendResponse(url: string, kind: string, value: string, destIp: string, destPort: int)
      requires !halted
      modifies this
      ensures requests == old(requests)
      ensures match ResponseDatagram(url, kind, value, destIp, destPort)
              case None => halted && sent == old(sent)
              case Some(d) => !halted && sent == old(sent) + [d]
    {
      match ResponseDatagram(url, kind, value, destIp, destPort)
      case None =>
        halted := true;
      case Some(d) =>
        sent := sent + [d];
    }

    /** sendRequest: createRequest's exceptions other than IOException escape. */
    method SendRequest(url: string, destIp: string, destPort: int)
      requires !halted
      modifies this
      ensures requests == old(requests)
      ensures match RequestDatagram(url, destIp, destPort)
              case None => halted && sent == old(sent)
              case Some(d) => !halted && sent == old(sent) + [d]
    {
      match RequestDatagram(url, destIp, destPort)
      case None =>
        halted := true;
      case Some(d) =>
        sent := sent + [d];
    }

    method ProcessRequest(url: string, record: string, visited: set<string>)
      requires HasTables(records) && !halted
      modifies this
      ensures Took(Process(records, port, old(requests), url, record, visited))
      decreases AliasNames(records) - visited
    {
      if url in visited {
        halted := true;
        return;
      }
      var result := LocalUrlLookup(records, url);
      var requester := ParseRecord(record);
      if requester.None? {
        halted := true;
        return;
      }
      var req := requester.value;
      if result.None? {
        SendResponse(req.url, NONE, NONE, req.ip, req.port);
        return;
      }
      var kind, value := result.value.kind, result.value.value;
      if kind == A {
        SendResponse(req.url, kind, value, req.ip, req.port);
      } else if kind == V || kind == CNAME {
        if LocalUrlLookup(records, value).Some? {
          ProcessRequest(value, record, visited + {url});
        } else {
          SendResponse(req.url, kind, value, req.ip, req.port);
        }
      } else {
        var server := HostPort(value, port);
        if server.None? {
          halted := true;
          return;
        }
        requests := requests[url := record];
        SendRequest(url, server.value.0, server.value.1);
      }
    }

    method HandleRequest(url: string, addr: string, fromPort: nat)
      requires HasTables(records) && !halted
      modifies this
      ensures Took(Serve(records, port, old(requests), url, addr, fromPort))
    {
      var ip := addr;
      if StartsWith(ip, "/") {
        ip := ip[1..];
      }
      ProcessRequest(url, RequestRecord(url, ip, fromPort), {});
    }

    method HandleResponse(url: string, kind: string, value: string)
      requires HasTables(records) && !halted
      modifies this
      ensures Took(Respond(records, port, old(requests), url, kind, value))
    {
      if url !in requests {
        return;
      }
      var record := requests[url];
      requests := requests - {url};
      var requester := ParseRecord(record);
      if requester.None? {
        halted := true;
        return;
      }
      var req := requester.value;
      if kind == A {
        SendResponse(req.url, value, value, req.ip, req.port);
      } else {
        ProcessRequest(value, record, {});
      }
    }

    /** One turn of run's loop: receive into the buffer, dispatch on the tag, zero-fill. Once an
        exception has escaped, nothing happens any more. */
    method Receive(event: Inbound)
      requires Valid()
      modifies this, buff
      ensures Valid()
      ensures old(halted) ==> halted && requests == old(requests) && sent == old(sent)
      ensures !old(halted) ==> Took(Handle(records, port, old(requests), event))
    {
      if halted {
        return;
      }
      match event
      case ReceiveFailed =>
        halted := true;
      case Received(data, addr, fromPort) =>
        var n := if |data| <= PACKET_SIZE then |data| else PACKET_SIZE;
        forall i | 0 <= i < n {
          buff[i] := data[i];
        }
        assert buff[..] == Frame(data);
        if buff[0] == DNS_REQUEST {
          var url := ParseUrl(buff[..]);
          HandleRequest(url, addr, fromPort);
        } else if buff[0] == DNS_RESPONSE {
          var url := ParseUrl(buff[..]);
          var kind := ParseType(buff[..]);
          var value := ParseValue(buff[..]);
          HandleResponse(url, kind, value);
        }
        if !halted {
          ZeroFill(buff);
        }
    }
  }
}
