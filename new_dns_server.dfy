/** src/NewDns.java: the earlier revision of the resolver. It has no V table, always follows a
    CNAME, answers a delegated A response with the "A" token, drops NS and NONE responses after
    removing the pending entry, and keeps receiving after a receive failure. */
module NewDnsServer {
  import opened JavaText
  import opened Codec
  import opened RecordTables

  /** The three kind tables this revision reads exist. */
  predicate HasTables(records: Tables) {
    A in records && CNAME in records && NS in records
  }

  /** localUrlLookup: A, then CNAME, then getNsDomain; None stands for null. */
  function LocalUrlLookup(records: Tables, url: string): (r: Option<Hit>)
    requires HasTables(records)
    ensures r.Some? && r.value.kind == A ==> url in records[A] && r.value.value == records[A][url]
    ensures r.Some? && r.value.kind == CNAME ==>
              url in records[CNAME] && r.value.value == records[CNAME][url]
    ensures r.Some? && r.value.kind == NS ==> NsDomain(records[NS], url) == Some(r.value.value)
    ensures r.Some? ==> r.value.kind in {A, CNAME, NS}
  {
    var ns := NsDomain(records[NS], url);
    if url in records[A] then Some(Hit(A, records[A][url]))
    else if url in records[CNAME] then Some(Hit(CNAME, records[CNAME][url]))
    else if ns.Some? then Some(Hit(NS, ns.value))
    else None
  }

  function Probes(records: Tables, url: string): seq<(string, Option<string>)>
    requires HasTables(records)
  {
    [(A, Get(records[A], url)), (CNAME, Get(records[CNAME], url)),
     (NS, NsDomain(records[NS], url))]
  }

  /** localUrlLookup is the first hit in the order A, CNAME, NS. */
  lemma LookupIsFirstHit(records: Tables, url: string)
    requires HasTables(records)
    ensures LocalUrlLookup(records, url) == FirstHit(Probes(records, url))
  {
    var p := Probes(records, url);
    assert p[1..] == [p[1], p[2]];
    assert p[1..][1..] == [p[2]];
    assert p[1..][1..][1..] == [];
  }

  // ---------------------------------------------------------------------------------------------
  // the handlers as functions

  /** handleRequest(requestedUrl, requestRecord). `visited` holds the names being processed
      further up the call stack; meeting one again is the StackOverflowError of a CNAME cycle. */
  function Process(records: Tables, port: int, requests: map<string, string>, url: string,
                   record: string, visited: set<string>): (s: Step)
    requires HasTables(records)
    ensures |s.out| <= 1 && (s.crashed ==> s.out == [])
    ensures ParseRecord(record).None? ==> s == Step(requests, [], true)
    ensures forall k :: k in requests ==> k in s.requests
    ensures forall k :: k in s.requests ==>
              (k in requests && s.requests[k] == requests[k]) || s.requests[k] == record
    decreases records[CNAME].Keys - visited
  {
    if url in visited then Step(requests, [], true)
    else
      match ParseRecord(record)
      case None => Step(requests, [], true)
      case Some(req) =>
        match LocalUrlLookup(records, url)
        case None => Reply(requests, req, NONE, NONE)
        case Some(Hit(kind, value)) =>
          if kind == A then Reply(requests, req, A, value)
          else if kind == CNAME then Process(records, port, requests, value, record, visited + {url})
          else Delegate(requests, url, record, value, port)
  }

  /** handleRequest(url, packet). */
  function Serve(records: Tables, port: int, requests: map<string, string>, url: string,
                 addr: string, fromPort: nat): (s: Step)
    requires HasTables(records)
    ensures |s.out| <= 1 && (s.crashed ==> s.out == [])
    ensures forall k :: k in requests ==> k in s.requests
    ensures ':' !in url && ':' !in StripSlash(addr) && fromPort <= INT_MAX && !s.crashed ==>
              && |s.out| == 1
              && (s.out[0].Response? ==>
                    s.out[0].url == url && s.out[0].host == StripSlash(StripSlash(addr))
                    && s.out[0].port == fromPort)
              && (s.out[0].Request? ==>
                    s.requests == requests[s.out[0].url := RequestRecord(url, StripSlash(addr), fromPort)])
  {
    var record := RequestRecord(url, StripSlash(addr), fromPort);
    ProcessShape(records, port, requests, url, record, {});
    if ':' !in url && ':' !in StripSlash(addr) && fromPort <= INT_MAX then
      RecordRoundTrip(url, StripSlash(addr), fromPort);
      Process(records, port, requests, url, record, {})
    else
      Process(records, port, requests, url, record, {})
  }

  /** handleResponse: the pending entry is removed first, without a null check. */
  function Respond(records: Tables, port: int, requests: map<string, string>, url: string,
                   kind: string, value: string): (s: Step)
    requires HasTables(records)
    ensures |s.out| <= 1 && (s.crashed ==> s.out == [])
    ensures forall k :: k in requests && k != url ==> k in s.requests
    ensures url !in requests ==> s.out == [] && (s.crashed <==> kind == A || kind == CNAME)
  {
    var rest := requests - {url};
    if kind == A then
      if url !in requests then Step(rest, [], true)
      else
        match ParseRecord(requests[url])
        case None => Step(rest, [], true)
        case Some(req) => Reply(rest, req, A, value)
    else if kind == CNAME then
      if url !in requests then Step(rest, [], true)
      else Process(records, port, rest, value, requests[url], {})
    else Step(rest, [], false)
  }

  function Dispatch(records: Tables, port: int, requests: map<string, string>, frame: seq<byte>,
                    addr: string, fromPort: nat): (s: Step)
    requires HasTables(records) && |frame| == PACKET_SIZE
    ensures |s.out| <= 1 && (s.crashed ==> s.out == [])
    ensures frame[0] == DNS_REQUEST ==> forall k :: k in requests ==> k in s.requests
    ensures frame[0] != DNS_REQUEST && frame[0] != DNS_RESPONSE ==> s == Step(requests, [], false)
  {
    if frame[0] == DNS_REQUEST then
      Serve(records, port, requests, UrlField(frame), addr, fromPort)
    else if frame[0] == DNS_RESPONSE then
      Respond(records, port, requests, UrlField(frame), TypeField(frame), ValueField(frame))
    else Step(requests, [], false)
  }

  /** One turn of run's loop: a receive failure goes on to the next turn. */
  function Handle(records: Tables, port: int, requests: map<string, string>, event: Inbound)
    : (s: Step)
    requires HasTables(records)
    ensures |s.out| <= 1 && (s.crashed ==> s.out == [])
    ensures event.ReceiveFailed? ==> s == Step(requests, [], false)
  {
    match event
    case ReceiveFailed => Step(requests, [], false)
    case Received(data, addr, fromPort) =>
      Dispatch(records, port, requests, Frame(data), addr, fromPort)
  }

  // ---------------------------------------------------------------------------------------------
  // what handleRequest and handleResponse promise

  /** d answers the requester req with an address or with NONE; never with an alias. */
  predicate Answer(records: Tables, d: Datagram, req: Requester)
    requires HasTables(records)
  {
    && d.Response?
    && d.host == StripSlash(req.ip) && d.port == req.port && d.url == req.url
    && ((d.kind == A && d.value in records[A].Values) || (d.kind == NONE && d.value == NONE))
  }

  /** Whatever the tables: a record that does not parse ends the loop with nothing sent;
      otherwise, unless an exception ends the loop, exactly one datagram goes out: an answer of
      kind A or NONE to the stored requester with the pending map unchanged, or a request for a
      name with the record pending under that name. */
  lemma {:induction false} ProcessShape(records: Tables, port: int, requests: map<string, string>,
                                        url: string, record: string, visited: set<string>)
    requires HasTables(records)
    ensures var s := Process(records, port, requests, url, record, visited);
            && |s.out| <= 1
            && (ParseRecord(record).None? ==> s.crashed && s.out == [])
            && (!s.crashed ==> ParseRecord(record).Some? && |s.out| == 1)
            && (!s.crashed && s.out[0].Response? ==>
                  Answer(records, s.out[0], ParseRecord(record).value) && s.requests == requests)
            && (!s.crashed && s.out[0].Request? ==> s.requests == requests[s.out[0].url := record])
    decreases records[CNAME].Keys - visited
  {
    if url !in visited && ParseRecord(record).Some? {
      var r := LocalUrlLookup(records, url);
      if r.Some? && r.value.kind == CNAME {
        ProcessShape(records, port, requests, r.value.value, record, visited + {url});
      } else if r.Some? && r.value.kind == A {
        assert records[A][url] in records[A].Values;
      }
    }
  }

  /** A CNAME whose target has no local result ends in (original url, NONE, NONE). */
  lemma DanglingAliasAnswersNone(records: Tables, port: int, requests: map<string, string>,
                                 url: string, record: string, visited: set<string>)
    requires HasTables(records) && url !in visited && ParseRecord(record).Some?
    requires ValidPort(ParseRecord(record).value.port)
    requires url !in records[A] && url in records[CNAME]
    requires records[CNAME][url] !in visited
    requires LocalUrlLookup(records, records[CNAME][url]).None?
    ensures var req := ParseRecord(record).value;
            Process(records, port, requests, url, record, visited)
              == Step(requests, [Response(StripSlash(req.ip), req.port, req.url, NONE, NONE)], false)
  {
    var target := records[CNAME][url];
    assert target != url;
    assert Process(records, port, requests, url, record, visited)
        == Process(records, port, requests, target, record, visited + {url});
  }

  /** An A record: exactly one (original url, "A", value) response, pending map unchanged. */
  lemma AHitAnswered(records: Tables, port: int, requests: map<string, string>, url: string,
                     record: string, visited: set<string>)
    requires HasTables(records) && url !in visited && url in records[A]
    requires ParseRecord(record).Some? && ValidPort(ParseRecord(record).value.port)
    ensures var req := ParseRecord(record).value;
            Process(records, port, requests, url, record, visited)
              == Step(requests, [Response(StripSlash(req.ip), req.port, req.url, A,
                                          records[A][url])], false)
  {
  }

  /** An NS record: the record becomes pending under the requested name and one request goes
      to the name server, at host:port or at this server's port. */
  lemma NsHitDelegates(records: Tables, port: int, requests: map<string, string>, url: string,
                       record: string, visited: set<string>)
    requires HasTables(records) && url !in visited && ParseRecord(record).Some?
    requires url !in records[A] && url !in records[CNAME]
    requires NsDomain(records[NS], url).Some?
    requires HostPort(NsDomain(records[NS], url).value, port).Some?
    requires ValidPort(HostPort(NsDomain(records[NS], url).value, port).value.1)
    ensures var server := HostPort(NsDomain(records[NS], url).value, port).value;
            Process(records, port, requests, url, record, visited)
              == Step(requests[url := record], [Request(server.0, server.1, url)], false)
  {
  }

  /** An A or CNAME response nobody is waiting for dereferences null: the loop ends. */
  lemma ResponseWithoutPendingCrashes(records: Tables, port: int,
                                      requests: map<string, string>, url: string, kind: string,
                                      value: string)
    requires HasTables(records) && url !in requests && (kind == A || kind == CNAME)
    ensures Respond(records, port, requests, url, kind, value) == Step(requests, [], true)
  {
    assert requests - {url} == requests;
  }

  /** Any response type other than A and CNAME (NS, NONE, ...) sends nothing, yet the pending
      entry is gone, so the original requester is never answered. */
  lemma OtherResponseDropsRequester(records: Tables, port: int, requests: map<string, string>,
                                    url: string, kind: string, value: string)
    requires HasTables(records) && kind != A && kind != CNAME
    ensures var s := Respond(records, port, requests, url, kind, value);
            s == Step(requests - {url}, [], false) && url !in s.requests
  {
  }

  /** A delegated A answer is forwarded with the "A" token as its type. */
  lemma DelegatedAnswerCarriesA(records: Tables, port: int, requests: map<string, string>,
                                url: string, value: string)
    requires HasTables(records) && url in requests
    requires ParseRecord(requests[url]).Some? && ValidPort(ParseRecord(requests[url]).value.port)
    ensures var req := ParseRecord(requests[url]).value;
            Respond(records, port, requests, url, A, value)
              == Step(requests - {url}, [Response(StripSlash(req.ip), req.port, req.url, A,
                                                  value)], false)
  {
  }

  /** A CNAME response resumes handleRequest on its value for the same requester. */
  lemma CnameResponseResumes(records: Tables, port: int, requests: map<string, string>,
                             url: string, value: string)
    requires HasTables(records) && url in requests
    ensures Respond(records, port, requests, url, CNAME, value)
         == Process(records, port, requests - {url}, value, requests[url], {})
  {
  }

  /** A receive failure changes nothing and the loop goes on. */
  lemma ReceiveFailureContinues(records: Tables, port: int, requests: map<string, string>)
    requires HasTables(records)
    ensures Handle(records, port, requests, ReceiveFailed) == Step(requests, [], false)
  {
  }

  /** A response datagram that fits the buffer reaches handleResponse with its three fields. */
  lemma ResponseDatagramRouted(records: Tables, port: int, requests: map<string, string>,
                               url: string, kind: string, value: string, addr: string,
                               fromPort: nat)
    requires HasTables(records) && IsField(url) && IsField(kind) && IsField(value)
    requires |EncodeResponse(url, kind, value)| <= PACKET_SIZE
    ensures Handle(records, port, requests,
                   Received(EncodeResponse(url, kind, value), addr, fromPort))
         == Respond(records, port, requests, url, kind, value)
  {
    ResponseInBuffer(url, kind, value);
  }

  // ---------------------------------------------------------------------------------------------
  // the server

  class NewDns {
    const port: int
    const records: Tables
    var requests: map<string, string>
    /** Every datagram sent so far, in order. */
    var sent: seq<Datagram>
    /** An exception has escaped run's loop: the server no longer receives. */
    var halted: bool
    /** run's BUFF. */
    const buff: array<byte>

    ghost predicate Valid()
      reads this, buff
    {
      && HasTables(records)
      && buff.Length == PACKET_SIZE
      && (!halted ==> buff[..] == Zeros(PACKET_SIZE))
    }

    twostate predicate Took(s: Step)
      reads this
    {
      requests == s.requests && sent == old(sent) + s.out && halted == s.crashed
    }

    constructor(port: int, records: Tables)
      requires HasTables(records)
      ensures Valid() && fresh(buff)
      ensures this.port == port && this.records == records
      ensures requests == map[] && sent == [] && !halted
    {
      this.port := port;
      this.records := records;
      requests := map[];
      sent := [];
      halted := false;
      buff := new byte[PACKET_SIZE](_ => 0);
    }

    /** socket.send(createResponse(...)) inside a try that catches only IOException. */
    method SendResponse(url: string, kind: string, value: string, destIp: string, destPort: int)
      requires !halted
      modifies this
      ensures requests == old(requests)
      ensures match ResponseDatagram(url, kind, value, destIp, destPort)
              case None => halted && sent == old(sent)
              case Some(d) => !halted && sent == old(sent) + [d]
    {
      match ResponseDatagram(url, kind, value, destIp, destPort)
      case None =>
        halted := true;
      case Some(d) =>
        sent := sent + [d];
    }

    /** socket.send(createRequest(...)) inside a try that catches only IOException. */
    method SendRequest(url: string, destIp: string, destPort: int)
      requires !halted
      modifies this
      ensures requests == old(requests)
      ensures match RequestDatagram(url, destIp, destPort)
              case None => halted && sent == old(sent)
              case Some(d) => !halted && sent == old(sent) + [d]
    {
      match RequestDatagram(url, destIp, destPort)
      case None =>
        halted := true;
      case Some(d) =>
        sent := sent + [d];
    }

    /** handleRequest(requestedUrl, requestRecord). */
    method HandleRequest(url: string, record: string, visited: set<string>)
      requires HasTables(records) && !halted
      modifies this
      ensures Took(Process(records, port, old(requests), url, record, visited))
      decreases records[CNAME].Keys - visited
    {
      if url in visited {
        halted := true;
        return;
      }
      var result := LocalUrlLookup(records, url);
      var requester := ParseRecord(record);
      if requester.None? {
        halted := true;
        return;
      }
      var req := requester.value;
      if result.None? {
        SendResponse(req.url, NONE, NONE, req.ip, req.port);
        return;
      }
      var kind, value := result.value.kind, result.value.value;
      if kind == A {
        SendResponse(req.url, A, value, req.ip, req.port);
      } else if kind == CNAME {
        HandleRequest(value, record, visited + {url});
      } else {
        var server := HostPort(value, port);
        if server.None? {
          halted := true;
          return;
        }
        requests := requests[url := record];
        SendRequest(url, server.value.0, server.value.1);
      }
    }

    /** handleRequest(requestedUrl, requestPacket). */
    method HandlePacket(url: string, addr: string, fromPort: nat)
      requires HasTables(records) && !halted
      modifies this
      ensures Took(Serve(records, port, old(requests), url, addr, fromPort))
    {
      var ip := addr;
      if StartsWith(ip, "/") {
        ip := ip[1..];
      }
      HandleRequest(url, RequestRecord(url, ip, fromPort), {});
    }

    method HandleResponse(url: string, kind: string, value: string)
      requires HasTables(records) && !halted
      modifies this
      ensures Took(Respond(records, port, old(requests), url, kind, value))
    {
      var pending := url in requests;
      var record := if pending then requests[url] else "";
      requests := requests - {url};
      if kind == A {
        if !pending {
          halted := true;
          return;
        }
        var requester := ParseRecord(record);
        if requester.None? {
          halted := true;
          return;
        }
        var req := requester.value;
        SendResponse(req.url, A, value, req.ip, req.port);
      } else if kind == CNAME {
        if !pending {
          halted := true;
          return;
        }
        HandleRequest(value, record, {});
      }
    }

    /** One turn of run's loop. */
    method Receive(event: Inbound)
      requires Valid()
      modifies this, buff
      ensures Valid()
      ensures old(halted) ==> halted && requests == old(requests) && sent == old(sent)
      ensures !old(halted) ==> Took(Handle(records, port, old(requests), event))
    {
      if halted {
        return;
      }
      match event
      case ReceiveFailed =>
        return;
      case Received(data, addr, fromPort) =>
        var n := if |data| <= PACKET_SIZE then |data| else PACKET_SIZE;
        forall i | 0 <= i < n {
          buff[i] := data[i];
        }
        assert buff[..] == Frame(data);
        if buff[0] == DNS_REQUEST {
          var url := ParseUrl(buff[..]);
          HandlePacket(url, addr, fromPort);
        } else if buff[0] == DNS_RESPONSE {
          var url := ParseUrl(buff[..]);
          var kind := ParseType(buff[..]);
          var value := ParseValue(buff[..]);
          HandleResponse(url, kind, value);
        }
        if !halted {
          ZeroFill(buff);
        }
    }
  }
}
