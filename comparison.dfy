/** How the two revisions of the resolver (src/Dns.java and src/NewDns.java) relate on the same
    records, and what the client's dnsLookup makes of each one's answer to a delegated query. */
module Revisions {
  import opened JavaText
  import opened Codec
  import opened RecordTables
  import DnsServer
  import NewDnsServer
  import WebClient

  /** Without V records the two lookups are the same function. */
  lemma LookupsAgree(records: Tables, url: string)
    requires DnsServer.HasTables(records) && records[V] == map[]
    ensures NewDnsServer.HasTables(records)
    ensures DnsServer.LocalUrlLookup(records, url) == NewDnsServer.LocalUrlLookup(records, url)
  {
  }

  /** Without V records, the only place the revisions part ways is an alias whose target has no
      record at all: Dns.java answers with the CNAME record itself, NewDns.java follows it and
      answers NONE to the same requester. Everything else (the pending map, delegation, A
      answers, crashes) is the same. */
  lemma {:induction false} ProcessDiffersOnlyAtDanglingAlias(
    records: Tables, port: int, requests: map<string, string>, url: string, record: string,
    visited: set<string>)
    requires DnsServer.HasTables(records) && records[V] == map[]
    requires visited <= records[CNAME].Keys
    ensures NewDnsServer.HasTables(records)
    ensures var d := DnsServer.Process(records, port, requests, url, record, visited);
            var n := NewDnsServer.Process(records, port, requests, url, record, visited);
            || d == n
            || (&& !d.crashed && |d.out| == 1 && d.out[0].Response? && d.out[0].kind == CNAME
                && d.out[0].value !in records[A] && d.out[0].value !in records[CNAME]
                && n == Step(d.requests, [d.out[0].(kind := NONE, value := NONE)], false))
    decreases records[CNAME].Keys - visited
  {
    LookupsAgree(records, url);
    if url !in visited && ParseRecord(record).Some? {
      var req := ParseRecord(record).value;
      match DnsServer.LocalUrlLookup(records, url)
      case None =>
      case Some(Hit(kind, value)) =>
        if kind == CNAME {
          LookupsAgree(records, value);
          if DnsServer.LocalUrlLookup(records, value).Some? {
            ProcessDiffersOnlyAtDanglingAlias(records, port, requests, value, record,
                                              visited + {url});
          } else {
            assert value !in visited + {url};
            assert NewDnsServer.Process(records, port, requests, value, record, visited + {url})
                == Reply(requests, req, NONE, NONE);
          }
        }
    }
  }

  /** What the client's dnsLookup gets when the resolver puts d on the wire and the reply fits
      the client's buffer. */
  function ClientLookup(name: string, d: Datagram): Option<string>
    requires |Payload(d)| <= PACKET_SIZE
  {
    WebClient.DnsLookup(name, Some(Frame(Payload(d))))
  }

  /** A delegated A answer relayed by Dns.java carries the address where the type belongs, so
      the client accepts it only when the address is literally "A", and then takes "A" as the
      address. */
  lemma DnsDelegatedAnswerRejected(records: Tables, port: int, requests: map<string, string>,
                                   url: string, address: string)
    requires DnsServer.HasTables(records) && url in requests
    requires ParseRecord(requests[url]).Some? && ValidPort(ParseRecord(requests[url]).value.port)
    requires url != "localhost" && IsField(url) && IsField(address)
    requires ParseRecord(requests[url]).value.url == url
    requires |EncodeResponse(url, address, address)| <= PACKET_SIZE
    ensures var s := DnsServer.Respond(records, port, requests, url, A, address);
            && |s.out| == 1
            && ClientLookup(url, s.out[0]) == if address == A then Some(A) else None
  {
    DnsServer.DelegatedAnswerCarriesValueAsType(records, port, requests, url, address);
    if address == A {
      WebClient.AnswerAccepted(url, url, address);
    } else {
      WebClient.OtherTypeRejected(url, url, address, address);
    }
  }

  /** The same delegated answer relayed by NewDns.java reaches the client as the address. */
  lemma NewDnsDelegatedAnswerAccepted(records: Tables, port: int, requests: map<string, string>,
                                      url: string, address: string)
    requires NewDnsServer.HasTables(records) && url in requests
    requires ParseRecord(requests[url]).Some? && ValidPort(ParseRecord(requests[url]).value.port)
    requires url != "localhost" && IsField(url) && IsField(address)
    requires ParseRecord(requests[url]).value.url == url
    requires |EncodeResponse(url, A, address)| <= PACKET_SIZE
    ensures var s := NewDnsServer.Respond(records, port, requests, url, A, address);
            && |s.out| == 1
            && ClientLookup(url, s.out[0]) == Some(address)
  {
    NewDnsServer.DelegatedAnswerCarriesA(records, port, requests, url, address);
    WebClient.AnswerAccepted(url, url, address);
  }
}
