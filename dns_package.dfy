/** src/dns/DNS.java: the text-based server of the dns package. A packet is the text
    "request <url>" or "response ...", padded with zero bytes to the 1500-byte receive buffer;
    every request is answered with whatever findEntry returns, and a request can be handed on to
    a name server after being recorded in the tracker. */
module DnsPackage {
  import opened JavaText
  import opened Codec
  import opened RecordTables
  import opened RequestTracker
  import opened DnsDatabase

  const PACKET_DATA_LENGTH: nat := 1500

  const DNS_MALFORMED: int := -1
  const DNS_REQUEST_TYPE: int := 0
  const DNS_RESPONSE_TYPE: int := 1

  /** What the server puts on the wire: an answer carrying a database entry to the sender of a
      request, or a request handed on to a name server. */
  datatype Packet =
    | Answer(host: string, port: int, entry: DbEntry)
    | Query(host: string, port: int, request: DnsRequest)

  /** receivePacket.getData(): a fresh zeroed 1500-byte array with the datagram at the front. */
  function ReceiveBuffer(data: seq<byte>): (b: seq<byte>)
    ensures |b| == PACKET_DATA_LENGTH
    ensures |data| <= PACKET_DATA_LENGTH ==> b == data + Zeros(PACKET_DATA_LENGTH - |data|)
  {
    var n := if |data| <= PACKET_DATA_LENGTH then |data| else PACKET_DATA_LENGTH;
    assert |data| <= PACKET_DATA_LENGTH ==> data[..n] == data;
    data[..n] + Zeros(PACKET_DATA_LENGTH - n)
  }

  /** parsedDataFrom: the trimmed text split on single spaces. */
  function ParsedDataFrom(buffer: seq<byte>): (parts: seq<string>)
    ensures forall i :: 0 <= i < |parts| ==> ' ' !in parts[i]
  {
    Split(Trim(Text(buffer)), ' ')
  }

  /** Nothing is lost in the split: there is at least one token, and the tokens joined by single
      spaces are the trimmed text. */
  lemma ParsedDataJoinsBack(buffer: seq<byte>)
    ensures |ParsedDataFrom(buffer)| >= 1
    ensures Join(ParsedDataFrom(buffer), ' ') == Trim(Text(buffer))
  {
    SplitJoinsBack(Trim(Text(buffer)), ' ');
  }

  /** determinedReceivedPacketTypeFrom (split never yields null). */
  function PacketType(data: seq<string>): (t: int)
    ensures t in {DNS_MALFORMED, DNS_REQUEST_TYPE, DNS_RESPONSE_TYPE}
    ensures t == DNS_REQUEST_TYPE <==> |data| >= 2 && data[0] == "request"
    ensures t == DNS_RESPONSE_TYPE <==> |data| >= 2 && data[0] == "response"
  {
    if |data| < 2 then DNS_MALFORMED
    else if data[0] == "request" then DNS_REQUEST_TYPE
    else if data[0] == "response" then DNS_RESPONSE_TYPE
    else DNS_MALFORMED
  }

  /** Words of printable ASCII glued with single spaces: ASCII throughout, and starting and
      ending with a non-blank. */
  lemma {:induction false} JoinOfWords(ws: seq<string>)
    requires |ws| >= 1
    requires forall i :: 0 <= i < |ws| ==> IsField(ws[i]) && ws[i] != ""
    ensures var s := Join(ws, ' ');
            && (forall i :: 0 <= i < |s| ==> s[i] as int < 128)
            && s != [] && !IsBlank(s[0]) && !IsBlank(s[|s| - 1])
  {
    if |ws| > 1 {
      JoinOfWords(ws[1..]);
      var rest := Join(ws[1..], ' ');
      var s := ws[0] + [' '] + rest;
      assert forall i :: |ws[0]| < i < |s| ==> s[i] == rest[i - |ws[0]| - 1];
    }
  }

  /** A packet made of such words, as it arrives in the receive buffer, is read back as
      exactly those words. */
  lemma WordsRoundTrip(ws: seq<string>)
    requires |ws| >= 1
    requires forall i :: 0 <= i < |ws| ==> IsField(ws[i]) && ws[i] != ""
    requires |Join(ws, ' ')| <= PACKET_DATA_LENGTH
    ensures ParsedDataFrom(ReceiveBuffer(Bytes(Join(ws, ' ')))) == ws
  {
    var s := Join(ws, ' ');
    JoinOfWords(ws);
    var pad := Zeros(PACKET_DATA_LENGTH - |s|);
    var text := Text(ReceiveBuffer(Bytes(s)));
    assert text == s + Text(pad) by {
      assert forall i :: 0 <= i < |s| ==> text[i] == s[i];
    }
    TrimDropsTrailingBlanks(s, Text(pad));
    if |ws| == 1 {
      assert ' ' !in s;
    } else {
      assert ws[|ws| - 1] != "";
      forall i | 0 <= i < |ws|
        ensures ' ' !in ws[i]
      {
        assert forall j :: 0 <= j < |ws[i]| ==> ' ' < ws[i][j];
      }
      SplitOfJoin(ws, ' ');
    }
  }

  /** "request <url>" is classified as a request for url. */
  lemma RequestRecognised(url: string)
    requires IsField(url) && url != "" && |url| + 8 <= PACKET_DATA_LENGTH
    ensures var parts := ParsedDataFrom(ReceiveBuffer(Bytes("request " + url)));
            PacketType(parts) == DNS_REQUEST_TYPE && parts[1] == url
  {
    var ws := ["request", url];
    assert Join(ws, ' ') == "request " + url by {
      assert ws[1..] == [url];
    }
    WordsRoundTrip(ws);
  }

  /** A buffer of zeros (what is handled after a failed receive) is malformed. */
  lemma EmptyBufferMalformed()
    ensures PacketType(ParsedDataFrom(ReceiveBuffer([]))) == DNS_MALFORMED
  {
    var text := Text(ReceiveBuffer([]));
    assert AllBlank(text);
    assert Trim(text) == "";
  }

  /** getHostNameFromString: the last two labels of split("\\."), or None (null) for fewer
      than two. Java's two branches for more than two and exactly two labels do the same. */
  function HostName(hostname: string): (r: Option<string>)
    ensures r.Some? <==> |Split(hostname, '.')| >= 2
    ensures '.' !in hostname ==> r.None?
  {
    var parts := Split(hostname, '.');
    if |parts| >= 2 then Some(parts[|parts| - 2] + "." + parts[|parts| - 1]) else None
  }

  /** For a dotted name of labels with a non-empty last label, the host name is the last two
      labels. */
  lemma HostNameOfLabels(labels: seq<string>)
    requires |labels| >= 2 && labels[|labels| - 1] != ""
    requires forall i :: 0 <= i < |labels| ==> '.' !in labels[i]
    ensures HostName(Join(labels, '.'))
         == Some(labels[|labels| - 2] + "." + labels[|labels| - 1])
  {
    SplitOfJoin(labels, '.');
  }

  /** Taking the host name twice changes nothing more. */
  lemma HostNameIdempotent(hostname: string)
    requires HostName(hostname).Some?
    ensures HostName(HostName(hostname).value) == HostName(hostname)
  {
    var parts := Split(hostname, '.');
    assert '.' in hostname;
    assert parts == DropTrailingEmpty(Pieces(hostname, '.'));
    var last2 := [parts[|parts| - 2], parts[|parts| - 1]];
    assert Join(last2, '.') == HostName(hostname).value by {
      assert last2[1..] == [parts[|parts| - 1]];
    }
    HostNameOfLabels(last2);
  }

  class Server {
    const port: int
    const db: Database
    const tracker: Tracker
    var sent: seq<Packet>

    /** new DNS(port, filename) with the file's lines already tokenised. */
    constructor(port: int, lines: seq<(string, string, string)>)
      ensures this.port == port && fresh(db) && fresh(tracker)
      ensures db.db == Loaded(lines) && tracker.db == map[] && sent == []
    {
      var t := new Tracker();
      var d := Populate(lines);
      this.tracker := t;
      this.port := port;
      this.db := d;
      this.sent := [];
    }

    /** handleReceivedRequest: findEntry never returns null, so every request is answered with
        its entry (EMPTY on a miss) and the name-server branches are never taken. */
    method HandleReceivedRequest(request: DnsRequest)
      modifies this
      ensures sent == old(sent) + [Answer(request.senderIp, request.senderPort,
                                          db.FindEntry(request.url))]
    {
      sent := sent + [Answer(request.senderIp, request.senderPort, db.FindEntry(request.url))];
    }

    /** startRecursiveQuery: record the request under its url, then ask the name server that
        the NS entry names, on this server's own port. */
    method StartRecursiveQuery(request: DnsRequest, nsRecord: DbEntry)
      modifies this, tracker
      ensures tracker.db == old(tracker.db)[request.url := Some(request)]
      ensures sent == old(sent) + [Query(nsRecord.entry, port, request)]
    {
      var _ := tracker.AddRequest(request.url, request);
      sent := sent + [Query(nsRecord.entry, port, request)];
    }

    /** handleReceivedPacket on the buffer of one receive: a request (its url is the second
        token) is answered, a response goes to handleReceivedResponse, which does nothing, and
        anything else is dropped. The tracker is never touched. */
    method HandleReceivedPacket(buffer: seq<byte>, addr: string, fromPort: int)
      modifies this
      ensures var parts := ParsedDataFrom(buffer);
              sent == old(sent) + if PacketType(parts) == DNS_REQUEST_TYPE
                                  then [Answer(addr, fromPort, db.FindEntry(parts[1]))]
                                  else []
    {
      var parts := ParsedDataFrom(buffer);
      var kind := PacketType(parts);
      if kind == DNS_REQUEST_TYPE {
        HandleReceivedRequest(DnsRequest(parts[1], addr, fromPort));
      }
    }

    /** One turn of openConnection's loop. A failed receive is logged and the untouched zeroed
        buffer is handled anyway, as a malformed packet. */
    method Receive(event: Inbound)
      modifies this
      ensures event.ReceiveFailed? ==> sent == old(sent)
      ensures event.Received? ==>
                var parts := ParsedDataFrom(ReceiveBuffer(event.data));
                sent == old(sent) + if PacketType(parts) == DNS_REQUEST_TYPE
                                    then [Answer(event.addr, event.fromPort,
                                                 db.FindEntry(parts[1]))]
                                    else []
    {
      match event
      case ReceiveFailed =>
        EmptyBufferMalformed();
        HandleReceivedPacket(ReceiveBuffer([]), "", 0);
      case Received(data, addr, fromPort) =>
        HandleReceivedPacket(ReceiveBuffer(data), addr, fromPort);
    }
  }
}
