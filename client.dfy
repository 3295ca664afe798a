/** The decision logic of src/Client.java: the literal-IP test, the file-name helpers, the
    "http://" normaliser, the reading of a resolver reply, and where get connects. */
module WebClient {
  import opened JavaText
  import opened Codec

  /** The client's settings; the constructor uses the DNS port for both ends of a lookup. */
  datatype Settings = Settings(webPort: int, dnsPort: int, myDnsPort: int, localDnsIp: string)

  function NewClient(webPort: int, dnsPort: int, localDnsIp: string): (c: Settings)
    ensures c.webPort == webPort && c.dnsPort == dnsPort && c.localDnsIp == localDnsIp
    ensures c.myDnsPort == c.dnsPort
  {
    Settings(webPort, dnsPort, dnsPort, localDnsIp)
  }

  // ---------------------------------------------------------------------------------------------
  // isIp

  /** One group of the pattern: [01]?\d\d? | 2[0-4]\d | 25[0-5], alternative by alternative
      (\d is an ASCII digit). */
  predicate OctetPattern(g: string)
    ensures OctetPattern(g) ==> 1 <= |g| <= 3 && AllDigits(g)
  {
    || (|g| == 1 && IsDigit(g[0]))
    || (|g| == 2 && IsDigit(g[0]) && IsDigit(g[1]))
    || (|g| == 3 && (g[0] == '0' || g[0] == '1') && IsDigit(g[1]) && IsDigit(g[2]))
    || (|g| == 3 && g[0] == '2' && '0' <= g[1] <= '4' && IsDigit(g[2]))
    || (|g| == 3 && g[0] == '2' && g[1] == '5' && '0' <= g[2] <= '5')
  }

  /** isIp: the whole string is four groups separated by '.'. */
  predicate IsIp(s: string)
    ensures IsIp(s) ==> 7 <= |s| <= 15 && '.' in s
  {
    var groups := Pieces(s, '.');
    if |groups| == 4 && forall i :: 0 <= i < 4 ==> OctetPattern(groups[i]) then
      JoinOfPieces(s, '.');
      JoinOfFour(groups, '.');
      true
    else
      false
  }

  /** Four pieces glued with a separator: their lengths and the three separators. */
  lemma JoinOfFour(gs: seq<string>, c: char)
    requires |gs| == 4
    ensures |Join(gs, c)| == |gs[0]| + |gs[1]| + |gs[2]| + |gs[3]| + 3
  {
    var t1, t2 := gs[1..], gs[2..];
    assert t1[1..] == t2 && t2[1..] == [gs[3]];
    assert |Join(t2, c)| == |gs[2]| + 1 + |gs[3]|;
    assert |Join(t1, c)| == |gs[1]| + 1 + |Join(t2, c)|;
  }

  function Digit(c: char): int {
    c as int - '0' as int
  }

  lemma ShortDigitsValue(g: string)
    requires 1 <= |g| <= 3 && AllDigits(g)
    ensures |g| == 1 ==> DigitsValue(g) == Digit(g[0])
    ensures |g| == 2 ==> DigitsValue(g) == 10 * Digit(g[0]) + Digit(g[1])
    ensures |g| == 3 ==> DigitsValue(g) == 100 * Digit(g[0]) + 10 * Digit(g[1]) + Digit(g[2])
  {
    assert DigitsValue(g[..1]) == Digit(g[0]) by {
      assert g[..1][..0] == [];
    }
    if |g| >= 2 {
      assert g[..2][..1] == g[..1];
      assert DigitsValue(g[..2]) == 10 * Digit(g[0]) + Digit(g[1]);
      if |g| == 3 {
        assert DigitsValue(g) == DigitsValue(g[..2]) * 10 + Digit(g[2]);
      } else {
        assert g[..1] == g[..|g| - 1];
      }
    } else {
      assert g[..0] == [];
    }
  }

  /** A group matches the pattern exactly when it is one to three digits of value at most 255
      (leading zeros allowed). */
  lemma OctetPatternValue(g: string)
    ensures OctetPattern(g) <==> 1 <= |g| <= 3 && AllDigits(g) && DigitsValue(g) <= 255
  {
    if 1 <= |g| <= 3 && AllDigits(g) {
      ShortDigitsValue(g);
    }
  }

  /** The dotted-quad text of four numbers up to 255. */
  function DottedQuad(a: nat, b: nat, c: nat, d: nat): string {
    NatToString(a) + "." + NatToString(b) + "." + NatToString(c) + "." + NatToString(d)
  }

  lemma {:induction false} SmallNatDigits(n: nat)
    requires n <= 255
    ensures 1 <= |NatToString(n)| <= 3 && AllDigits(NatToString(n))
  {
    if n >= 10 {
      SmallNatDigits(n / 10);
    }
  }

  /** Every address printed as four numbers up to 255 is recognised as an IP. */
  lemma DottedQuadIsIp(a: nat, b: nat, c: nat, d: nat)
    requires a <= 255 && b <= 255 && c <= 255 && d <= 255
    ensures IsIp(DottedQuad(a, b, c, d))
  {
    var ps := [NatToString(a), NatToString(b), NatToString(c), NatToString(d)];
    forall i | 0 <= i < 4
      ensures '.' !in ps[i] && OctetPattern(ps[i])
    {
      var n := [a, b, c, d][i];
      assert ps[i] == NatToString(n);
      SmallNatDigits(n);
      NatToStringValue(n);
      OctetPatternValue(ps[i]);
      assert forall j :: 0 <= j < |ps[i]| ==> IsDigit(ps[i][j]);
    }
    assert DottedQuad(a, b, c, d) == Join(ps, '.') by {
      assert ps[1..][1..][1..] == [ps[3]];
      assert Join(ps[1..][1..], '.') == ps[2] + "." + ps[3];
      assert Join(ps[1..], '.') == ps[1] + "." + ps[2] + "." + ps[3];
    }
    PiecesOfJoin(ps, '.');
  }

  // ---------------------------------------------------------------------------------------------
  // file names

  /** getExtension on url.getFile(): from the last '.' on, or ".txt" when there is none. */
  function GetExtension(file: string): (ext: string)
    ensures '.' !in file ==> ext == ".txt"
    ensures '.' in file ==> |ext| >= 1 && ext[0] == '.' && '.' !in ext[1..]
    ensures '.' in file ==> |ext| <= |file| && file == file[..|file| - |ext|] + ext
  {
    var i := LastIndexOf(file, '.');
    if i == -1 then ".txt"
    else
      assert file[i..][1..] == file[i + 1..];
      file[i..]
  }

  /** getLocalFileName on url.getFile(): "downloaded_" and the file without one leading '/'. */
  function GetLocalFileName(file: string): (name: string)
    ensures StartsWith(name, "downloaded_")
    ensures StartsWith(file, "/") ==> name == "downloaded_" + file[1..]
    ensures !StartsWith(file, "/") ==> name == "downloaded_" + file
  {
    "downloaded_" + StripSlash(file)
  }

  /** toUrl's text: "http://" in front unless it is there already. */
  function ToUrl(raw: string): (url: string)
    ensures StartsWith(url, "http://")
    ensures StartsWith(raw, "http://") ==> url == raw
    ensures !StartsWith(raw, "http://") ==> url == "http://" + raw
  {
    if StartsWith(raw, "http://") then raw else "http://" + raw
  }

  /** Prefixing is idempotent. */
  lemma ToUrlIdempotent(raw: string)
    ensures ToUrl(ToUrl(raw)) == ToUrl(raw)
  {
  }

  // ---------------------------------------------------------------------------------------------
  // dnsLookup and get

  /** dnsLookup: "localhost" is its own address and needs no query; otherwise the reply buffer
      (None when the exchange failed) must carry the type "A", and its value is the address.
      None stands for the exceptions that make get give up. */
  function DnsLookup(url: string, reply: Option<seq<byte>>): (r: Option<string>)
    ensures url == "localhost" ==> r == Some(url)
    ensures url != "localhost" && reply.None? ==> r.None?
    ensures url != "localhost" && reply.Some? ==>
              r == if TypeField(reply.value) == "A" then Some(ValueField(reply.value)) else None
  {
    if url == "localhost" then Some(url)
    else
      match reply
      case None => None
      case Some(frame) =>
        if TypeField(frame) == "A" then Some(ValueField(frame)) else None
  }

  /** Where get opens its connection and what it asks for. */
  datatype Target = Target(host: string, port: int, path: string)

  /** get's choices before the connection: the URL's port unless it is -1 (then the web port),
      the host as is when it is a literal IP and otherwise through dnsLookup, and "/" for an
      empty path. None: the lookup failed. */
  function Destination(c: Settings, urlPort: int, urlHost: string, urlPath: string,
                       reply: Option<seq<byte>>): (r: Option<Target>)
    ensures IsIp(urlHost) ==> r.Some? && r.value.host == urlHost
    ensures !IsIp(urlHost) ==> (r.Some? <==> DnsLookup(urlHost, reply).Some?)
    ensures !IsIp(urlHost) && r.Some? ==> r.value.host == DnsLookup(urlHost, reply).value
    ensures r.Some? ==> r.value.port == (if urlPort != -1 then urlPort else c.webPort)
    ensures r.Some? ==> r.value.path == (if urlPath == "" then "/" else urlPath)
  {
    var port := if urlPort != -1 then urlPort else c.webPort;
    var path := if urlPath == "" then "/" else urlPath;
    if IsIp(urlHost) then Some(Target(urlHost, port, path))
    else
      match DnsLookup(urlHost, reply)
      case None => None
      case Some(host) => Some(Target(host, port, path))
  }

  /** A literal IP never consults the resolver: the reply does not matter. */
  lemma LiteralIpBypassesDns(c: Settings, urlPort: int, urlHost: string, urlPath: string,
                             reply1: Option<seq<byte>>, reply2: Option<seq<byte>>)
    requires IsIp(urlHost)
    ensures Destination(c, urlPort, urlHost, urlPath, reply1)
         == Destination(c, urlPort, urlHost, urlPath, reply2)
  {
  }

  /** A resolver reply that carries ("A", address) in a zero-filled buffer yields the address. */
  lemma AnswerAccepted(url: string, name: string, address: string)
    requires url != "localhost" && IsField(name) && IsField(address)
    requires |EncodeResponse(name, "A", address)| <= PACKET_SIZE
    ensures DnsLookup(url, Some(Frame(EncodeResponse(name, "A", address)))) == Some(address)
  {
    ResponseInBuffer(name, "A", address);
  }

  /** A reply whose type is anything but "A" makes the lookup fail. */
  lemma OtherTypeRejected(url: string, name: string, kind: string, value: string)
    requires url != "localhost" && IsField(name) && IsField(kind) && IsField(value)
    requires kind != "A"
    requires |EncodeResponse(name, kind, value)| <= PACKET_SIZE
    ensures DnsLookup(url, Some(Frame(EncodeResponse(name, kind, value)))).None?
  {
    ResponseInBuffer(name, kind, value);
  }
}
