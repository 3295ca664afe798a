/** The datagram codec that both resolver revisions share (src/Dns.java and src/NewDns.java carry
    identical copies): the payloads built by createRequest and createResponse, the reused receive
    buffer, findNIndex, the parseUrl / parseType / parseValue field extractors, the serialised
    requester record "orig:ip:port" and the destinations the two create helpers compute. */
module Codec {
  import opened JavaText

  newtype byte = x: int | 0 <= x < 256

  const PACKET_SIZE: nat := 1026
  const DNS_RESPONSE: byte := 1
  const DNS_REQUEST: byte := 2
  const SPACE: byte := 32

  // ---------------------------------------------------------------------------------------------
  // characters and bytes (the platform charset is taken to be US-ASCII)

  function ByteOf(c: char): byte {
    if c as int < 128 then c as int as byte else 63
  }

  /** String.getBytes: one byte per character, '?' for a character outside ASCII. */
  function Bytes(s: string): (b: seq<byte>)
    ensures |b| == |s|
    ensures forall i :: 0 <= i < |s| ==> b[i] == ByteOf(s[i])
  {
    seq(|s|, i requires 0 <= i < |s| => ByteOf(s[i]))
  }

  function CharOf(b: byte): char {
    if b < 128 then b as int as char else '�'
  }

  /** new String(bytes): one character per byte, U+FFFD for a byte outside ASCII. */
  function Text(b: seq<byte>): (s: string)
    ensures |s| == |b|
    ensures forall i :: 0 <= i < |b| ==> s[i] == CharOf(b[i])
  {
    seq(|b|, i requires 0 <= i < |b| => CharOf(b[i]))
  }

  /** A field that crosses the wire unchanged: printable ASCII, nothing that trim removes. */
  predicate IsField(s: string) {
    forall i :: 0 <= i < |s| ==> ' ' < s[i] && s[i] as int < 128
  }

  lemma FieldBytes(s: string)
    requires IsField(s)
    ensures SPACE !in Bytes(s)
    ensures Text(Bytes(s)) == s
    ensures NoBlank(s)
  {
    assert forall i :: 0 <= i < |s| ==> Bytes(s)[i] as int == s[i] as int;
  }

  function Zeros(k: nat): (z: seq<byte>)
    ensures |z| == k
    ensures forall i :: 0 <= i < k ==> z[i] == 0
  {
    seq(k, _ => 0)
  }

  // ---------------------------------------------------------------------------------------------
  // payloads

  /** createRequest's payload: String.format("\2%s", url). */
  function EncodeRequest(url: string): (p: seq<byte>)
    ensures |p| == 1 + |url| && p[0] == DNS_REQUEST
    ensures IsField(url) ==> SPACE !in p && Text(p[1..]) == url
  {
    var p := [DNS_REQUEST] + Bytes(url);
    assert p[1..] == Bytes(url);
    if IsField(url) then
      FieldBytes(url);
      p
    else
      p
  }

  /** createResponse's payload: String.format("\1%s %s %s", url, type, value). */
  function EncodeResponse(url: string, kind: string, value: string): (p: seq<byte>)
    ensures |p| == 3 + |url| + |kind| + |value| && p[0] == DNS_RESPONSE
    ensures IsField(url) && IsField(kind) && IsField(value) ==>
              && NthIndex(p, SPACE, 0) == 1 + |url|
              && NthIndex(p, SPACE, 1) == 2 + |url| + |kind|
              && NthIndex(p, SPACE, 2) == -1
  {
    var p := [DNS_RESPONSE] + Bytes(url + " " + kind + " " + value);
    if IsField(url) && IsField(kind) && IsField(value) then
      FieldBytes(url);
      FieldBytes(kind);
      FieldBytes(value);
      BytesOfResponse(url, kind, value);
      Regroup(DNS_RESPONSE, Bytes(url), Bytes(kind), Bytes(value), []);
      assert Bytes(value) + [] == Bytes(value);
      assert p + [] == p;
      SpacePositions([DNS_RESPONSE] + Bytes(url), Bytes(kind), Bytes(value));
      p
    else
      p
  }

  /** What the reused receive buffer holds after it was zero-filled and then received data: the
      datagram (cut to the buffer's length) followed by the zeros of the last fill. */
  function Frame(data: seq<byte>): (f: seq<byte>)
    ensures |f| == PACKET_SIZE
    ensures |data| <= PACKET_SIZE ==> f == data + Zeros(PACKET_SIZE - |data|)
  {
    var n := if |data| <= PACKET_SIZE then |data| else PACKET_SIZE;
    assert |data| <= PACKET_SIZE ==> data[..n] == data;
    data[..n] + Zeros(PACKET_SIZE - n)
  }

  // ---------------------------------------------------------------------------------------------
  // findNIndex

  /** How often b occurs in s. */
  function Count(s: seq<byte>, b: byte): nat {
    if |s| == 0 then 0 else (if s[0] == b then 1 else 0) + Count(s[1..], b)
  }

  function Shift(k: int, offset: nat): int {
    if k == -1 then -1 else k + offset
  }

  /** The index of the (nth+1)-th occurrence of b in s (any nth <= 0 asks for the first), or -1. */
  function NthIndex(s: seq<byte>, b: byte, nth: int): (r: int)
    ensures -1 <= r < |s|
  {
    if |s| == 0 then -1
    else if s[0] == b && nth <= 0 then 0
    else Shift(NthIndex(s[1..], b, if s[0] == b then nth - 1 else nth), 1)
  }

  /** NthIndex against counting: -1 exactly when there are at most max(nth, 0) occurrences, and
      otherwise an occurrence with exactly max(nth, 0) occurrences before it. */
  lemma {:induction false} NthIndexCounts(s: seq<byte>, b: byte, nth: int)
    ensures var r := NthIndex(s, b, nth);
            var n := if nth < 0 then 0 else nth;
            && (r == -1 <==> Count(s, b) <= n)
            && (r != -1 ==> s[r] == b && Count(s[..r], b) == n)
  {
    if |s| > 0 {
      NthIndexCounts(s[1..], b, if s[0] == b then nth - 1 else nth);
      var r := NthIndex(s, b, nth);
      if r > 0 {
        assert s[..r][1..] == s[1..][..r - 1];
      }
    }
  }

  lemma {:induction false} NthIndexOrdered(s: seq<byte>, b: byte, n: nat)
    requires NthIndex(s, b, n + 1) != -1
    ensures NthIndex(s, b, n) != -1 && NthIndex(s, b, n) < NthIndex(s, b, n + 1)
  {
    if s[0] == b {
      if n > 0 {
        NthIndexOrdered(s[1..], b, n - 1);
      }
    } else {
      NthIndexOrdered(s[1..], b, n);
    }
  }

  lemma {:induction false} NthIndexSkip(a: seq<byte>, rest: seq<byte>, b: byte, nth: int)
    requires b !in a
    ensures NthIndex(a + rest, b, nth) == Shift(NthIndex(rest, b, nth), |a|)
  {
    if |a| == 0 {
      assert a + rest == rest;
    } else {
      assert (a + rest)[1..] == a[1..] + rest;
      NthIndexSkip(a[1..], rest, b, nth);
    }
  }

  /** findNIndex: a scan that counts matches down from nth. It only reads the buffer, so it is
      given the buffer's contents. */
  method FindNIndex(values: seq<byte>, searchFor: byte, nth: int) returns (r: int)
    ensures r == NthIndex(values, searchFor, nth)
  {
    var n := nth;
    var i := 0;
    while i < |values|
      invariant 0 <= i <= |values|
      invariant NthIndex(values, searchFor, nth) == Shift(NthIndex(values[i..], searchFor, n), i)
    {
      assert values[i..][1..] == values[i + 1..];
      if values[i] == searchFor {
        if n <= 0 {
          return i;
        }
        n := n - 1;
      }
      i := i + 1;
    }
    return -1;
  }

  // ---------------------------------------------------------------------------------------------
  // parseUrl, parseType, parseValue

  /** new String(Arrays.copyOfRange(data, from, to)).trim() */
  function Between(data: seq<byte>, from: int, to: int): string
    requires 0 <= from <= to <= |data|
  {
    Trim(Text(data[from..to]))
  }

  /** Where a field ends: at the given occurrence of b, or at the end when there is none. A field
      never ends before the previous occurrence, so copyOfRange never throws in parseType and
      parseValue. */
  function EndIndex(s: seq<byte>, b: byte, nth: int): (e: int)
    ensures 0 <= e <= |s|
    ensures nth >= 1 ==> NthIndex(s, b, nth - 1) + 1 <= e
  {
    var r := NthIndex(s, b, nth);
    if r == -1 then |s|
    else if nth < 1 then r
    else
      NthIndexOrdered(s, b, nth - 1);
      r
  }

  /** No match of b comes before the first one (anywhere, when there is none). */
  lemma {:induction false} NoMatchBeforeFirst(s: seq<byte>, b: byte)
    ensures forall i :: 0 <= i < |s| && (NthIndex(s, b, 0) == -1 || i < NthIndex(s, b, 0))
                        ==> s[i] != b
  {
    if |s| > 0 && s[0] != b {
      NoMatchBeforeFirst(s[1..], b);
      assert forall i :: 1 <= i < |s| ==> s[i] == s[1..][i - 1];
    }
  }

  /** No match of b lies strictly between the (n+1)-th and the (n+2)-th (or the end). */
  lemma {:induction false} NoMatchInGap(s: seq<byte>, b: byte, n: nat)
    requires NthIndex(s, b, n) != -1
    ensures forall i :: NthIndex(s, b, n) < i < |s|
                        && (NthIndex(s, b, n + 1) == -1 || i < NthIndex(s, b, n + 1))
                        ==> s[i] != b
  {
    assert forall i :: 1 <= i < |s| ==> s[i] == s[1..][i - 1];
    if s[0] == b {
      if n == 0 {
        NoMatchBeforeFirst(s[1..], b);
      } else {
        NoMatchInGap(s[1..], b, n - 1);
      }
    } else {
      NoMatchInGap(s[1..], b, n);
    }
  }

  /** A copied range without a space byte gives a trimmed text without a space. */
  lemma BetweenWithoutSpace(data: seq<byte>, from: int, to: int)
    requires 0 <= from <= to <= |data|
    requires forall i :: from <= i < to ==> data[i] != SPACE
    ensures ' ' !in Between(data, from, to)
  {
    var x := Text(data[from..to]);
    assert ' ' !in x by {
      assert forall i :: 0 <= i < |x| ==> x[i] == CharOf(data[from + i]);
    }
    var r := Trim(x);
    if !AllBlank(x) {
      var st := LeadingBlanks(x);
      assert forall i :: 0 <= i < |r| ==> r[i] == x[st + i];
    }
  }

  /** parseUrl: from after the tag byte up to the first space (or the end), trimmed. The tag
      must not itself be a space: Arrays.copyOfRange(data, 1, 0) throws. */
  function UrlField(data: seq<byte>): (url: string)
    requires |data| >= 1 && data[0] != SPACE
    ensures ' ' !in url
    ensures url == [] || (!IsBlank(url[0]) && !IsBlank(url[|url| - 1]))
  {
    NoMatchBeforeFirst(data, SPACE);
    BetweenWithoutSpace(data, 1, EndIndex(data, SPACE, 0));
    Between(data, 1, EndIndex(data, SPACE, 0))
  }

  /** parseType: between the first and the second space (or the end), trimmed. With no space
      at all the copy starts at index 0. */
  function TypeField(data: seq<byte>): (kind: string)
    ensures ' ' !in kind
    ensures kind == [] || (!IsBlank(kind[0]) && !IsBlank(kind[|kind| - 1]))
  {
    var from, to := NthIndex(data, SPACE, 0) + 1, EndIndex(data, SPACE, 1);
    if from == 0 then
      NoMatchBeforeFirst(data, SPACE);
      assert NthIndex(data, SPACE, 1) == -1 by {
        if NthIndex(data, SPACE, 1) != -1 {
          NthIndexOrdered(data, SPACE, 0);
        }
      }
      BetweenWithoutSpace(data, from, to);
      Between(data, from, to)
    else
      NoMatchInGap(data, SPACE, 0);
      BetweenWithoutSpace(data, from, to);
      Between(data, from, to)
  }

  /** parseValue: between the second and the third space (or the end), trimmed. With fewer than
      two spaces the copy starts at index 0, so the text may then hold spaces. */
  function ValueField(data: seq<byte>): (value: string)
    ensures NthIndex(data, SPACE, 1) != -1 ==> ' ' !in value
    ensures value == [] || (!IsBlank(value[0]) && !IsBlank(value[|value| - 1]))
  {
    var from, to := NthIndex(data, SPACE, 1) + 1, EndIndex(data, SPACE, 2);
    if from == 0 then
      Between(data, from, to)
    else
      NoMatchInGap(data, SPACE, 1);
      BetweenWithoutSpace(data, from, to);
      Between(data, from, to)
  }

  /** A buffer holding one space and no second: parseType takes the trimmed rest after the
      space, and parseValue, whose copy then starts at index 0, the whole buffer trimmed. */
  lemma OneSpaceFields(head: seq<byte>, rest: seq<byte>)
    requires SPACE !in head && SPACE !in rest
    ensures var f := head + [SPACE] + rest;
            TypeField(f) == Trim(Text(rest)) && ValueField(f) == Trim(Text(f))
  {
    var f := head + [SPACE] + rest;
    var r1 := [SPACE] + rest;
    assert f == head + r1;
    NthIndexSkip(rest, [], SPACE, 0);
    NthIndexSkip(rest, [], SPACE, 1);
    assert rest + [] == rest;
    assert r1[1..] == rest;
    NthIndexSkip(head, r1, SPACE, 0);
    NthIndexSkip(head, r1, SPACE, 1);
    NthIndexSkip(head, r1, SPACE, 2);
    assert f[|head| + 1..|f|] == rest;
    assert f[0..|f|] == f;
    TypeFieldAt(f, |head| + 1, |f|);
    ValueFieldAt(f, 0, |f|);
  }

  lemma TypeFieldAt(data: seq<byte>, from: int, to: int)
    requires from == NthIndex(data, SPACE, 0) + 1 && to == EndIndex(data, SPACE, 1)
    ensures 0 <= from <= to <= |data| && TypeField(data) == Between(data, from, to)
  {
    assert TypeField(data)
        == Between(data, NthIndex(data, SPACE, 0) + 1, EndIndex(data, SPACE, 1));
  }

  lemma ValueFieldAt(data: seq<byte>, from: int, to: int)
    requires from == NthIndex(data, SPACE, 1) + 1 && to == EndIndex(data, SPACE, 2)
    ensures 0 <= from <= to <= |data| && ValueField(data) == Between(data, from, to)
  {
    assert ValueField(data)
        == Between(data, NthIndex(data, SPACE, 1) + 1, EndIndex(data, SPACE, 2));
  }

  method ParseUrl(data: seq<byte>) returns (url: string)
    requires |data| >= 1 && data[0] != SPACE
    ensures url == UrlField(data)
  {
    var e := FindNIndex(data, SPACE, 0);
    if e == -1 {
      e := |data|;
    }
    url := Trim(Text(data[1..e]));
  }

  method ParseType(data: seq<byte>) returns (kind: string)
    ensures kind == TypeField(data)
  {
    var s := FindNIndex(data, SPACE, 0);
    var e := FindNIndex(data, SPACE, 1);
    if e == -1 {
      e := |data|;
    }
    TypeFieldAt(data, s + 1, e);
    kind := Trim(Text(data[s + 1..e]));
  }

  method ParseValue(data: seq<byte>) returns (value: string)
    ensures value == ValueField(data)
  {
    var s := FindNIndex(data, SPACE, 1);
    var e := FindNIndex(data, SPACE, 2);
    if e == -1 {
      e := |data|;
    }
    ValueFieldAt(data, s + 1, e);
    value := Trim(Text(data[s + 1..e]));
  }

  /** Arrays.fill(BUFF, (byte) 0). */
  method ZeroFill(a: array<byte>)
    modifies a
    ensures a[..] == Zeros(a.Length)
  {
    var i := 0;
    while i < a.Length
      invariant 0 <= i <= a.Length
      invariant forall j :: 0 <= j < i ==> a[j] == 0
    {
      a[i] := 0;
      i := i + 1;
    }
  }

  // ---------------------------------------------------------------------------------------------
  // round trips through a zero-filled buffer

  lemma TrimFieldThenZeros(field: string, k: nat)
    requires IsField(field)
    ensures Trim(Text(Bytes(field) + Zeros(k))) == field
  {
    FieldBytes(field);
    assert Text(Bytes(field) + Zeros(k)) == field + Text(Zeros(k));
    TrimDropsTrailingBlanks(field, Text(Zeros(k)));
  }

  /** A request payload read back from a zero-filled buffer yields the url it carried. */
  lemma RequestFrameRoundTrip(url: string, k: nat)
    requires IsField(url)
    ensures UrlField(EncodeRequest(url) + Zeros(k)) == url
  {
    var f := EncodeRequest(url) + Zeros(k);
    FieldBytes(url);
    assert SPACE !in f by {
      assert forall i :: 1 <= i <= |url| ==> f[i] == Bytes(url)[i - 1];
    }
    NthIndexSkip(f, [], SPACE, 0);
    assert f + [] == f;
    assert f[1..|f|] == Bytes(url) + Zeros(k);
    TrimFieldThenZeros(url, k);
  }

  lemma BytesOfResponse(url: string, kind: string, value: string)
    ensures Bytes(url + " " + kind + " " + value)
         == Bytes(url) + [SPACE] + Bytes(kind) + [SPACE] + Bytes(value)
  {
  }

  /** Where the three spaces sit in head + " " + mid + " " + tail when none of the parts has one. */
  lemma {:induction false} SpacePositions(head: seq<byte>, mid: seq<byte>, tail: seq<byte>)
    requires SPACE !in head && SPACE !in mid && SPACE !in tail
    ensures var f := head + [SPACE] + mid + [SPACE] + tail;
            && NthIndex(f, SPACE, 0) == |head|
            && NthIndex(f, SPACE, 1) == |head| + 1 + |mid|
            && NthIndex(f, SPACE, 2) == -1
  {
    var r2 := [SPACE] + tail;
    NthIndexSkip(tail, [], SPACE, 0);
    assert tail + [] == tail;
    assert r2[1..] == tail;
    var r1 := [SPACE] + (mid + r2);
    NthIndexSkip(mid, r2, SPACE, 0);
    NthIndexSkip(mid, r2, SPACE, 1);
    assert r1[1..] == mid + r2;
    assert head + [SPACE] + mid + [SPACE] + tail == head + r1;
    NthIndexSkip(head, r1, SPACE, 0);
    NthIndexSkip(head, r1, SPACE, 1);
    NthIndexSkip(head, r1, SPACE, 2);
  }

  /** The response payload in a zero-filled buffer, split at its two spaces. */
  lemma ResponseFrameLayout(url: string, kind: string, value: string, k: nat)
    requires IsField(url) && IsField(kind) && IsField(value)
    ensures var f := EncodeResponse(url, kind, value) + Zeros(k);
            && NthIndex(f, SPACE, 0) == 1 + |url|
            && NthIndex(f, SPACE, 1) == 2 + |url| + |kind|
            && NthIndex(f, SPACE, 2) == -1
            && f[1..1 + |url|] == Bytes(url)
            && f[2 + |url|..2 + |url| + |kind|] == Bytes(kind)
            && f[3 + |url| + |kind|..] == Bytes(value) + Zeros(k)
  {
    FieldBytes(url);
    FieldBytes(kind);
    FieldBytes(value);
    var head := [DNS_RESPONSE] + Bytes(url);
    var tail := Bytes(value) + Zeros(k);
    var f := EncodeResponse(url, kind, value) + Zeros(k);
    BytesOfResponse(url, kind, value);
    Regroup(DNS_RESPONSE, Bytes(url), Bytes(kind), Bytes(value), Zeros(k));
    SpacePositions(head, Bytes(kind), tail);
    Slices(head, Bytes(kind), tail);
  }

  /** Proof step (no source counterpart): a tagged payload with its padding, regrouped around
      its two spaces. */
  lemma Regroup(tag: byte, a: seq<byte>, b: seq<byte>, c: seq<byte>, pad: seq<byte>)
    ensures [tag] + (a + [SPACE] + b + [SPACE] + c) + pad
         == ([tag] + a) + [SPACE] + b + [SPACE] + (c + pad)
  {
  }

  /** Proof step (no source counterpart): the three parts of head + " " + mid + " " + tail,
      sliced back out. */
  lemma Slices(head: seq<byte>, mid: seq<byte>, tail: seq<byte>)
    requires |head| >= 1
    ensures var f := head + [SPACE] + mid + [SPACE] + tail;
            && f[1..|head|] == head[1..]
            && f[|head| + 1..|head| + 1 + |mid|] == mid
            && f[|head| + 2 + |mid|..] == tail
  {
  }

  lemma BetweenOfField(f: seq<byte>, from: nat, to: nat, x: string)
    requires from <= to <= |f| && IsField(x) && f[from..to] == Bytes(x)
    ensures Between(f, from, to) == x
  {
    FieldBytes(x);
  }

  lemma BetweenOfPaddedField(f: seq<byte>, from: nat, x: string, k: nat)
    requires from <= |f| && IsField(x) && f[from..] == Bytes(x) + Zeros(k)
    ensures Between(f, from, |f|) == x
  {
    assert f[from..|f|] == f[from..];
    TrimFieldThenZeros(x, k);
  }

  lemma ResponseUrl(url: string, kind: string, value: string, k: nat)
    requires IsField(url) && IsField(kind) && IsField(value)
    ensures UrlField(EncodeResponse(url, kind, value) + Zeros(k)) == url
  {
    var f := EncodeResponse(url, kind, value) + Zeros(k);
    ResponseFrameLayout(url, kind, value, k);
    assert EndIndex(f, SPACE, 0) == 1 + |url|;
    BetweenOfField(f, 1, 1 + |url|, url);
  }

  lemma ResponseKind(url: string, kind: string, value: string, k: nat)
    requires IsField(url) && IsField(kind) && IsField(value)
    ensures TypeField(EncodeResponse(url, kind, value) + Zeros(k)) == kind
  {
    var f := EncodeResponse(url, kind, value) + Zeros(k);
    ResponseFrameLayout(url, kind, value, k);
    var from, to := 2 + |url|, 2 + |url| + |kind|;
    assert NthIndex(f, SPACE, 0) + 1 == from;
    assert NthIndex(f, SPACE, 1) == to;
    assert EndIndex(f, SPACE, 1) == to;
    BetweenOfField(f, from, to, kind);
    TypeFieldAt(f, from, to);
  }

  lemma ResponseValue(url: string, kind: string, value: string, k: nat)
    requires IsField(url) && IsField(kind) && IsField(value)
    ensures ValueField(EncodeResponse(url, kind, value) + Zeros(k)) == value
  {
    var f := EncodeResponse(url, kind, value) + Zeros(k);
    ResponseFrameLayout(url, kind, value, k);
    var from := NthIndex(f, SPACE, 1) + 1;
    assert from == 3 + |url| + |kind|;
    assert EndIndex(f, SPACE, 2) == |f|;
    BetweenOfPaddedField(f, from, value, k);
    ValueFieldAt(f, from, |f|);
  }

  /** A response payload read back from a zero-filled buffer yields its three fields. */
  lemma ResponseFrameRoundTrip(url: string, kind: string, value: string, k: nat)
    requires IsField(url) && IsField(kind) && IsField(value)
    ensures var f := EncodeResponse(url, kind, value) + Zeros(k);
            UrlField(f) == url && TypeField(f) == kind && ValueField(f) == value
  {
    ResponseUrl(url, kind, value, k);
    ResponseKind(url, kind, value, k);
    ResponseValue(url, kind, value, k);
  }

  /** What run's buffer holds after receiving a request datagram that fits: tag 2, and parseUrl
      gives the url back. */
  lemma RequestInBuffer(url: string)
    requires IsField(url) && |url| < PACKET_SIZE
    ensures var f := Frame(EncodeRequest(url));
            f[0] == DNS_REQUEST && UrlField(f) == url
  {
    var data := EncodeRequest(url);
    var k := PACKET_SIZE - |data|;
    FrameOfFitting(data, DNS_REQUEST);
    var f := Frame(data);
    assert f == data + Zeros(k);
    RequestFrameRoundTrip(url, k);
    assert UrlField(f) == url;
  }

  /** What run's buffer holds after receiving a response datagram that fits: tag 1, and the
      three parse helpers give the fields back. */
  lemma ResponseInBuffer(url: string, kind: string, value: string)
    requires IsField(url) && IsField(kind) && IsField(value)
    requires |EncodeResponse(url, kind, value)| <= PACKET_SIZE
    ensures var f := Frame(EncodeResponse(url, kind, value));
            f[0] == DNS_RESPONSE && UrlField(f) == url && TypeField(f) == kind
            && ValueField(f) == value
  {
    var data := EncodeResponse(url, kind, value);
    var k := PACKET_SIZE - |data|;
    FrameOfFitting(data, DNS_RESPONSE);
    var f := Frame(data);
    assert f == data + Zeros(k);
    ResponseFrameRoundTrip(url, kind, value, k);
    assert UrlField(f) == url;
    assert TypeField(f) == kind;
  }

  /** Proof step (no source counterpart): a datagram that fits is the front of the frame, so the
      frame starts with its tag. */
  lemma FrameOfFitting(data: seq<byte>, tag: byte)
    requires 1 <= |data| <= PACKET_SIZE && data[0] == tag
    ensures Frame(data) == data + Zeros(PACKET_SIZE - |data|) && Frame(data)[0] == tag
  {
  }

  // ---------------------------------------------------------------------------------------------
  // the requester record and destinations

  datatype Requester = Requester(url: string, ip: string, port: int)

  /** handleRequest's String.format("%s:%s:%d", requestedUrl, requestIp, port). */
  function RequestRecord(url: string, ip: string, port: nat): (record: string)
    ensures ':' !in url && ':' !in ip ==> Split(record, ':') == [url, ip, NatToString(port)]
  {
    var d := NatToString(port);
    var record := url + ":" + ip + ":" + d;
    if ':' !in url && ':' !in ip then
      assert ':' !in d by {
        assert forall i :: 0 <= i < |d| ==> IsDigit(d[i]);
      }
      assert record == Join([url, ip, d], ':') by {
        assert Join([url, ip, d], ':') == url + [':'] + Join([ip, d], ':');
        assert [url, ip, d][1..] == [ip, d];
        assert [ip, d][1..] == [d];
      }
      SplitOfJoin([url, ip, d], ':');
      record
    else
      record
  }

  /** The record read back as processRequest and handleResponse read it: split(":"), tokens 0 and 1,
      Integer.parseInt of token 2. None stands for the exception when a token is missing or the
      port is not a number. */
  function ParseRecord(record: string): (r: Option<Requester>)
    ensures r.Some? ==> ':' !in r.value.url && ':' !in r.value.ip
  {
    var t := Split(record, ':');
    if |t| < 3 then None
    else
      match ParseInt(t[2])
      case None => None
      case Some(p) => Some(Requester(t[0], t[1], p))
  }

  /** The record splits back into the triple it was made from, when neither the url nor the ip
      contains ':'. */
  lemma RecordRoundTrip(url: string, ip: string, port: nat)
    requires ':' !in url && ':' !in ip && port <= INT_MAX
    ensures ParseRecord(RequestRecord(url, ip, port)) == Some(Requester(url, ip, port))
  {
    ParseIntOfNatToString(port);
  }

  /** An endpoint written "host" (meaning defaultPort) or "host:port", read as the NS branch of
      processRequest and as createRequest / createResponse read it. None stands for the exception
      when the port part is missing or is not a number. */
  function HostPort(value: string, defaultPort: int): (r: Option<(string, int)>)
    ensures r.Some? ==> ':' !in r.value.0
    ensures ':' !in value ==> r == Some((value, defaultPort))
  {
    if ':' !in value then Some((value, defaultPort))
    else
      var t := Split(value, ':');
      if |t| < 2 then None
      else
        match ParseInt(t[1])
        case None => None
        case Some(p) => Some((t[0], p))
  }

  /** "host:port" reads back as the host and that port, not as the default. */
  lemma HostPortExplicit(host: string, port: nat, defaultPort: int)
    requires ':' !in host && port <= INT_MAX
    ensures HostPort(host + ":" + NatToString(port), defaultPort) == Some((host, port))
  {
    var d := NatToString(port);
    assert ':' !in d by {
      assert forall i :: 0 <= i < |d| ==> IsDigit(d[i]);
    }
    assert host + ":" + d == Join([host, d], ':') by {
      assert [host, d][1..] == [d];
    }
    SplitOfJoin([host, d], ':');
    ParseIntOfNatToString(port);
  }

  // ---------------------------------------------------------------------------------------------
  // outbound datagrams

  datatype Datagram =
    | Request(host: string, port: int, url: string)
    | Response(host: string, port: int, url: string, kind: string, value: string)

  function Payload(d: Datagram): seq<byte> {
    match d
    case Request(_, _, url) => EncodeRequest(url)
    case Response(_, _, url, kind, value) => EncodeResponse(url, kind, value)
  }

  /** The ports a DatagramPacket accepts; any other makes its constructor throw. */
  predicate ValidPort(p: int) {
    0 <= p <= 65535
  }

  function StripSlash(s: string): string {
    if StartsWith(s, "/") then s[1..] else s
  }

  /** The datagram that sendRequest puts on the wire, or None when createRequest throws an
      exception that sendRequest does not catch (a bad "host:port", a port out of range). */
  function RequestDatagram(url: string, destIp: string, destPort: int): (d: Option<Datagram>)
    ensures d.Some? ==> d.value.Request? && d.value.url == url && ValidPort(d.value.port)
    ensures d.Some? ==> ':' !in d.value.host
    ensures ':' !in destIp ==> (d.Some? <==> ValidPort(destPort))
    ensures ':' !in destIp && d.Some? ==> d.value.host == destIp && d.value.port == destPort
  {
    match HostPort(destIp, destPort)
    case None => None
    case Some((host, port)) => if ValidPort(port) then Some(Request(host, port, url)) else None
  }

  /** The datagram that sendResponse puts on the wire (createResponse also drops one leading '/'
      from the host), or None when createResponse throws an uncaught exception. */
  function ResponseDatagram(url: string, kind: string, value: string, destIp: string, destPort: int)
    : (d: Option<Datagram>)
    ensures d.Some? ==> d == Some(Response(d.value.host, d.value.port, url, kind, value))
    ensures d.Some? ==> ValidPort(d.value.port) && ':' !in d.value.host
    ensures ':' !in destIp ==> (d.Some? <==> ValidPort(destPort))
    ensures ':' !in destIp && d.Some? ==>
              d.value.host == StripSlash(destIp) && d.value.port == destPort
  {
    match HostPort(destIp, destPort)
    case None => None
    case Some((host, port)) =>
      if ValidPort(port) then Some(Response(StripSlash(host), port, url, kind, value)) else None
  }
}
