/** The parts of java.lang.String and java.lang.Integer that the resolvers and the client rely on:
    indexOf, lastIndexOf, startsWith, trim, split on a one-character literal, toLowerCase on ASCII
    letters, decimal formatting (%d) and Integer.parseInt. */
module JavaText {

  datatype Option<T> = None | Some(value: T)

  /** A character that String.trim removes: any code point up to and including the space. */
  predicate IsBlank(c: char) {
    c <= ' '
  }

  predicate NoBlank(s: string) {
    forall i :: 0 <= i < |s| ==> !IsBlank(s[i])
  }

  predicate AllBlank(s: string) {
    forall i :: 0 <= i < |s| ==> IsBlank(s[i])
  }

  predicate StartsWith(s: string, prefix: string) {
    |prefix| <= |s| && s[..|prefix|] == prefix
  }

  /** String.indexOf(char): the first index of c, or -1. */
  function IndexOf(s: string, c: char): (r: int)
    ensures r == -1 <==> c !in s
    ensures r != -1 ==> 0 <= r < |s| && s[r] == c && c !in s[..r]
  {
    if |s| == 0 then -1
    else if s[0] == c then 0
    else
      var k := IndexOf(s[1..], c);
      assert k != -1 ==> s[..k + 1] == [s[0]] + s[1..][..k];
      if k == -1 then -1 else k + 1
  }

  /** String.lastIndexOf(char): the last index of c, or -1. */
  function LastIndexOf(s: string, c: char): (r: int)
    ensures r == -1 <==> c !in s
    ensures r != -1 ==> 0 <= r < |s| && s[r] == c && c !in s[r + 1..]
  {
    if |s| == 0 then -1
    else if s[|s| - 1] == c then |s| - 1
    else
      var init := s[..|s| - 1];
      var k := LastIndexOf(init, c);
      assert s == init + [s[|s| - 1]];
      assert k != -1 ==> s[k + 1..] == init[k + 1..] + [s[|s| - 1]];
      if k == -1 then -1 else k
  }

  lemma IndexOfAfterPrefix(a: string, c: char, b: string)
    requires c !in a
    ensures IndexOf(a + [c] + b, c) == |a|
  {
    var s := a + [c] + b;
    assert s[|a|] == c;
    assert forall j :: 0 <= j < |a| ==> s[j] == a[j];
  }

  // ---------------------------------------------------------------------------------------------
  // trim

  /** How many blanks String.trim skips at the front. */
  function LeadingBlanks(s: string): (k: nat)
    ensures k <= |s|
    ensures forall i :: 0 <= i < k ==> IsBlank(s[i])
    ensures k < |s| ==> !IsBlank(s[k])
  {
    if |s| == 0 || !IsBlank(s[0]) then 0 else 1 + LeadingBlanks(s[1..])
  }

  /** How many blanks String.trim drops at the back. */
  function TrailingBlanks(s: string): (k: nat)
    ensures k <= |s|
    ensures forall i :: |s| - k <= i < |s| ==> IsBlank(s[i])
    ensures k < |s| ==> !IsBlank(s[|s| - 1 - k])
  {
    if |s| == 0 || !IsBlank(s[|s| - 1]) then 0 else 1 + TrailingBlanks(s[..|s| - 1])
  }

  /** String.trim: the text between the leading and the trailing blanks ("" when all are blank). */
  function Trim(s: string): (r: string)
    ensures |r| <= |s|
    ensures r == [] || (!IsBlank(r[0]) && !IsBlank(r[|r| - 1]))
    ensures NoBlank(s) ==> r == s
    ensures AllBlank(s) ==> r == []
    ensures !AllBlank(s) ==> r == s[LeadingBlanks(s)..|s| - TrailingBlanks(s)]
  {
    var st := LeadingBlanks(s);
    if st == |s| then ""
    else
      var e := |s| - TrailingBlanks(s);
      assert !IsBlank(s[st]);
      s[st..e]
  }

  /** Trim removes exactly the blanks around a text that starts and ends with a non-blank (the
      text may hold blanks inside), and nothing else. */
  lemma TrimStripsBlankEnds(pre: string, mid: string, post: string)
    requires AllBlank(pre) && AllBlank(post)
    requires mid == [] || (!IsBlank(mid[0]) && !IsBlank(mid[|mid| - 1]))
    ensures Trim(pre + mid + post) == mid
  {
    var s := pre + mid + post;
    if mid == [] {
      assert AllBlank(s) by {
        assert forall i :: 0 <= i < |s| ==> s[i] == if i < |pre| then pre[i] else post[i - |pre|];
      }
    } else {
      assert s[|pre|] == mid[0];
      assert s[|pre| + |mid| - 1] == mid[|mid| - 1];
      assert forall i :: 0 <= i < |pre| ==> s[i] == pre[i];
      assert forall i :: |s| - |post| <= i < |s| ==> s[i] == post[i - (|s| - |post|)];
      assert LeadingBlanks(s) == |pre|;
      assert TrailingBlanks(s) == |post|;
      assert s[|pre|..|s| - |post|] == mid;
    }
  }

  /** Blanks appended to a text that starts and ends with a non-blank are exactly what trim
      removes (the text may hold blanks inside). */
  lemma TrimDropsTrailingBlanks(t: string, pad: string)
    requires t == [] || (!IsBlank(t[0]) && !IsBlank(t[|t| - 1]))
    requires AllBlank(pad)
    ensures Trim(t + pad) == t
  {
    var s := t + pad;
    if |t| == 0 {
      assert s == pad;
    } else {
      assert LeadingBlanks(s) == 0 by { assert !IsBlank(s[0]); }
      var k := TrailingBlanks(s);
      assert forall i :: |t| <= i < |s| ==> s[i] == pad[i - |t|];
      assert !IsBlank(s[|t| - 1]);
      assert !IsBlank(s[|s| - 1 - k]);
      assert k == |pad|;
      assert s[0..|s| - k] == t;
    }
  }

  // ---------------------------------------------------------------------------------------------
  // split

  /** Every piece between the occurrences of c, empty pieces included (one more than the number
      of occurrences). */
  function Pieces(s: string, c: char): (r: seq<string>)
    ensures |r| >= 1
    ensures forall i :: 0 <= i < |r| ==> c !in r[i]
    ensures c !in s <==> |r| == 1
    decreases |s|
  {
    var i := IndexOf(s, c);
    if i == -1 then [s] else [s[..i]] + Pieces(s[i + 1..], c)
  }

  /** The inverse of Pieces: the pieces glued back together with c. */
  function Join(ps: seq<string>, c: char): string
    requires |ps| >= 1
  {
    if |ps| == 1 then ps[0] else ps[0] + [c] + Join(ps[1..], c)
  }

  lemma {:induction false} PiecesOfJoin(ps: seq<string>, c: char)
    requires |ps| >= 1
    requires forall i :: 0 <= i < |ps| ==> c !in ps[i]
    ensures Pieces(Join(ps, c), c) == ps
  {
    if |ps| == 1 {
    } else {
      var rest := Join(ps[1..], c);
      IndexOfAfterPrefix(ps[0], c, rest);
      var s := ps[0] + [c] + rest;
      assert s[..|ps[0]|] == ps[0];
      assert s[|ps[0]| + 1..] == rest;
      PiecesOfJoin(ps[1..], c);
      assert Pieces(s, c) == [ps[0]] + ps[1..];
    }
  }

  /** Gluing the pieces back together gives the text. */
  lemma {:induction false} JoinOfPieces(s: string, c: char)
    ensures Join(Pieces(s, c), c) == s
    decreases |s|
  {
    var i := IndexOf(s, c);
    if i != -1 {
      var head, rest := s[..i], s[i + 1..];
      assert s == head + [c] + rest;
      JoinOfPieces(rest, c);
      assert Pieces(s, c) == [head] + Pieces(rest, c);
      JoinCons(head, Pieces(rest, c), c);
    }
  }

  /** Join unfolded once, for a first piece put in front of at least one more. */
  lemma JoinCons(head: string, ps: seq<string>, c: char)
    requires |ps| >= 1
    ensures Join([head] + ps, c) == head + [c] + Join(ps, c)
  {
    assert ([head] + ps)[1..] == ps;
  }

  /** The last piece is what follows the last c: not empty when the text does not end in c. */
  lemma {:induction false} LastPieceNotEmpty(s: string, c: char)
    requires s != [] && s[|s| - 1] != c
    ensures Pieces(s, c)[|Pieces(s, c)| - 1] != ""
    decreases |s|
  {
    var i := IndexOf(s, c);
    if i != -1 {
      var rest := s[i + 1..];
      assert rest != [] && rest[|rest| - 1] == s[|s| - 1];
      LastPieceNotEmpty(rest, c);
    }
  }

  /** Trailing empty strings removed, as String.split does. */
  function DropTrailingEmpty(ps: seq<string>): (r: seq<string>)
    ensures |r| <= |ps| && r == ps[..|r|]
    ensures r == [] || r[|r| - 1] != ""
    ensures forall i :: |r| <= i < |ps| ==> ps[i] == ""
  {
    if |ps| == 0 || ps[|ps| - 1] != "" then ps else DropTrailingEmpty(ps[..|ps| - 1])
  }

  /** String.split with a one-character literal pattern: [s] when c does not occur, otherwise the
      pieces with the trailing empty ones removed. */
  function Split(s: string, c: char): (r: seq<string>)
    ensures forall i :: 0 <= i < |r| ==> c !in r[i]
    ensures c !in s ==> r == [s]
  {
    if c !in s then [s] else DropTrailingEmpty(Pieces(s, c))
  }

  /** On a text that does not end in c, split loses nothing: the pieces join back to it. */
  lemma SplitJoinsBack(s: string, c: char)
    requires s == [] || s[|s| - 1] != c
    ensures |Split(s, c)| >= 1 && Join(Split(s, c), c) == s
  {
    if c in s {
      LastPieceNotEmpty(s, c);
      JoinOfPieces(s, c);
    }
  }

  lemma SplitOfJoin(ps: seq<string>, c: char)
    requires |ps| >= 2 && ps[|ps| - 1] != ""
    requires forall i :: 0 <= i < |ps| ==> c !in ps[i]
    ensures Split(Join(ps, c), c) == ps
  {
    PiecesOfJoin(ps, c);
    assert c in Join(ps, c) by {
      assert Join(ps, c) == ps[0] + [c] + Join(ps[1..], c);
      assert Join(ps, c)[|ps[0]|] == c;
    }
  }

  // ---------------------------------------------------------------------------------------------
  // case

  function ToLowerChar(c: char): char {
    if 'A' <= c <= 'Z' then (c as int + 32) as char else c
  }

  /** String.toLowerCase restricted to ASCII letters. */
  function ToLower(s: string): (r: string)
    ensures |r| == |s|
    ensures forall i :: 0 <= i < |s| ==> r[i] == ToLowerChar(s[i])
  {
    seq(|s|, i requires 0 <= i < |s| => ToLowerChar(s[i]))
  }

  predicate HasUpper(s: string) {
    exists i :: 0 <= i < |s| && 'A' <= s[i] <= 'Z'
  }

  // ---------------------------------------------------------------------------------------------
  // integers

  const INT_MIN: int := -0x8000_0000
  const INT_MAX: int := 0x7fff_ffff

  predicate IsDigit(c: char) {
    '0' <= c <= '9'
  }

  predicate AllDigits(s: string) {
    forall i :: 0 <= i < |s| ==> IsDigit(s[i])
  }

  function DigitChar(d: nat): char
    requires d < 10
  {
    ('0' as int + d) as char
  }

  /** The value of a string of decimal digits. */
  function DigitsValue(s: string): nat
    requires AllDigits(s)
  {
    if s == [] then 0 else DigitsValue(s[..|s| - 1]) * 10 + (s[|s| - 1] as int - '0' as int)
  }

  /** %d of a non-negative int. */
  function NatToString(n: nat): (s: string)
    ensures |s| >= 1 && AllDigits(s)
  {
    if n < 10 then [DigitChar(n)] else NatToString(n / 10) + [DigitChar(n % 10)]
  }

  lemma {:induction false} NatToStringValue(n: nat)
    ensures DigitsValue(NatToString(n)) == n
  {
    if n >= 10 {
      NatToStringValue(n / 10);
      var s := NatToString(n);
      assert s[..|s| - 1] == NatToString(n / 10);
    }
  }

  /** What Integer.parseInt accepts as a number: an optional '-' or '+' and one or more ASCII
      digits. */
  predicate Numeral(s: string) {
    || (|s| >= 1 && AllDigits(s))
    || (|s| >= 2 && (s[0] == '-' || s[0] == '+') && AllDigits(s[1..]))
  }

  /** The signed value a numeral denotes. */
  function NumeralValue(s: string): int
    requires Numeral(s)
  {
    var tail: int := if s[0] == '-' || s[0] == '+' then DigitsValue(s[1..]) else 0;
    if s[0] == '-' then -tail
    else if s[0] == '+' then tail
    else DigitsValue(s)
  }

  /** Integer.parseInt: a numeral whose value lies in the int range; None stands for the
      NumberFormatException thrown for anything else. */
  function ParseInt(s: string): (r: Option<int>)
    ensures r.Some? <==> Numeral(s) && INT_MIN <= NumeralValue(s) <= INT_MAX
    ensures r.Some? ==> r.value == NumeralValue(s)
  {
    if |s| == 0 then None
    else if s[0] == '-' || s[0] == '+' then
      if |s| == 1 || !AllDigits(s[1..]) then None
      else
        var v: int := if s[0] == '-' then 0 - DigitsValue(s[1..]) else DigitsValue(s[1..]);
        if INT_MIN <= v <= INT_MAX then Some(v) else None
    else if AllDigits(s) && DigitsValue(s) <= INT_MAX then Some(DigitsValue(s))
    else None
  }

  lemma ParseIntOfNatToString(n: nat)
    requires n <= INT_MAX
    ensures ParseInt(NatToString(n)) == Some(n)
  {
    NatToStringValue(n);
  }
}
