/** The hexadecimal address printer and parser of `dlcommon.c`. */
module HexAddr {
  import opened Wrappers
  import opened Bytes

  // ----- printing -----

  function HexDigit(d: nat): char
    requires d < 16
  {
    if d < 10 then '0' + d as char else 'a' + (d - 10) as char
  }

  /** `%x` of a byte. */
  function HexByte(b: u8): (s: string)
    ensures 1 <= |s| <= 2
  {
    if b < 16 then [HexDigit(b)] else [HexDigit(b / 16), HexDigit(b % 16)]
  }

  /** Every byte followed by a colon. */
  function WithColons(addr: seq<u8>): (s: string)
    ensures 2 * |addr| <= |s| <= 3 * |addr|
    ensures addr != [] ==> s[|s| - 1] == ':'
  {
    if addr == [] then [] else WithColons(addr[..|addr| - 1]) + HexByte(addr[|addr| - 1]) + ":"
  }

  /** What is printed: the last colon is taken off again. */
  function Printed(addr: seq<u8>): string
    requires addr != []
  {
    WithColons(addr)[..|WithColons(addr)| - 1]
  }

  /** `sprintf` of one byte and a colon, with its terminator. */
  method PutByte(s: array<char>, at: nat, b: u8) returns (next: nat)
    requires at + 3 < s.Length
    modifies s
    ensures next == at + |HexByte(b)| + 1
    ensures s[..next] == old(s[..at]) + HexByte(b) + ":"
    ensures s[next] == '\0' && forall i :: next < i < s.Length ==> s[i] == old(s[i])
  {
    var t := HexByte(b);
    s[at] := t[0];
    next := at + 1;
    if |t| == 2 {
      s[at + 1] := t[1];
      next := at + 2;
    }
    s[next] := ':';
    next := next + 1;
    s[next] := '\0';
    assert s[..next] == s[..at] + s[at..next];
  }

  /** `addrtostring`.  For length 0 the buffer is not even terminated. */
  method AddrToString(addr: seq<u8>, s: array<char>)
    requires 3 * |addr| < s.Length
    modifies s
    ensures addr == [] ==> s[..] == old(s[..])
    ensures addr != [] ==> var n := |Printed(addr)|;
                           n < s.Length && s[..n] == Printed(addr) && s[n] == '\0'
  {
    var at := 0;
    for i := 0 to |addr|
      invariant at == |WithColons(addr[..i])| <= 3 * i
      invariant s[..at] == WithColons(addr[..i])
      invariant i == 0 ==> s[..] == old(s[..])
    {
      at := PutByte(s, at, addr[i]);
      assert addr[..i + 1][..i] == addr[..i];
    }
    assert addr[..|addr|] == addr;
    if |addr| != 0 {
      at := at - 1;
      s[at] := '\0';
    }
  }

  // ----- parsing -----

  function HexValue(c: char): Option<nat>
  {
    if '0' <= c <= '9' then Some((c - '0') as nat)
    else if 'a' <= c <= 'f' then Some((c - 'a') as nat + 10)
    else if 'A' <= c <= 'F' then Some((c - 'A') as nat + 10)
    else None
  }

  /** The leading hexadecimal digits. */
  function Digits(s: string): seq<nat>
  {
    if s == "" || HexValue(s[0]).None? then [] else [HexValue(s[0]).value] + Digits(s[1..])
  }

  function Magnitude(digits: seq<nat>): nat
  {
    if digits == [] then 0 else 16 * Magnitude(digits[..|digits| - 1]) + digits[|digits| - 1]
  }

  function SkipBlanks(s: string): string
  {
    if s != "" && (s[0] == ' ' || '\t' <= s[0] <= '\r') then SkipBlanks(s[1..]) else s
  }

  /** The 32-bit word read as a signed `int`. */
  function Signed(w: u32): int
  {
    if w >= 0x8000_0000 then w - TWO32 else w
  }

  /** `sscanf(p, "%x", &val)` with a 32-bit `long`: blanks, a sign, a prefix, then digits. */
  function ScanHex(token: string): Option<int>
  {
    var s := SkipBlanks(token);
    var negative := s != "" && s[0] == '-';
    var s1 := if s != "" && (s[0] == '-' || s[0] == '+') then s[1..] else s;
    var s2 := if |s1| >= 2 && s1[0] == '0' && (s1[1] == 'x' || s1[1] == 'X') then s1[2..] else s1;
    var digits := Digits(s2);
    if digits == [] then None
    else
      var m := Magnitude(digits);
      if m >= TWO32 then Some(-1)
      else Some(Signed(if negative then (TWO32 - m) % TWO32 else m))
  }

  /** Length of the leading part without a colon. */
  function TokenLength(s: string): (n: nat)
    ensures n <= |s|
    ensures n < |s| ==> s[n] == ':'
    ensures forall i :: 0 <= i < n ==> s[i] != ':'
  {
    if s == "" || s[0] == ':' then 0 else 1 + TokenLength(s[1..])
  }

  /** The whole parse; None where the program prints an error and exits. */
  function Parsed(s: string): Option<seq<u8>>
    decreases |s|
  {
    if s == "" then Some([])
    else if s[0] == ':' then Parsed(s[1..])
    else
      var n := TokenLength(s);
      var val := ScanHex(s[..n]);
      if val.None? || val.value > 0xff then None
      else
        Prepend([val.value % 256], Parsed(s[n..]))
  }

  function Prepend(out: seq<u8>, r: Option<seq<u8>>): Option<seq<u8>>
  {
    match r case None => None case Some(rest) => Some(out + rest)
  }

  lemma PrependNil(r: Option<seq<u8>>)
    ensures Prepend([], r) == r
  {
    if r.Some? {
      assert [] + r.value == r.value;
    }
  }

  lemma PrependEnds(out: seq<u8>)
    ensures Prepend(out, None) == None && Prepend(out, Parsed("")) == Some(out)
  {
    assert out + [] == out;
  }

  lemma PrependTwice(a: seq<u8>, b: seq<u8>, r: Option<seq<u8>>)
    ensures Prepend(a, Prepend(b, r)) == Prepend(a + b, r)
  {
    if r.Some? {
      assert a + (b + r.value) == (a + b) + r.value;
    }
  }

  /** Number of colon-separated tokens: how much output room the caller must provide. */
  function TokenCount(s: string): nat
    decreases |s|
  {
    if s == "" then 0
    else if s[0] == ':' then TokenCount(s[1..])
    else 1 + TokenCount(s[TokenLength(s)..])
  }

  /** The characters of a buffer up to its terminator. */
  ghost predicate IsString(buf: array<char>, s: string)
    reads buf
  {
    && |s| < buf.Length && buf[..|s|] == s && buf[|s|] == '\0'
    && forall i :: 0 <= i < |s| ==> s[i] != '\0'
  }

  /** From `p` on the buffer still holds the text and its terminator. */
  ghost predicate Holds(sp: array<char>, text: string, p: nat)
    reads sp
  {
    && p <= |text| < sp.Length && sp[|text|] == '\0'
    && forall i :: p <= i < |text| ==> sp[i] == text[i] && text[i] != '\0'
  }

  /** `strtok` looking for the end of the token at `p`. */
  method TokenEnd(sp: array<char>, p: nat, ghost text: string) returns (e: nat)
    requires Holds(sp, text, p)
    ensures e == p + TokenLength(text[p..]) && sp[p..e] == text[p..][..e - p]
  {
    e := p;
    while sp[e] != '\0' && sp[e] != ':'
      invariant p <= e <= |text|
      invariant forall i :: p <= i < e ==> text[i] != ':'
      decreases |text| - e
    {
      e := e + 1;
    }
  }

  lemma ParsedColon(text: string, p: nat)
    requires p < |text| && text[p] == ':'
    ensures Parsed(text[p..]) == Parsed(text[p + 1..]) && TokenCount(text[p..]) == TokenCount(text[p + 1..])
  {
    assert text[p..][1..] == text[p + 1..];
  }

  lemma ParsedToken(text: string, p: nat)
    requires p < |text| && text[p] != ':'
    ensures var e := p + TokenLength(text[p..]);
            var val := ScanHex(text[p..][..e - p]);
            && TokenCount(text[p..]) == 1 + TokenCount(text[e..])
            && Parsed(text[p..]) == if val.None? || val.value > 0xff then None
                                    else Prepend([val.value % 256], Parsed(text[e..]))
  {
    hide ScanHex;
    assert text[p..][TokenLength(text[p..])..] == text[p + TokenLength(text[p..])..];
  }

  /**
   `stringtoaddr`: `strtok` skips colons and overwrites the one that ends a token; each
   token is scanned and one byte stored.  `ok` is false where the program would exit.
   */
  method StringToAddr(sp: array<char>, addr: array<u8>, ghost text: string) returns (ok: bool, n: nat)
    requires IsString(sp, text)
    requires addr.Length >= TokenCount(text)
    modifies sp, addr
    ensures ok <==> Parsed(text).Some?
    ensures ok ==> n <= addr.Length && addr[..n] == Parsed(text).value
  {
    hide ScanHex, Parsed, Prepend, TokenCount, TokenLength;
    n := 0;
    var p := 0;
    StringHolds(sp, text);
    PrependNil(Parsed(text));
    while sp[p] != '\0'
      invariant 0 <= p <= |text| && Holds(sp, text, p)
      invariant n + TokenCount(text[p..]) <= addr.Length
      invariant Parsed(text) == Prepend(addr[..n], Parsed(text[p..]))
      decreases |text| - p
    {
      if sp[p] == ':' {
        ParsedColon(text, p);
        p := p + 1;
      } else {
        var e := TokenEnd(sp, p, text);
        ParsedToken(text, p);
        var val := ScanHex(sp[p..e]);
        if val.None? || val.value > 0xff {
          PrependEnds(addr[..n]);
          return false, n;
        }
        PrependTwice(addr[..n], [val.value % 256], Parsed(text[e..]));
        ghost var out := addr[..n];
        addr[n] := val.value % 256;
        assert addr[..n + 1] == out + [val.value % 256];
        n := n + 1;
        if sp[e] == ':' {
          ParsedColon(text, e);
          sp[e] := '\0';
          e := e + 1;
        }
        p := e;
      }
    }
    PrependEnds(addr[..n]);
    assert text[p..] == "";
    ok := true;
  }

  lemma StringHolds(sp: array<char>, text: string)
    requires IsString(sp, text)
    ensures Holds(sp, text, 0) && text[0..] == text
  {
    assert forall i :: 0 <= i < |text| ==> sp[i] == sp[..|text|][i];
  }

  // ----- numbers as text -----

  /** What `scanf` skips. */
  const WHITE := " \t\n\U{0B}\U{0C}\r"

  /** A number in hexadecimal, in small or capital letters. */
  function HexText(n: nat, capital: bool): (s: string)
    ensures s != ""
  {
    var d := if capital then "0123456789ABCDEF" else "0123456789abcdef";
    if n < 16 then [d[n]] else HexText(n / 16, capital) + [d[n % 16]]
  }

  /** A byte is printed in small letters, without a leading zero. */
  lemma HexByteIsText(b: u8)
    ensures HexByte(b) == HexText(b, false)
  {
    assert forall d: nat :: d < 16 ==> HexDigit(d) == "0123456789abcdef"[d];
  }

  lemma DigitIsRead(n: nat, capital: bool)
    requires n < 16
    ensures var c := (if capital then "0123456789ABCDEF" else "0123456789abcdef")[n];
            HexValue(c) == Some(n) && c !in WHITE && c !in ":-+xX" && (c == '0' <==> n == 0)
  {
  }

  lemma {:induction false} DigitsSnoc(s: string, c: char)
    requires HexValue(c).Some? && |Digits(s)| == |s|
    ensures Digits(s + [c]) == Digits(s) + [HexValue(c).value]
  {
    if s == "" {
      assert s + [c] == [c] && [c][1..] == "";
    } else {
      assert (s + [c])[1..] == s[1..] + [c];
      DigitsSnoc(s[1..], c);
    }
  }

  lemma OneDigit(c: char)
    requires HexValue(c).Some?
    ensures Digits([c]) == [HexValue(c).value] && Magnitude(Digits([c])) == HexValue(c).value
  {
    assert [c][1..] == "" && Digits("") == [];
    assert Digits([c])[..0] == [];
  }

  lemma MagnitudeSnoc(ds: seq<nat>, d: nat)
    ensures Magnitude(ds + [d]) == 16 * Magnitude(ds) + d
  {
    assert (ds + [d])[..|ds|] == ds;
  }

  /** A written number is read back. */
  lemma {:induction false} NumberIsRead(n: nat, capital: bool)
    ensures var s := HexText(n, capital);
            && |Digits(s)| == |s| && Magnitude(Digits(s)) == n
            && (forall i :: 0 <= i < |s| ==> s[i] !in WHITE && s[i] !in ":-+xX")
            && (s[0] == '0' <==> n == 0) && (n == 0 ==> |s| == 1)
  {
    hide HexValue, Magnitude, Digits;
    var d := (if capital then "0123456789ABCDEF" else "0123456789abcdef")[n % 16];
    DigitIsRead(n % 16, capital);
    if n < 16 {
      assert HexText(n, capital) == [d];
      OneDigit(d);
    } else {
      var t := HexText(n / 16, capital);
      NumberIsRead(n / 16, capital);
      DigitsSnoc(t, d);
      MagnitudeSnoc(Digits(t), n % 16);
    }
  }

  predicate White(s: string)
  {
    forall c :: c in s ==> c in WHITE
  }

  lemma {:induction false} BlanksSkipped(w: string, s: string)
    requires White(w) && s != "" && s[0] !in WHITE
    ensures SkipBlanks(w + s) == s
  {
    if w == "" {
      assert w + s == s;
    } else {
      assert (w + s)[1..] == w[1..] + s && w[0] in w;
      BlanksSkipped(w[1..], s);
    }
  }

  /** Blanks, a sign and a prefix in front of a number that fits are read as what they mean. */
  lemma ScanReads(w: string, sign: string, prefix: string, n: nat, capital: bool)
    requires White(w) && sign in {"", "+", "-"} && prefix in {"", "0x", "0X"} && n < 0x8000_0000
    ensures var value: int := if sign == "-" then -(n as int) else n as int;
            ScanHex(w + (sign + (prefix + HexText(n, capital)))) == Some(value)
  {
    hide Digits, Magnitude, HexText, HexValue;
    var text := HexText(n, capital);
    var tail := prefix + text;
    NumberIsRead(n, capital);
    BlanksSkipped(w, sign + tail);
    assert sign == "" ==> sign + tail == tail;
    assert sign != "" ==> (sign + tail)[1..] == tail;
    assert prefix == "" ==> tail == text;
    assert prefix != "" ==> tail[2..] == text;
  }

  /**
   A token that is one number: up to 0xff it is stored as it is, from there up to 2^31 it is
   refused, and beyond that its value is negative as an `int`, so that its low byte is stored;
   a number of more than 32 bits reads as all ones.
   */
  lemma NumberToken(n: nat, capital: bool)
    ensures Parsed(HexText(n, capital)) ==
              if 0x100 <= n < 0x8000_0000 then None else Some([if n < TWO32 then n % 256 else 255])
  {
    hide Digits, Magnitude, HexText, HexValue;
    var s := HexText(n, capital);
    NumberIsRead(n, capital);
    BlanksSkipped("", s);
    assert "" + s == s && s[..|s|] == s && s[|s|..] == "";
    assert TokenLength(s) == |s|;
    PrependEnds([if n < TWO32 then n % 256 else 255]);
  }

  // ----- the round trip -----

  lemma ScanHexByte(b: u8)
    ensures ScanHex(HexByte(b)) == Some(b)
  {
    hide HexByte, HexText, ScanHex;
    var s := HexText(b, false);
    HexByteIsText(b);
    ScanReads("", "", "", b, false);
    assert "" + ("" + ("" + s)) == s;
  }

  lemma HexByteHasNoColon(b: u8, rest: string)
    requires rest == "" || rest[0] == ':'
    ensures TokenLength(HexByte(b) + rest) == |HexByte(b)|
    ensures (HexByte(b) + rest)[0] != ':'
  {
    var s := HexByte(b);
    assert forall i :: 0 <= i < |s| ==> s[i] != ':';
    var n := TokenLength(s + rest);
    assert rest != "" ==> (s + rest)[|s|] == ':';
  }

  /** A printed byte that ends its token parses to that byte. */
  lemma ParseByte(b: u8, rest: string)
    requires rest == "" || rest[0] == ':'
    ensures Parsed(HexByte(b) + rest) == Prepend([b], Parsed(rest))
  {
    hide HexByte, ScanHex;
    var s := HexByte(b) + rest;
    HexByteHasNoColon(b, rest);
    ScanHexByte(b);
    assert s[..|HexByte(b)|] == HexByte(b) && s[|HexByte(b)|..] == rest;
  }

  lemma ParseColon(tail: string)
    ensures Parsed(":" + tail) == Parsed(tail)
  {
    assert (":" + tail)[1..] == tail;
  }

  lemma {:induction false} ParseWithColons(addr: seq<u8>, tail: string)
    ensures Parsed(WithColons(addr) + tail) == Prepend(addr, Parsed(tail))
  {
    hide HexByte, Parsed, Prepend;
    if addr == [] {
      assert WithColons(addr) + tail == tail;
      PrependNil(Parsed(tail));
    } else {
      var n := |addr| - 1;
      var rest := ":" + tail;
      assert WithColons(addr) + tail == WithColons(addr[..n]) + (HexByte(addr[n]) + rest);
      ParseColon(tail);
      ParseByte(addr[n], rest);
      ParseWithColons(addr[..n], HexByte(addr[n]) + rest);
      PrependTwice(addr[..n], [addr[n]], Parsed(tail));
      assert addr[..n] + [addr[n]] == addr;
    }
  }

  lemma PrintedSplit(addr: seq<u8>)
    requires addr != []
    ensures var n := |addr| - 1; Printed(addr) == WithColons(addr[..n]) + HexByte(addr[n])
  {
  }

  lemma ParseLast(b: u8)
    ensures Parsed(HexByte(b)) == Some([b])
  {
    ParseByte(b, "");
    assert HexByte(b) + "" == HexByte(b) && [b] + [] == [b];
  }

  /** Parsing what was printed gives back the same bytes, and so the same length. */
  lemma PrintThenParse(addr: seq<u8>)
    requires addr != []
    ensures Parsed(Printed(addr)) == Some(addr)
  {
    hide HexByte, Parsed, Printed, WithColons;
    var n := |addr| - 1;
    PrintedSplit(addr);
    ParseLast(addr[n]);
    ParseWithColons(addr[..n], HexByte(addr[n]));
    assert addr[..n] + [addr[n]] == addr;
  }

  /** The printed form: the bytes in hexadecimal with single colons between them. */
  lemma PrintedSnoc(addr: seq<u8>, b: u8)
    ensures Printed([b]) == HexText(b, false)
    ensures addr != [] ==> Printed(addr + [b]) == Printed(addr) + ":" + HexText(b, false)
  {
    HexByteIsText(b);
    PrintedSplit([b]);
    assert [b][..0] == [] && WithColons([]) + HexByte(b) == HexByte(b);
    if addr != [] {
      PrintedSplit(addr + [b]);
      assert (addr + [b])[..|addr|] == addr;
      assert WithColons(addr) == Printed(addr) + ":";
    }
  }
}
