/** The IPv4 net filter: the `net-filter` option of `options.c` and `in_filter_net` of `iftop.c`. */
module NetFilter {
  import opened Wrappers
  import opened Bytes

  function Pow2(n: nat): (r: nat)
    ensures r >= 1
  {
    if n == 0 then 1 else 2 * Pow2(n - 1)
  }

  /** Bitwise `&` of unsigned words. */
  function And(x: nat, y: nat): (r: nat)
    ensures r <= x && r <= y
  {
    if x == 0 || y == 0 then 0 else 2 * And(x / 2, y / 2) + (if x % 2 == 1 && y % 2 == 1 then 1 else 0)
  }

  /** The mask word stored for a prefix length; a shift by 32 is avoided by a special case. */
  function PrefixMask(n: nat): (mask: u32)
    requires n <= 32
  {
    if n == 32 then Htonl(0xffff_ffff)
    else
      var mm := 0xffff_ffff / Pow2(n);
      Htonl(0xffff_ffff - mm)
  }

  /** `in_filter_net`; all three words are in network order. */
  predicate InFilterNet(addr: u32, net: u32, mask: u32)
  {
    And(addr, mask) == net
  }

  lemma {:induction false} Pow2Adds(a: nat, b: nat)
    ensures Pow2(a + b) == Pow2(a) * Pow2(b)
  {
    if a > 0 {
      Pow2Adds(a - 1, b);
      assert Pow2(a + b) == 2 * (Pow2(a - 1) * Pow2(b)) == Pow2(a) * Pow2(b);
    }
  }

  lemma Pow2At32()
    ensures Pow2(32) == TWO32
  {
    assert Pow2(8) == 256;
    Pow2Adds(8, 8);
    Pow2Adds(16, 16);
  }

  lemma {:induction false} AndOnes(x: nat, w: nat)
    requires x < Pow2(w)
    ensures And(x, Pow2(w) - 1) == x
  {
    if w > 0 && x > 0 {
      AndOnes(x / 2, w - 1);
      assert (Pow2(w) - 1) / 2 == Pow2(w - 1) - 1 && (Pow2(w) - 1) % 2 == 1;
    }
  }

  lemma PowDouble(k: nat)
    requires k > 0
    ensures Pow2(k) == 2 * Pow2(k - 1)
  {
  }

  /** Masked by the ones above bit `k`, two words agree iff their quotients by 2^k do. */
  lemma {:induction false} AndPrefix(x: nat, y: nat, w: nat, k: nat)
    requires k <= w && x < Pow2(w) && y < Pow2(w)
    ensures Pow2(k) <= Pow2(w)
    ensures And(x, Pow2(w) - Pow2(k)) == And(y, Pow2(w) - Pow2(k)) <==> x / Pow2(k) == y / Pow2(k)
  {
    hide And, Pow2;
    if k == 0 {
      PowZero();
      AndOnes(x, w);
      AndOnes(y, w);
    } else {
      PowDouble(w);
      PowDouble(k);
      AndPrefix(x / 2, y / 2, w - 1, k - 1);
      AndPrefixStep(x, y, Pow2(w - 1) - Pow2(k - 1), Pow2(k - 1), Pow2(w) - Pow2(k), Pow2(k));
    }
  }

  lemma AndStep(x: nat, y: nat)
    ensures And(x, y) == 2 * And(x / 2, y / 2) + (if x % 2 == 1 && y % 2 == 1 then 1 else 0)
  {
  }

  lemma AndEven(x: nat, m: nat)
    ensures And(x, 2 * m) == 2 * And(x / 2, m)
  {
    AndStep(x, 2 * m);
    assert 2 * m / 2 == m && 2 * m % 2 == 0;
  }

  lemma AndPrefixStep(x: nat, y: nat, m: nat, p: nat, m2: nat, p2: nat)
    requires p > 0 && m2 == 2 * m && p2 == 2 * p
    requires And(x / 2, m) == And(y / 2, m) <==> x / 2 / p == y / 2 / p
    ensures And(x, m2) == And(y, m2) <==> x / p2 == y / p2
  {
    AndEven(x, m);
    AndEven(y, m);
    DivTwice(x, p);
    DivTwice(y, p);
  }

  lemma MulAtLeast(k: int, d: int)
    requires k >= 1 && d > 0
    ensures k * d >= d
  {
  }

  lemma DivUnique(x: int, d: int, q: int, r: int)
    requires d > 0 && 0 <= r < d && x == q * d + r
    ensures x / d == q
  {
    var q', r' := x / d, x % d;
    assert x == q' * d + r';
    if q > q' {
      MulAtLeast(q - q', d);
    } else if q < q' {
      MulAtLeast(q' - q, d);
    }
  }

  lemma DivTwice(x: nat, p: nat)
    requires p > 0
    ensures x / 2 / p == x / (2 * p)
  {
    var h := x / 2;
    var q, r := h / p, h % p;
    assert h == q * p + r;
    assert q * (2 * p) == 2 * (q * p);
    DivUnique(x, 2 * p, q, 2 * r + x % 2);
  }

  lemma AndDouble(a: nat, c: nat, b: nat, d: nat, e: nat)
    requires And(a / 2 + b, c / 2 + d) == And(a / 2, c / 2) + e
    ensures And(a + 2 * b, c + 2 * d) == And(a, c) + 2 * e
  {
    hide And;
    AndStep(a + 2 * b, c + 2 * d);
    AndStep(a, c);
    HalfSum(a, b);
    HalfSum(c, d);
  }

  lemma HalfSum(a: nat, b: nat)
    ensures (a + 2 * b) / 2 == a / 2 + b && (a + 2 * b) % 2 == a % 2
  {
  }

  lemma AndSplitsNibble(a: nat, b: nat, c: nat, d: nat)
    requires a < 16 && c < 16
    ensures And(a + 16 * b, c + 16 * d) == And(a, c) + 16 * And(b, d)
  {
    var e := And(b, d);
    AndZero();
    hide And;
    AndDouble(a / 8, c / 8, b, d, e);
    AndDouble(a / 4, c / 4, 2 * b, 2 * d, 2 * e);
    AndDouble(a / 2, c / 2, 4 * b, 4 * d, 4 * e);
    AndDouble(a, c, 8 * b, 8 * d, 8 * e);
  }

  /** `&` works separately on the low byte and on the rest. */
  lemma AndSplits(a: u8, b: nat, c: u8, d: nat)
    ensures And(a + 256 * b, c + 256 * d) == And(a, c) + 256 * And(b, d)
  {
    hide And;
    var al, ah, cl, ch := a % 16, a / 16, c % 16, c / 16;
    assert a == al + 16 * ah && c == cl + 16 * ch;
    AndSplitsNibble(al, ah + 16 * b, cl, ch + 16 * d);
    AndSplitsNibble(ah, b, ch, d);
    AndSplitsNibble(al, ah, cl, ch);
  }

  lemma AndZero()
    ensures And(0, 0) == 0
  {
  }

  /** A byte-wise `&` of two words is their `&`, in either byte order. */
  function AndBytes(x: seq<u8>, y: seq<u8>): (r: seq<u8>)
    requires |x| == |y|
    ensures |r| == |x|
  {
    if x == [] then [] else [And(x[0], y[0])] + AndBytes(x[1..], y[1..])
  }

  lemma {:induction false} AndLE(x: seq<u8>, y: seq<u8>)
    requires |x| == |y|
    ensures FromLE(AndBytes(x, y)) == And(FromLE(x), FromLE(y))
  {
    if x == [] {
      AndZero();
    } else {
      AndLE(x[1..], y[1..]);
      AndLEStep(x, y);
    }
  }

  lemma AndCompose(x: nat, y: nat, a: u8, hx: nat, b: u8, hy: nat)
    requires x == a + 256 * hx && y == b + 256 * hy
    ensures And(x, y) == And(a, b) + 256 * And(hx, hy)
  {
    hide And;
    AndSplits(a, hx, b, hy);
    var u, v := a + 256 * hx, b + 256 * hy;
    assert x == u && y == v;
  }

  lemma AndLEStep(x: seq<u8>, y: seq<u8>)
    requires |x| == |y| > 0 && FromLE(AndBytes(x[1..], y[1..])) == And(FromLE(x[1..]), FromLE(y[1..]))
    ensures FromLE(AndBytes(x, y)) == And(FromLE(x), FromLE(y))
  {
    var z := AndBytes(x, y);
    assert z[0] == And(x[0], y[0]) && z[1..] == AndBytes(x[1..], y[1..]);
    AndCompose(FromLE(x), FromLE(y), x[0], FromLE(x[1..]), y[0], FromLE(y[1..]));
    assert FromLE(z) == z[0] + 256 * FromLE(z[1..]);
  }

  lemma {:induction false} AndBytesSnoc(x: seq<u8>, y: seq<u8>, a: u8, b: u8)
    requires |x| == |y|
    ensures AndBytes(x + [a], y + [b]) == AndBytes(x, y) + [And(a, b)]
  {
    if x == [] {
      assert AndBytes([a], [b]) == [And(a, b)] + AndBytes([], []);
    } else {
      AndBytesSnoc(x[1..], y[1..], a, b);
      assert (x + [a])[1..] == x[1..] + [a] && (y + [b])[1..] == y[1..] + [b];
    }
  }

  lemma {:induction false} AndBE(x: seq<u8>, y: seq<u8>)
    requires |x| == |y|
    ensures FromBE(AndBytes(x, y)) == And(FromBE(x), FromBE(y))
  {
    if x == [] {
      AndZero();
    } else {
      var n := |x| - 1;
      AndBE(x[..n], y[..n]);
      AndBEStep(x[..n], y[..n], x[n], y[n]);
      assert x == x[..n] + [x[n]] && y == y[..n] + [y[n]];
    }
  }

  lemma AndBEStep(x: seq<u8>, y: seq<u8>, a: u8, b: u8)
    requires |x| == |y| && FromBE(AndBytes(x, y)) == And(FromBE(x), FromBE(y))
    ensures FromBE(AndBytes(x + [a], y + [b])) == And(FromBE(x + [a]), FromBE(y + [b]))
  {
    AndBytesSnoc(x, y, a, b);
    FromBESnoc(AndBytes(x, y), And(a, b));
    FromBESnoc(x, a);
    FromBESnoc(y, b);
    AndCompose(FromBE(x + [a]), FromBE(y + [b]), a, FromBE(x), b, FromBE(y));
  }

  lemma FromBESnoc(b: seq<u8>, x: u8)
    ensures FromBE(b + [x]) == x + 256 * FromBE(b)
  {
  }

  lemma HtonlAnd(x: u32, y: u32)
    ensures Htonl(And(x, y)) == And(Htonl(x), Htonl(y))
  {
    var bx, yb := LE(x, 4), LE(y, 4);
    FourBytes();
    FromLEInvertsLE(x, 4);
    FromLEInvertsLE(y, 4);
    AndLE(bx, yb);
    AndBE(bx, yb);
    LEInvertsFromLE(AndBytes(bx, yb));
  }

  /** The leading `n` bits of an address: its host-order quotient by 2^(32-n). */
  function TopBits(addr: u32, n: nat): int
    requires n <= 32
  {
    Htonl(addr) / Pow2(32 - n)
  }

  lemma AllOnesQuotient(p: nat, q: nat)
    requires p > 0 && q > 0 && p * q == TWO32
    ensures 0xffff_ffff / p == q - 1
  {
    DivUnique(0xffff_ffff, p, q - 1, p - 1);
  }

  lemma PowZero()
    ensures Pow2(0) == 1
  {
  }

  /** Both ways of writing the mask come to the ones above bit 32-n. */
  lemma PrefixMaskValue(n: nat)
    requires n <= 32
    ensures 1 <= Pow2(32 - n) <= Pow2(32) == TWO32
    ensures PrefixMask(n) == Htonl(TWO32 - Pow2(32 - n))
  {
    Pow2At32();
    Pow2Adds(n, 32 - n);
    var p, q := Pow2(n), Pow2(32 - n);
    MulAtLeast(p, q);
    hide Htonl, Pow2;
    AllOnesQuotient(p, q);
    if n == 32 {
      assert q == 1 by { PowZero(); }
    }
  }

  /** Masking may be done in either byte order. */
  lemma MaskInHostOrder(a: u32, c: u32, m: u32)
    ensures And(a, Htonl(m)) == And(c, Htonl(m)) <==> And(Htonl(a), m) == And(Htonl(c), m)
  {
    HtonlTwice(a);
    HtonlTwice(c);
    HtonlAnd(Htonl(a), m);
    HtonlAnd(Htonl(c), m);
    hide And, Htonl;
    HtonlInjective(And(Htonl(a), m), And(Htonl(c), m));
  }

  /** A stored prefix mask accepts exactly the addresses that share the net's leading bits. */
  lemma PrefixFilterMatches(a: u32, c: u32, n: nat)
    requires n <= 32
    ensures InFilterNet(a, And(c, PrefixMask(n)), PrefixMask(n)) <==> TopBits(a, n) == TopBits(c, n)
  {
    hide And, Htonl, Pow2, PrefixMask;
    PrefixMaskValue(n);
    MaskInHostOrder(a, c, TWO32 - Pow2(32 - n));
    AndPrefix(Htonl(a), Htonl(c), 32, 32 - n);
  }

  predicate AllDigits(s: string)
  {
    forall i :: 0 <= i < |s| ==> '0' <= s[i] <= '9'
  }

  /** `atoi` on a string of digits; too long a number is in any case above 32. */
  function DecimalValue(s: string): nat
    requires AllDigits(s)
  {
    if s == [] then 0 else 10 * DecimalValue(s[..|s| - 1]) + (s[|s| - 1] - '0') as nat
  }

  /** What `strspn` accepts. */
  lemma AllDigitsIff(s: string)
    ensures AllDigits(s) <==> forall c :: c in s ==> c in "0123456789"
  {
    assert forall i :: 0 <= i < |s| ==> s[i] in s;
    assert forall c: char :: c in "0123456789" <==> '0' <= c <= '9';
  }

  /** The decimal digits of a number. */
  function Decimal(n: nat): (s: string)
    ensures s != "" && AllDigits(s)
  {
    if n < 10 then ["0123456789"[n]] else Decimal(n / 10) + ["0123456789"[n % 10]]
  }

  function Zeros(z: nat): (s: string)
    ensures |s| == z && AllDigits(s)
  {
    seq(z, _ => '0')
  }

  /** The written number is read back, also behind leading zeros. */
  lemma {:induction false} DecimalIsRead(n: nat, z: nat)
    ensures DecimalValue(Zeros(z) + Decimal(n)) == n
  {
    var s, digit := Zeros(z) + Decimal(n), "0123456789"[n % 10];
    DigitValue(n % 10);
    if n < 10 {
      assert s[..|s| - 1] == Zeros(z) && s[|s| - 1] == digit;
      ZerosValue(z);
    } else {
      assert s[..|s| - 1] == Zeros(z) + Decimal(n / 10) && s[|s| - 1] == digit;
      DecimalIsRead(n / 10, z);
    }
  }

  lemma DigitValue(d: nat)
    requires d < 10
    ensures '0' <= "0123456789"[d] <= '9' && ("0123456789"[d] - '0') as nat == d
  {
  }

  lemma {:induction false} ZerosValue(z: nat)
    ensures DecimalValue(Zeros(z)) == 0
  {
    if z > 0 {
      assert Zeros(z)[..z - 1] == Zeros(z - 1);
      ZerosValue(z - 1);
    }
  }

  /** Bit `k` of an `&` is set exactly if it is set in both words. */
  lemma {:induction false} AndBits(x: nat, y: nat, k: nat)
    ensures And(x, y) / Pow2(k) % 2 == 1 <==> x / Pow2(k) % 2 == 1 && y / Pow2(k) % 2 == 1
  {
    hide And, Pow2;
    AndHalves(x, y);
    if k == 0 {
      PowZero();
    } else {
      AndBits(x / 2, y / 2, k - 1);
      PowDouble(k);
      DivTwice(x, Pow2(k - 1));
      DivTwice(y, Pow2(k - 1));
      DivTwice(And(x, y), Pow2(k - 1));
    }
  }

  lemma AndHalves(x: nat, y: nat)
    ensures And(x, y) / 2 == And(x / 2, y / 2)
    ensures And(x, y) % 2 == 1 <==> x % 2 == 1 && y % 2 == 1
  {
    hide And;
    AndStep(x, y);
  }

  /** The option is taken apart at its slash. */
  lemma OptionText(host: string, text: string)
    requires '/' !in host
    ensures var s := host + "/" + text;
            Slash(s) == |host| && s[..|host|] == host && s[|host| + 1..] == text
  {
    var s := host + "/" + text;
    assert s[|host|] == '/' && forall i :: 0 <= i < |host| ==> s[i] == host[i];
  }

  /** Position of the first '/', or the length. */
  function Slash(s: string): (i: nat)
    ensures i <= |s|
    ensures i < |s| ==> s[i] == '/'
    ensures forall j :: 0 <= j < i ==> s[j] != '/'
  {
    if s == "" || s[0] == '/' then 0 else 1 + Slash(s[1..])
  }

  lemma CutHasNoSlash(s: string)
    ensures Slash(s[..Slash(s)]) == Slash(s)
    ensures s[..|s|] == s
  {
    var cut := s[..Slash(s)];
    assert forall i :: 0 <= i < |cut| ==> cut[i] != '/';
  }

  /** The three fields of the global `options` that the net filter uses. */
  class FilterOptions {
    var netfilter: bool
    var net: u32
    var mask: u32

    constructor ()
      ensures !netfilter
    {
      netfilter, net, mask := false, 0, 0;
    }

    /**
     `options_config_get_net_filter`.  `inetAton` stands for the C library's parser, which
     stores nothing when it fails.  A numeric prefix above 32 is reported but still turns
     the filter on, with whatever mask was there before.  `stored` is what is left of the
     option in the configuration: the text is cut at its '/', so a second call fails.
     */
    method GetNetFilter(s: Option<string>, inetAton: string -> Option<u32>)
      returns (ok: bool, stored: Option<string>)
      modifies this
      ensures s.None? ==> !ok && stored == None && unchanged(this)
      ensures s.Some? ==> stored == Some(s.value[..Slash(s.value)]) && Slash(stored.value) == |stored.value|
      ensures s.Some? && Slash(s.value) == |s.value| ==>
                !ok && !netfilter && net == old(net) && mask == old(mask)
      ensures s.Some? && Slash(s.value) < |s.value| ==>
                var c, m := inetAton(s.value[..Slash(s.value)]), s.value[Slash(s.value) + 1..];
                if c.None? then !ok && !netfilter && net == old(net) && mask == old(mask)
                else if AllDigits(m) then
                  && ok && netfilter && net == And(c.value, mask)
                  && (if DecimalValue(m) > 32 then mask == old(mask)
                      else forall a: u32 :: InFilterNet(a, net, mask) <==>
                             TopBits(a, DecimalValue(m)) == TopBits(c.value, DecimalValue(m)))
                  && (forall n: nat, z: nat :: m == Zeros(z) + Decimal(n) ==>
                        if n > 32 then mask == old(mask)
                        else forall a: u32 :: InFilterNet(a, net, mask) <==> TopBits(a, n) == TopBits(c.value, n))
                else
                  && (ok <==> netfilter) && (ok <==> inetAton(m).Some?)
                  && (if ok then mask == inetAton(m).value && net == And(c.value, mask)
                      else mask == old(mask) && net == c.value)
    {
      hide And, Htonl, Pow2, PrefixMask, DecimalValue, TopBits, Decimal, Zeros;
      ok, stored := false, s;
      if s.None? {
        return;
      }
      netfilter := false;
      var slash := Slash(s.value);
      CutHasNoSlash(s.value);
      if slash == |s.value| {
        return;
      }
      stored := Some(s.value[..slash]);
      var maskText := s.value[slash + 1..];
      var c := inetAton(s.value[..slash]);
      if c.None? {
        return;
      }
      net := c.value;
      if AllDigits(maskText) {
        var n := DecimalValue(maskText);
        forall k: nat, z: nat | maskText == Zeros(z) + Decimal(k) ensures k == n {
          DecimalIsRead(k, z);
        }
        if n <= 32 {
          mask := PrefixMask(n);
          forall a: u32
            ensures InFilterNet(a, And(c.value, mask), mask) <==> TopBits(a, n) == TopBits(c.value, n)
          {
            PrefixFilterMatches(a, c.value, n);
          }
        }
        netfilter := true;
      } else {
        var m := inetAton(maskText);
        if m.None? {
          return;
        }
        mask := m.value;
        netfilter := true;
      }
      net := And(net, mask);
      ok := true;
    }
  }
}
