/** Text encodings that the audit chain input is made of: lower-case hex, base-ten
    integers and the canonical UUID form. Each is shown injective and free of the
    field separator '|', so that a joined chain input can be taken apart again. */
module Text {
  type Byte = x: int | 0 <= x < 256

  /** domain.UUID: sixteen bytes. */
  type Uuid = u: seq<Byte> | |u| == 16 witness seq(16, _ => 0)

  predicate PipeFree(s: string) {
    '|' !in s
  }

  function HexDigit(n: int): (c: char)
    requires 0 <= n < 16
    ensures c != '|' && c != '-' && c == "0123456789abcdef"[n]
  {
    if n < 10 then '0' + n as char else 'a' + (n - 10) as char
  }

  lemma HexDigitInjective(m: int, n: int)
    requires 0 <= m < 16 && 0 <= n < 16 && HexDigit(m) == HexDigit(n)
    ensures m == n
  {
    assert HexDigit(m) as int == if m < 10 then 48 + m else 87 + m;
    assert HexDigit(n) as int == if n < 10 then 48 + n else 87 + n;
  }

  /** hex.EncodeToString */
  function Hex(bytes: seq<Byte>): (s: string)
    ensures |s| == 2 * |bytes|
    ensures PipeFree(s)
  {
    if bytes == [] then ""
    else [HexDigit(bytes[0] / 16), HexDigit(bytes[0] % 16)] + Hex(bytes[1..])
  }

  lemma {:induction false} HexInjective(a: seq<Byte>, b: seq<Byte>)
    requires Hex(a) == Hex(b)
    ensures a == b
  {
    assert |Hex(a)| == |Hex(b)|;
    if a != [] {
      HexDigitInjective(a[0] / 16, b[0] / 16) by {
        assert Hex(a)[0] == HexDigit(a[0] / 16) && Hex(b)[0] == HexDigit(b[0] / 16);
      }
      HexDigitInjective(a[0] % 16, b[0] % 16) by {
        assert Hex(a)[1] == HexDigit(a[0] % 16) && Hex(b)[1] == HexDigit(b[0] % 16);
      }
      assert Hex(a)[2..] == Hex(a[1..]) && Hex(b)[2..] == Hex(b[1..]);
      HexInjective(a[1..], b[1..]);
      assert a == [a[0]] + a[1..] && b == [b[0]] + b[1..];
    }
  }

  function Digits(n: nat): (s: string)
    ensures |s| > 0 && forall i :: 0 <= i < |s| ==> '0' <= s[i] <= '9'
  {
    var last := ['0' + (n % 10) as char];
    if n < 10 then last else Digits(n / 10) + last
  }

  /** strconv.FormatInt(n, 10) */
  function Decimal(n: int): (s: string)
    ensures PipeFree(s)
  {
    if n < 0 then "-" + Digits(-n) else Digits(n)
  }

  function DigitsValue(s: string): int {
    if s == "" then 0 else 10 * DigitsValue(s[..|s| - 1]) + (s[|s| - 1] as int - '0' as int)
  }

  function ParseDecimal(s: string): int {
    if s != "" && s[0] == '-' then -DigitsValue(s[1..]) else DigitsValue(s)
  }

  lemma {:induction false} DigitsRoundTrip(n: nat)
    ensures DigitsValue(Digits(n)) == n
  {
    var s := Digits(n);
    if n < 10 {
      assert s[..|s| - 1] == "";
    } else {
      DigitsRoundTrip(n / 10);
      assert s[..|s| - 1] == Digits(n / 10);
    }
  }

  lemma DecimalRoundTrip(n: int)
    ensures ParseDecimal(Decimal(n)) == n
  {
    if n < 0 {
      DigitsRoundTrip(-n);
      assert Decimal(n)[1..] == Digits(-n);
    } else {
      DigitsRoundTrip(n);
    }
  }

  /** UUID.String: 8-4-4-4-12 hex digits. */
  function UuidString(u: Uuid): (s: string)
    ensures |s| == 36 && PipeFree(s)
  {
    Hex(u[0..4]) + ("-" + (Hex(u[4..6]) + ("-" + (Hex(u[6..8]) + ("-" + (Hex(u[8..10]) + ("-" + Hex(u[10..16]))))))))
  }

  /** A hex group of known width is read off the front. */
  lemma SplitGroup(a: seq<Byte>, x: string, b: seq<Byte>, y: string)
    requires |a| == |b|
    requires Hex(a) + ("-" + x) == Hex(b) + ("-" + y)
    ensures a == b && x == y
  {
    var s, t := Hex(a) + ("-" + x), Hex(b) + ("-" + y);
    var n := 2 * |a|;
    assert Hex(a) == s[..n] && Hex(b) == t[..n];
    assert x == s[n + 1..] && y == t[n + 1..];
    HexInjective(a, b);
  }

  lemma UuidStringInjective(u: Uuid, v: Uuid)
    requires UuidString(u) == UuidString(v)
    ensures u == v
  {
    hide Hex, HexDigit;
    var u4, v4 := Hex(u[10..16]), Hex(v[10..16]);
    var u3, v3 := Hex(u[8..10]) + ("-" + u4), Hex(v[8..10]) + ("-" + v4);
    var u2, v2 := Hex(u[6..8]) + ("-" + u3), Hex(v[6..8]) + ("-" + v3);
    var u1, v1 := Hex(u[4..6]) + ("-" + u2), Hex(v[4..6]) + ("-" + v2);
    SplitGroup(u[0..4], u1, v[0..4], v1);
    SplitGroup(u[4..6], u2, v[4..6], v2);
    SplitGroup(u[6..8], u3, v[6..8], v3);
    SplitGroup(u[8..10], u4, v[8..10], v4);
    HexInjective(u[10..16], v[10..16]);
    UuidGroups(u);
    UuidGroups(v);
  }

  /** Dashes after the digits of bytes 4, 6, 8 and 10, and nothing else but the hex digits in order. */
  lemma UuidLayout(u: Uuid)
    ensures var s := UuidString(u);
            && s[8] == s[13] == s[18] == s[23] == '-'
            && s[..8] + s[9..13] + s[14..18] + s[19..23] + s[24..] == Hex(u)
  {
    hide Hex, HexDigit;
    Dashes(Hex(u[0..4]), Hex(u[4..6]), Hex(u[6..8]), Hex(u[8..10]), Hex(u[10..16]));
    HexOfGroups(u);
  }

  lemma Dashes(a: string, b: string, c: string, d: string, e: string)
    requires |a| == 8 && |b| == |c| == |d| == 4 && |e| == 12
    ensures var s := a + ("-" + (b + ("-" + (c + ("-" + (d + ("-" + e)))))));
            && |s| == 36 && s[8] == s[13] == s[18] == s[23] == '-'
            && s[..8] == a && s[9..13] == b && s[14..18] == c && s[19..23] == d && s[24..] == e
  {
  }

  lemma HexOfGroups(u: Uuid)
    ensures Hex(u[0..4]) + Hex(u[4..6]) + Hex(u[6..8]) + Hex(u[8..10]) + Hex(u[10..16]) == Hex(u)
  {
    hide Hex, HexDigit;
    HexConcat(u[0..4], u[4..6]);
    HexConcat(u[0..4] + u[4..6], u[6..8]);
    HexConcat(u[0..4] + u[4..6] + u[6..8], u[8..10]);
    HexConcat(u[0..4] + u[4..6] + u[6..8] + u[8..10], u[10..16]);
    UuidGroups(u);
  }

  lemma HexOfNothing()
    ensures Hex([]) == ""
  {
  }

  lemma HexStep(bytes: seq<Byte>)
    requires bytes != []
    ensures Hex(bytes) == [HexDigit(bytes[0] / 16), HexDigit(bytes[0] % 16)] + Hex(bytes[1..])
  {
  }

  lemma {:induction false} HexConcat(a: seq<Byte>, b: seq<Byte>)
    ensures Hex(a + b) == Hex(a) + Hex(b)
  {
    hide Hex, HexDigit;
    if a == [] {
      assert a + b == b;
      HexOfNothing();
    } else {
      HexConcat(a[1..], b);
      assert (a + b)[0] == a[0] && (a + b)[1..] == a[1..] + b;
      HexStep(a + b);
      HexStep(a);
    }
  }

  /** Each byte is two digits, the high one first. */
  lemma {:induction false} HexPlaces(bytes: seq<Byte>, i: nat)
    requires i < |bytes|
    ensures Hex(bytes)[2 * i] == "0123456789abcdef"[bytes[i] / 16]
    ensures Hex(bytes)[2 * i + 1] == "0123456789abcdef"[bytes[i] % 16]
  {
    if i > 0 {
      HexPlaces(bytes[1..], i - 1);
      assert Hex(bytes)[2 * i] == Hex(bytes[1..])[2 * (i - 1)];
      assert Hex(bytes)[2 * i + 1] == Hex(bytes[1..])[2 * (i - 1) + 1];
    }
  }

  lemma UuidGroups(u: Uuid)
    ensures u == u[0..4] + u[4..6] + u[6..8] + u[8..10] + u[10..16]
  {
  }

  /** The fields of a text between its separators. */
  function Fields(s: string): (fs: seq<string>)
    ensures |fs| > 0 && forall i :: 0 <= i < |fs| ==> PipeFree(fs[i])
  {
    if s == "" then [""] else WithChar(s[0], Fields(s[1..]))
  }

  /** Put one more character in front: a separator opens a new field. */
  function WithChar(c: char, fs: seq<string>): seq<string>
    requires |fs| > 0
  {
    if c == '|' then [""] + fs else [[c] + fs[0]] + fs[1..]
  }

  lemma WithCharConcat(c: char, fs: seq<string>, gs: seq<string>)
    requires |fs| > 0
    ensures WithChar(c, fs + gs) == WithChar(c, fs) + gs
  {
  }

  lemma {:induction false} FieldsOfPipeFree(s: string)
    requires PipeFree(s)
    ensures Fields(s) == [s]
  {
    if s != "" {
      FieldsOfPipeFree(s[1..]);
      assert s == [s[0]] + s[1..];
    }
  }

  lemma {:induction false} FieldsJoin(a: string, b: string)
    ensures Fields(a + "|" + b) == Fields(a) + Fields(b)
  {
    var joined := a + "|" + b;
    if a == "" {
      assert joined[0] == '|' && joined[1..] == b;
      FieldsStep(joined);
    } else {
      assert joined[0] == a[0] && joined[1..] == a[1..] + "|" + b;
      FieldsJoin(a[1..], b);
      FieldsStep(joined);
      FieldsStep(a);
      hide Fields, WithChar;
      WithCharConcat(a[0], Fields(a[1..]), Fields(b));
    }
  }

  lemma FieldsStep(s: string)
    requires s != ""
    ensures Fields(s) == WithChar(s[0], Fields(s[1..]))
  {
  }

  /** The first separator is where the first pipe-free field ends. */
  lemma SplitFirst(a: string, x: string, b: string, y: string)
    requires PipeFree(a) && PipeFree(b)
    requires a + "|" + x == b + "|" + y
    ensures a == b && x == y
  {
    var s, t := a + "|" + x, b + "|" + y;
    assert s[|a|] == '|' && t[|b|] == '|';
    assert a == s[..|a|] && b == t[..|b|];
    assert x == s[|a| + 1..] && y == t[|b| + 1..];
  }

  /** The last separator is where the last pipe-free field begins. */
  lemma SplitLast(x: string, a: string, y: string, b: string)
    requires PipeFree(a) && PipeFree(b)
    requires x + "|" + a == y + "|" + b
    ensures a == b && x == y
  {
    var s, t := x + "|" + a, y + "|" + b;
    assert s[|x|] == '|' && t[|y|] == '|';
    assert x == s[..|x|] && y == t[..|y|];
    assert a == s[|x| + 1..] && b == t[|y| + 1..];
  }
}
