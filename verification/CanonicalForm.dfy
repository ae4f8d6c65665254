/**
 The canonical request payload: the sorted normalized values as compact ASCII-only JSON. This is the
 string that is hashed for idempotency, and it determines the multiset of values.
 */
module CanonicalForm {
  import opened Sorting

  // ---- list.sort() on strings ----

  predicate StringLeq(a: string, b: string) {
    a == "" || (b != "" && (a[0] < b[0] || (a[0] == b[0] && StringLeq(a[1..], b[1..]))))
  }

  lemma {:induction false} StringLeqTotal(a: string, b: string)
    ensures StringLeq(a, b) || StringLeq(b, a)
    ensures StringLeq(a, b) && StringLeq(b, a) ==> a == b
  {
    if a != "" && b != "" {
      StringLeqTotal(a[1..], b[1..]);
      assert a == [a[0]] + a[1..] && b == [b[0]] + b[1..];
    }
  }

  lemma {:induction false} StringLeqTransitive(a: string, b: string, c: string)
    requires StringLeq(a, b) && StringLeq(b, c)
    ensures StringLeq(a, c)
  {
    if a != "" && a[0] == b[0] && b[0] == c[0] {
      StringLeqTransitive(a[1..], b[1..], c[1..]);
    }
  }

  lemma StringOrder()
    ensures TotalOrder(StringLeq)
  {
    forall a: string, b: string
      ensures (StringLeq(a, b) || StringLeq(b, a)) && (StringLeq(a, b) && StringLeq(b, a) ==> a == b)
    {
      StringLeqTotal(a, b);
    }
    forall a: string, b: string, c: string | StringLeq(a, b) && StringLeq(b, c) ensures StringLeq(a, c) {
      StringLeqTransitive(a, b, c);
    }
  }

  // ---- json.dumps with ensure_ascii ----

  function HexDigit(d: nat): char
    requires d < 16
  {
    if d < 10 then '0' + d as char else 'a' + (d - 10) as char
  }

  function Hex4(n: nat): (s: string)
    requires n < 0x10000
    ensures |s| == 4
  {
    var n1 := n / 16;
    var n2 := n1 / 16;
    [HexDigit(n2 / 16), HexDigit(n2 % 16), HexDigit(n1 % 16), HexDigit(n % 16)]
  }

  function UnicodeEscape(n: nat): (s: string)
    requires n < 0x10000
    ensures |s| == 6
  {
    "\\u" + Hex4(n)
  }

  /** A character outside printable ASCII, as one escape or as a surrogate pair of them. */
  function LongEscape(n: nat): string
    requires n < 0x110000
  {
    if n < 0x10000 then UnicodeEscape(n)
    else
      UnicodeEscape(0xD800 + (n - 0x10000) / 0x400) + UnicodeEscape(0xDC00 + (n - 0x10000) % 0x400)
  }

  /** One character of a JSON string: itself, a short escape, \uXXXX, or a surrogate pair. */
  function Escape(c: char): (s: string)
    ensures s != "" && s[0] != '"'
  {
    if c == '"' then "\\\""
    else if c == '\\' then "\\\\"
    else if ' ' <= c <= '~' then [c]
    else if c == '\n' then "\\n"
    else if c == '\r' then "\\r"
    else if c == '\t' then "\\t"
    else if c as int == 0x0C then "\\f"
    else if c as int == 0x08 then "\\b"
    else LongEscape(c as int)
  }

  function EscapeAll(s: string): string {
    if s == "" then "" else Escape(s[0]) + EscapeAll(s[1..])
  }

  function Quote(s: string): string {
    "\"" + EscapeAll(s) + "\""
  }

  function Tail(items: seq<string>): string {
    if items == [] then "]}" else "," + Quote(items[0]) + Tail(items[1..])
  }

  function Items(items: seq<string>): string {
    if items == [] then "]}" else Quote(items[0]) + Tail(items[1..])
  }

  /** `json.dumps({"domains": sorted(values)}, separators=(",", ":"))` */
  function Canonical(values: seq<string>): string {
    "{\"domains\":[" + Items(Sort(values, StringLeq))
  }

  // ---- The escapes are JSON ----

  /** The value of a hexadecimal digit, 16 for any other character. */
  function HexValue(c: char): nat {
    if '0' <= c <= '9' then (c - '0') as nat
    else if 'a' <= c <= 'f' then 10 + (c - 'a') as nat
    else if 'A' <= c <= 'F' then 10 + (c - 'A') as nat
    else 16
  }

  /** Four hexadecimal digits of value n. */
  predicate Hex4Means(s: string, n: nat) {
    && |s| == 4 && (forall k :: 0 <= k < 4 ==> HexValue(s[k]) < 16)
    && n == 0x1000 * HexValue(s[0]) + 0x100 * HexValue(s[1]) + 0x10 * HexValue(s[2]) + HexValue(s[3])
  }

  /** What a piece of a JSON string stands for, by section 7 of RFC 8259. */
  ghost predicate Means(e: string, n: nat) {
    || (|e| == 1 && e[0] as nat == n && n >= 0x20 && e[0] != '"' && e[0] != '\\')
    || (|e| == 2 && e[0] == '\\' && ShortMeans(e[1], n))
    || (|e| == 6 && e[..2] == "\\u" && Hex4Means(e[2..], n))
    || (|e| == 12
        && exists h: nat, l: nat ::
             && UnicodeMeans(e[..6], h) && 0xD800 <= h < 0xDC00
             && UnicodeMeans(e[6..], l) && 0xDC00 <= l < 0xE000
             && n == 0x10000 + (h - 0xD800) * 0x400 + (l - 0xDC00))
  }

  predicate ShortMeans(c: char, n: nat) {
    || (c in {'"', '\\', '/'} && n == c as nat)
    || (c == 'b' && n == 0x08) || (c == 'f' && n == 0x0C) || (c == 'n' && n == 0x0A)
    || (c == 'r' && n == 0x0D) || (c == 't' && n == 0x09)
  }

  predicate UnicodeMeans(s: string, n: nat) {
    |s| == 6 && s[..2] == "\\u" && Hex4Means(s[2..], n)
  }

  lemma Hex4IsHexadecimal(n: nat)
    requires n < 0x10000
    ensures Hex4Means(Hex4(n), n) && forall k :: 0 <= k < 4 ==> Hex4(n)[k] as int < 128
  {
    var n1 := n / 16;
    var n2 := n1 / 16;
    assert n == 16 * n1 + n % 16 && n1 == 16 * n2 + n1 % 16 && n2 == 16 * (n2 / 16) + n2 % 16;
    DigitMeans(n2 / 16);
    DigitMeans(n2 % 16);
    DigitMeans(n1 % 16);
    DigitMeans(n % 16);
  }

  lemma DigitMeans(d: nat)
    requires d < 16
    ensures HexValue(HexDigit(d)) == d && HexDigit(d) as int < 128
  {
  }

  lemma UnicodeEscapeMeans(n: nat)
    requires n < 0x10000
    ensures UnicodeMeans(UnicodeEscape(n), n) && forall k :: 0 <= k < 6 ==> UnicodeEscape(n)[k] as int < 128
  {
    Hex4IsHexadecimal(n);
    assert UnicodeEscape(n)[..2] == "\\u" && UnicodeEscape(n)[2..] == Hex4(n);
  }

  /** Every character is written as JSON for itself, in ASCII. */
  lemma EscapeMeans(c: char)
    ensures Means(Escape(c), c as nat)
    ensures forall k :: 0 <= k < |Escape(c)| ==> Escape(c)[k] as int < 128
  {
    EscapeKinds(c);
    if !Plain(c) && !Short(c) {
      LongEscapeMeans(c as nat);
    }
  }

  lemma LongEscapeMeans(n: nat)
    requires n < 0x110000
    ensures Means(LongEscape(n), n)
    ensures forall k :: 0 <= k < |LongEscape(n)| ==> LongEscape(n)[k] as int < 128
  {
    if n < 0x10000 {
      UnicodeEscapeMeans(n);
    } else {
      var h, l := HighPart(n), LowPart(n);
      UnicodeEscapeMeans(h);
      UnicodeEscapeMeans(l);
      assert LongEscape(n)[..6] == UnicodeEscape(h) && LongEscape(n)[6..] == UnicodeEscape(l);
      assert n == 0x10000 + (h - 0xD800) * 0x400 + (l - 0xDC00);
    }
  }

  // ---- The encoding determines what was encoded ----

  lemma HexDigitInjective(a: nat, b: nat)
    requires a < 16 && b < 16 && HexDigit(a) == HexDigit(b)
    ensures a == b
  {
  }

  lemma Hex4Injective(a: nat, b: nat)
    requires a < 0x10000 && b < 0x10000 && Hex4(a) == Hex4(b)
    ensures a == b
  {
    var a1, b1 := a / 16, b / 16;
    var a2, b2 := a1 / 16, b1 / 16;
    assert Hex4(a)[0] == Hex4(b)[0] && Hex4(a)[1] == Hex4(b)[1];
    assert Hex4(a)[2] == Hex4(b)[2] && Hex4(a)[3] == Hex4(b)[3];
    HexDigitInjective(a2 / 16, b2 / 16);
    HexDigitInjective(a2 % 16, b2 % 16);
    HexDigitInjective(a1 % 16, b1 % 16);
    HexDigitInjective(a % 16, b % 16);
    assert a2 == b2;
    assert a1 == b1;
  }

  /** The number of a \uXXXX escape is determined by any string that starts with it. */
  lemma UnicodeEscapePrefix(m: nat, n: nat, x: string, y: string)
    requires m < 0x10000 && n < 0x10000
    requires UnicodeEscape(m) + x == UnicodeEscape(n) + y
    ensures m == n && x == y
  {
    var u, v := UnicodeEscape(m) + x, UnicodeEscape(n) + y;
    assert u[..6] == UnicodeEscape(m) && v[..6] == UnicodeEscape(n);
    assert u[6..] == x && v[6..] == y;
    assert UnicodeEscape(m)[2..] == Hex4(m) && UnicodeEscape(n)[2..] == Hex4(n);
    Hex4Injective(m, n);
  }

  /** How many characters an escape takes, and how it begins, say which kind it is. */
  predicate Plain(c: char) {
    ' ' <= c <= '~' && c != '"' && c != '\\'
  }

  predicate Short(c: char) {
    c == '"' || c == '\\' || c == '\n' || c == '\r' || c == '\t' || c as int == 0x0C || c as int == 0x08
  }

  lemma EscapeKinds(c: char)
    ensures Plain(c) ==> Escape(c) == [c]
    ensures Short(c) ==> |Escape(c)| == 2 && Escape(c)[0] == '\\' && Escape(c)[1] != 'u'
    ensures !Plain(c) && !Short(c) ==>
              Escape(c) == LongEscape(c as int)
              && |Escape(c)| >= 6 && Escape(c)[0] == '\\' && Escape(c)[1] == 'u'
  {
  }

  lemma ShortPrefix(c: char, d: char, x: string, y: string)
    requires Short(c) && Short(d) && Escape(c) + x == Escape(d) + y
    ensures c == d && x == y
  {
    EscapeKinds(c);
    EscapeKinds(d);
    var u, v := Escape(c) + x, Escape(d) + y;
    assert u[1] == Escape(c)[1] && v[1] == Escape(d)[1];
    assert u[2..] == x && v[2..] == y;
  }

  function HighPart(m: nat): (h: nat)
    requires 0x10000 <= m < 0x110000
    ensures 0xD800 <= h < 0xDC00
  {
    0xD800 + (m - 0x10000) / 0x400
  }

  function LowPart(m: nat): (l: nat)
    requires 0x10000 <= m < 0x110000
    ensures 0xDC00 <= l < 0xE000
  {
    0xDC00 + (m - 0x10000) % 0x400
  }

  lemma PairStep(m: nat, x: string)
    requires 0x10000 <= m < 0x110000
    ensures LongEscape(m) + x == UnicodeEscape(HighPart(m)) + (UnicodeEscape(LowPart(m)) + x)
  {
  }

  lemma PartsInjective(m: nat, n: nat)
    requires 0x10000 <= m < 0x110000 && 0x10000 <= n < 0x110000
    requires HighPart(m) == HighPart(n) && LowPart(m) == LowPart(n)
    ensures m == n
  {
  }

  lemma PairPrefix(m: nat, n: nat, x: string, y: string)
    requires 0x10000 <= m < 0x110000 && 0x10000 <= n < 0x110000
    requires LongEscape(m) + x == LongEscape(n) + y
    ensures m == n && x == y
  {
    PairStep(m, x);
    PairStep(n, y);
    UnicodeEscapePrefix(HighPart(m), HighPart(n), UnicodeEscape(LowPart(m)) + x, UnicodeEscape(LowPart(n)) + y);
    UnicodeEscapePrefix(LowPart(m), LowPart(n), x, y);
    PartsInjective(m, n);
  }

  /** A surrogate pair never starts like the escape of a character, since no character is a surrogate. */
  lemma SurrogateIsNoCharacter(m: nat, n: nat, x: string, y: string)
    requires 0x10000 <= m < 0x110000 && n < 0x10000
    requires LongEscape(m) + x == LongEscape(n) + y
    ensures 0xD800 <= n < 0xDC00
  {
    PairStep(m, x);
    UnicodeEscapePrefix(HighPart(m), n, UnicodeEscape(LowPart(m)) + x, y);
  }

  lemma LongEscapePrefix(m: nat, n: nat, x: string, y: string)
    requires m < 0x110000 && !(0xD800 <= m < 0xDC00)
    requires n < 0x110000 && !(0xD800 <= n < 0xDC00)
    requires LongEscape(m) + x == LongEscape(n) + y
    ensures m == n && x == y
  {
    if m < 0x10000 && n < 0x10000 {
      UnicodeEscapePrefix(m, n, x, y);
    } else if m < 0x10000 {
      SurrogateIsNoCharacter(n, m, y, x);
    } else if n < 0x10000 {
      SurrogateIsNoCharacter(m, n, x, y);
    } else {
      PairPrefix(m, n, x, y);
    }
  }

  /** The escapes form a prefix code. */
  lemma EscapePrefix(c: char, d: char, x: string, y: string)
    requires Escape(c) + x == Escape(d) + y
    ensures c == d && x == y
  {
    EscapeKinds(c);
    EscapeKinds(d);
    var u, v := Escape(c) + x, Escape(d) + y;
    assert u[0] == Escape(c)[0] && v[0] == Escape(d)[0];
    if Plain(c) || Plain(d) {
      assert u[1..] == v[1..];
      assert Plain(c) && Plain(d);
      assert u[1..] == x && v[1..] == y;
    } else {
      assert u[1] == Escape(c)[1] && v[1] == Escape(d)[1];
      if Short(c) {
        ShortPrefix(c, d, x, y);
      } else {
        LongEscapePrefix(c as int, d as int, x, y);
      }
    }
  }

  lemma FirstOfEscapeAll(s: string, x: string)
    ensures (EscapeAll(s) + "\"" + x)[0] == '"' <==> s == ""
  {
    if s != "" {
      assert EscapeAll(s)[0] == Escape(s[0])[0];
    }
  }

  lemma EscapeAllStep(s: string, x: string)
    requires s != ""
    ensures EscapeAll(s) + "\"" + x == Escape(s[0]) + (EscapeAll(s[1..]) + "\"" + x)
  {
  }

  /** A quoted string ends at its closing quote and nowhere else. */
  lemma {:induction false} EscapeAllPrefix(s: string, t: string, x: string, y: string)
    requires EscapeAll(s) + "\"" + x == EscapeAll(t) + "\"" + y
    ensures s == t && x == y
  {
    FirstOfEscapeAll(s, x);
    FirstOfEscapeAll(t, y);
    if s == "" {
      assert EscapeAll(s) + "\"" + x == "\"" + x && EscapeAll(t) + "\"" + y == "\"" + y;
      assert ("\"" + x)[1..] == x && ("\"" + y)[1..] == y;
    } else {
      EscapeAllStep(s, x);
      EscapeAllStep(t, y);
      EscapePrefix(s[0], t[0], EscapeAll(s[1..]) + "\"" + x, EscapeAll(t[1..]) + "\"" + y);
      EscapeAllPrefix(s[1..], t[1..], x, y);
      assert s == [s[0]] + s[1..] && t == [t[0]] + t[1..];
    }
  }

  lemma QuoteStep(s: string, x: string)
    ensures (Quote(s) + x)[1..] == EscapeAll(s) + "\"" + x
  {
  }

  lemma QuotePrefix(s: string, t: string, x: string, y: string)
    requires Quote(s) + x == Quote(t) + y
    ensures s == t && x == y
  {
    QuoteStep(s, x);
    QuoteStep(t, y);
    EscapeAllPrefix(s, t, x, y);
  }

  lemma FirstOfTail(a: seq<string>)
    ensures Tail(a) != "" && (Tail(a)[0] == ']' <==> a == [])
  {
  }

  lemma TailStep(a: seq<string>)
    requires a != []
    ensures Tail(a)[1..] == Quote(a[0]) + Tail(a[1..])
  {
  }

  lemma {:induction false} TailInjective(a: seq<string>, b: seq<string>)
    requires Tail(a) == Tail(b)
    ensures a == b
  {
    FirstOfTail(a);
    FirstOfTail(b);
    if a != [] {
      TailStep(a);
      TailStep(b);
      QuotePrefix(a[0], b[0], Tail(a[1..]), Tail(b[1..]));
      TailInjective(a[1..], b[1..]);
      assert a == [a[0]] + a[1..] && b == [b[0]] + b[1..];
    }
  }

  lemma ItemsInjective(a: seq<string>, b: seq<string>)
    requires Items(a) == Items(b)
    ensures a == b
  {
    assert a == [] ==> Items(a)[0] == ']';
    assert b == [] ==> Items(b)[0] == ']';
    assert a != [] ==> Items(a)[0] == '"';
    assert b != [] ==> Items(b)[0] == '"';
    if a != [] && b != [] {
      QuotePrefix(a[0], b[0], Tail(a[1..]), Tail(b[1..]));
      TailInjective(a[1..], b[1..]);
      assert a == [a[0]] + a[1..] && b == [b[0]] + b[1..];
    }
  }

  /**
   The hashed string is the same for two lists of normalized values exactly when they are the same
   multiset, whatever characters, quotes and brackets the values contain.
   */
  lemma CanonicalDecidesMultiset(a: seq<string>, b: seq<string>)
    ensures Canonical(a) == Canonical(b) <==> multiset(a) == multiset(b)
  {
    StringOrder();
    SortDecidesPermutation(a, b, StringLeq);
    var head := "{\"domains\":[";
    if Canonical(a) == Canonical(b) {
      assert Canonical(a)[|head|..] == Items(Sort(a, StringLeq));
      assert Canonical(b)[|head|..] == Items(Sort(b, StringLeq));
      ItemsInjective(Sort(a, StringLeq), Sort(b, StringLeq));
    }
  }
}
