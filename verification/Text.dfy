/** The string operations of JavaScript that the gateway uses, over ASCII case mapping. */
module Text {

  function LowerChar(c: char): char {
    if 'A' <= c <= 'Z' then (c as int + 32) as char else c
  }

  function Lower(s: string): (r: string)
    ensures |r| == |s|
  {
    seq(|s|, i requires 0 <= i < |s| => LowerChar(s[i]))
  }

  /** The white space and line terminators that `trim` removes. */
  predicate IsSpace(c: char) {
    || '\t' <= c <= '\r' || c == ' ' || c == '\U{a0}' || c == '\U{1680}' || '\U{2000}' <= c <= '\U{200a}'
    || c == '\U{2028}' || c == '\U{2029}' || c == '\U{202f}' || c == '\U{205f}' || c == '\U{3000}' || c == '\U{feff}'
  }

  function TrimLeft(s: string): string {
    if s != "" && IsSpace(s[0]) then TrimLeft(s[1..]) else s
  }

  function TrimRight(s: string): string {
    if s != "" && IsSpace(s[|s| - 1]) then TrimRight(s[..|s| - 1]) else s
  }

  function Trim(s: string): string { TrimRight(TrimLeft(s)) }

  predicate Blank(s: string) { forall i | 0 <= i < |s| :: IsSpace(s[i]) }

  /** It neither starts nor ends with white space. */
  predicate Bare(s: string) { s != "" ==> !IsSpace(s[0]) && !IsSpace(s[|s| - 1]) }

  /** A text and the white space around it. */
  ghost predicate Padded(s: string, t: string) {
    exists l, r :: Blank(l) && Blank(r) && s == l + t + r && Bare(t)
  }

  lemma {:induction false} TrimLeftIs(s: string) returns (l: string)
    ensures Blank(l) && s == l + TrimLeft(s) && (TrimLeft(s) != "" ==> !IsSpace(TrimLeft(s)[0]))
  {
    if s != "" && IsSpace(s[0]) {
      var rest := TrimLeftIs(s[1..]);
      l := [s[0]] + rest;
    } else {
      l := "";
    }
  }

  lemma {:induction false} TrimRightIs(s: string) returns (r: string)
    ensures Blank(r) && s == TrimRight(s) + r && (TrimRight(s) != "" ==> !IsSpace(TrimRight(s)[|TrimRight(s)| - 1]))
  {
    if s != "" && IsSpace(s[|s| - 1]) {
      var rest := TrimRightIs(s[..|s| - 1]);
      r := rest + [s[|s| - 1]];
    } else {
      r := "";
    }
  }

  lemma {:induction false} TrimLeftDrops(l: string, t: string)
    requires Blank(l) && (t != "" ==> !IsSpace(t[0]))
    ensures TrimLeft(l + t) == t
  {
    if l == "" {
      assert l + t == t;
    } else {
      TrimLeftDrops(l[1..], t);
      assert (l + t)[1..] == l[1..] + t;
    }
  }

  lemma {:induction false} TrimRightDrops(t: string, r: string)
    requires Blank(r) && (t != "" ==> !IsSpace(t[|t| - 1]))
    ensures TrimRight(t + r) == t
  {
    if r == "" {
      assert t + r == t;
    } else {
      TrimRightDrops(t, r[..|r| - 1]);
      assert (t + r)[..|t + r| - 1] == t + r[..|r| - 1];
    }
  }

  /** Trimming gives exactly what stands between the white space at both ends. */
  lemma TrimIff(s: string, t: string)
    ensures Trim(s) == t <==> Padded(s, t)
  {
    if Trim(s) == t {
      TrimPads(s);
    }
    if l, r :| Blank(l) && Blank(r) && s == l + t + r && Bare(t) {
      if t == "" {
        TrimLeftDrops(s, "");
        assert s + "" == s;
      } else {
        assert s == l + (t + r);
        TrimLeftDrops(l, t + r);
        TrimRightDrops(t, r);
      }
    }
  }

  lemma TrimPads(s: string)
    ensures Padded(s, Trim(s))
  {
    var l := TrimLeftIs(s);
    var r := TrimRightIs(TrimLeft(s));
    assert s == l + Trim(s) + r;
  }

  /** `s.split(sep)` for a one-character separator: one more part than there are separators. */
  function Split(s: string, sep: char): (parts: seq<string>)
    ensures parts != []
  {
    if s == "" then [""]
    else
      Prepend(s[0], sep, Split(s[1..], sep))
  }

  function Prepend(c: char, sep: char, parts: seq<string>): seq<string>
    requires parts != []
  {
    if c == sep then [""] + parts else [[c] + parts[0]] + parts[1..]
  }

  function Join(parts: seq<string>, sep: char): string
    requires parts != []
  {
    if |parts| == 1 then parts[0] else parts[0] + [sep] + Join(parts[1..], sep)
  }

  lemma {:induction false} SplitPlain(s: string, sep: char)
    requires sep !in s
    ensures Split(s, sep) == [s]
  {
    if s != "" {
      SplitPlain(s[1..], sep);
      assert s[0] in s && [s[0]] + s[1..] == s;
    }
  }

  lemma {:induction false} SplitConcat(a: string, b: string, sep: char)
    ensures Split(a + [sep] + b, sep) == Split(a, sep) + Split(b, sep)
  {
    var s := a + [sep] + b;
    if a == "" {
      assert s[1..] == b;
    } else {
      SplitConcat(a[1..], b, sep);
      assert s[0] == a[0] && s[1..] == a[1..] + [sep] + b;
      PrependConcat(a[0], sep, Split(a[1..], sep), Split(b, sep));
    }
  }

  lemma PrependConcat(c: char, sep: char, l: seq<string>, r: seq<string>)
    requires l != []
    ensures Prepend(c, sep, l + r) == Prepend(c, sep, l) + r
  {
    assert (l + r)[1..] == l[1..] + r;
  }

  lemma {:induction false} SplitJoin(parts: seq<string>, sep: char)
    requires parts != [] && forall i | 0 <= i < |parts| :: sep !in parts[i]
    ensures Split(Join(parts, sep), sep) == parts
  {
    SplitPlain(parts[0], sep);
    if |parts| > 1 {
      SplitJoin(parts[1..], sep);
      SplitConcat(parts[0], Join(parts[1..], sep), sep);
    }
  }

  lemma {:induction false} JoinSplit(s: string, sep: char)
    ensures Join(Split(s, sep), sep) == s
    ensures forall i | 0 <= i < |Split(s, sep)| :: sep !in Split(s, sep)[i]
  {
    if s != "" {
      JoinSplit(s[1..], sep);
      var rest := Split(s[1..], sep);
      if s[0] == sep {
        assert ([""] + rest)[1..] == rest;
      } else {
        var parts := [[s[0]] + rest[0]] + rest[1..];
        assert parts[1..] == rest[1..];
      }
      assert s == [s[0]] + s[1..];
    }
  }

  // ---------------------------------------------------------------- hexadecimal

  predicate IsHexDigit(c: char) { '0' <= c <= '9' || 'a' <= c <= 'f' || 'A' <= c <= 'F' }

  function DigitValue(c: char): (v: nat)
    requires IsHexDigit(c)
    ensures v < 16
  {
    if c <= '9' then (c - '0') as nat else if c <= 'F' then (c - 'A') as nat + 10 else (c - 'a') as nat + 10
  }

  predicate AllHex(s: string) { forall i | 0 <= i < |s| :: IsHexDigit(s[i]) }

  predicate AllLowerHex(s: string)
    ensures AllLowerHex(s) ==> AllHex(s)
  {
    forall i | 0 <= i < |s| :: IsHexDigit(s[i]) && !('A' <= s[i] <= 'F')
  }

  function HexValue(s: string): nat
    requires AllHex(s)
  {
    if s == "" then 0 else 16 * HexValue(s[..|s| - 1]) + DigitValue(s[|s| - 1])
  }

  lemma {:induction false} LowerHex(s: string)
    requires AllHex(s)
    ensures AllLowerHex(Lower(s)) && HexValue(Lower(s)) == HexValue(s)
  {
    if s != "" {
      LowerHex(s[..|s| - 1]);
      assert Lower(s)[..|s| - 1] == Lower(s[..|s| - 1]);
    }
  }

  lemma {:induction false} HexValueLeadingZero(s: string)
    requires AllHex(s)
    ensures AllHex("0" + s) && HexValue("0" + s) == HexValue(s)
  {
    if s == "" {
      assert "0"[..0] == "";
    } else {
      HexValueLeadingZero(s[..|s| - 1]);
      assert ("0" + s)[..|s|] == "0" + s[..|s| - 1];
    }
  }

  /** Lower-case hexadecimal without a leading zero is determined by its value. */
  lemma {:induction false} HexUnique(a: string, b: string)
    requires AllLowerHex(a) && AllLowerHex(b)
    requires (a != "" ==> a[0] != '0') && (b != "" ==> b[0] != '0')
    requires HexValue(a) == HexValue(b)
    ensures a == b
    decreases |a|
  {
    if a == "" || b == "" {
      HexPositive(a);
      HexPositive(b);
    } else {
      var p, q := a[..|a| - 1], b[..|b| - 1];
      LastDigit(HexValue(p), DigitValue(a[|a| - 1]), HexValue(q), DigitValue(b[|b| - 1]));
      assert a[|a| - 1] == b[|b| - 1];
      HexUnique(p, q);
      assert a == p + [a[|a| - 1]] && b == q + [b[|b| - 1]];
    }
  }

  lemma LastDigit(p: nat, d: nat, q: nat, e: nat)
    requires 16 * p + d == 16 * q + e && d < 16 && e < 16
    ensures p == q && d == e
  {
  }

  lemma {:induction false} HexPositive(s: string)
    requires AllHex(s) && s != "" ==> s[0] != '0'
    requires AllHex(s)
    ensures s != "" ==> HexValue(s) > 0
  {
    if |s| > 1 {
      HexPositive(s[..|s| - 1]);
    } else if s != "" {
      assert DigitValue(s[0]) > 0;
    }
  }

  // ---------------------------------------------------------------- decimal

  /** `String(n)`. */
  function Decimal(n: nat): string {
    if n < 10 then ['0' + n as char] else Decimal(n / 10) + ['0' + (n % 10) as char]
  }

  predicate AllDigits(s: string) { forall i | 0 <= i < |s| :: '0' <= s[i] <= '9' }

  /** `Number(s)` on digits. */
  function DecimalValue(s: string): nat {
    if s == "" || !('0' <= s[|s| - 1] <= '9') then 0
    else 10 * DecimalValue(s[..|s| - 1]) + (s[|s| - 1] - '0') as nat
  }

  lemma {:induction false} DecimalText(n: nat)
    ensures AllDigits(Decimal(n)) && DecimalValue(Decimal(n)) == n && Decimal(n) != ""
  {
    if n >= 10 {
      DecimalText(n / 10);
      assert Decimal(n)[..|Decimal(n)| - 1] == Decimal(n / 10);
    } else {
      assert Decimal(n)[..0] == "";
    }
  }
}
