/**
 * The rate-limit key of an address: src/common/client-ip.ts. IPv6 texts are described by the forms of
 * section 2.2 of RFC 4291, so that every spelling of an address is a value of `Form`.
 */
module ClientIp {
  import opened Prelude
  import opened Text

  /** `net.isIP`: 4, 6, or 0. */
  type IsIP = string -> nat

  // ---------------------------------------------------------------- numerals

  function HexChar(d: nat): char
    requires d < 16
  {
    if d < 10 then '0' + d as char else 'a' + (d - 10) as char
  }

  /** `n.toString(16)`. */
  function Hex(n: nat): string {
    if n < 16 then [HexChar(n)] else Hex(n / 16) + [HexChar(n % 16)]
  }

  lemma {:induction false} HexText(n: nat)
    ensures AllLowerHex(Hex(n)) && HexValue(Hex(n)) == n && Hex(n) != ""
    ensures n < 65536 ==> |Hex(n)| <= 4
    ensures n < 4096 ==> |Hex(n)| <= 3
    ensures n < 256 ==> |Hex(n)| <= 2
  {
    if n >= 16 {
      HexText(n / 16);
      assert Hex(n)[..|Hex(n)| - 1] == Hex(n / 16);
    } else {
      assert Hex(n)[..0] == "";
    }
  }

  // ---------------------------------------------------------------- the code

  function LastIndexOf(s: string, c: char): (i: int)
    ensures -1 <= i < |s|
    ensures i >= 0 ==> s[i] == c
    ensures forall k | i < k < |s| :: s[k] != c
  {
    if s == "" then -1
    else if s[|s| - 1] == c then |s| - 1
    else LastIndexOf(s[..|s| - 1], c)
  }

  /** `s.split('::')`. */
  function SplitDouble(s: string): (parts: seq<string>)
    ensures parts != []
    decreases |s|
  {
    if |s| < 2 then [s]
    else if s[0] == ':' && s[1] == ':' then [""] + SplitDouble(s[2..])
    else
      var rest := SplitDouble(s[1..]);
      [[s[0]] + rest[0]] + rest[1..]
  }

  predicate IsGroup(g: string) { 1 <= |g| <= 4 && AllLowerHex(g) }

  function Colons(s: string): seq<string> { if s == "" then [] else Split(s, ':') }

  function Zeros(n: int): seq<string> { if n <= 0 then [] else seq(n, i => "0") }

  /** A dotted tail becomes two groups. */
  function Untailed(isIP: IsIP, address: string): Option<string> {
    if '.' !in address then Some(address)
    else
      var colon := LastIndexOf(address, ':');
      if colon == -1 then None
      else
        var ipv4 := address[colon + 1..];
        var parts := Split(ipv4, '.');
        if isIP(ipv4) != 4 || |parts| != 4 then None
        else Some(address[..colon]
               + ":" + Hex(DecimalValue(parts[0]) * 256 + DecimalValue(parts[1]))
               + ":" + Hex(DecimalValue(parts[2]) * 256 + DecimalValue(parts[3])))
  }

  function ExpandGroups(value: string): (r: Option<seq<string>>)
    ensures r.Some? ==> |r.value| == 8 && forall i | 0 <= i < 8 :: IsGroup(r.value[i])
  {
    var halves := SplitDouble(value);
    if |halves| > 2 then None
    else
      var left := Colons(halves[0]);
      var right := if |halves| == 2 then Colons(halves[1]) else [];
      var missing := 8 - |left| - |right|;
      if |halves| == 1 && |left| != 8 then None
      else if |halves| == 2 && missing < 0 then None
      else
        var groups := left + Zeros(missing) + right;
        if |groups| != 8 || exists i | 0 <= i < |groups| :: !IsGroup(groups[i]) then None
        else Some(groups)
  }

  function ExpandIpv6(isIP: IsIP, address: string): (r: Option<seq<string>>)
    ensures r.Some? ==> |r.value| == 8 && forall i | 0 <= i < 8 :: IsGroup(r.value[i])
  {
    var value := Untailed(isIP, address);
    if value.None? then None else ExpandGroups(value.value)
  }

  /** Whether the groups, as texts, spell the prefix of an IPv4-mapped address. */
  predicate SpellsMapped(groups: seq<string>)
    requires |groups| == 8
  {
    (forall i | 0 <= i < 5 :: groups[i] == "0") && groups[5] == "ffff"
  }

  function Dotted(high: nat, low: nat): string {
    Join([Decimal(high / 256), Decimal(high % 256), Decimal(low / 256), Decimal(low % 256)], '.')
  }

  function Prefix64(a: nat, b: nat, c: nat, d: nat): string {
    Join([Hex(a), Hex(b), Hex(c), Hex(d)], ':') + "::/64"
  }

  /** `parseInt(group, 16)`. */
  function Value(group: string): nat
    requires IsGroup(group)
  {
    HexValue(group)
  }

  function KeyOfGroups(groups: seq<string>): string
    requires |groups| == 8 && forall i | 0 <= i < 8 :: IsGroup(groups[i])
  {
    if SpellsMapped(groups) then Dotted(Value(groups[6]), Value(groups[7]))
    else Prefix64(Value(groups[0]), Value(groups[1]), Value(groups[2]), Value(groups[3]))
  }

  function ClientIpKey(isIP: IsIP, ip: Option<string>): string {
    if ip in {None, Some("")} then "unknown"
    else
      var lower := Split(Lower(ip.value), '%')[0];
      if isIP(lower) != 6 then lower
      else
        var groups := ExpandIpv6(isIP, lower);
        if groups.None? then lower else KeyOfGroups(groups.value)
  }

  // ---------------------------------------------------------------- the spellings of an address

  datatype Quad = Quad(a: nat, b: nat, c: nat, d: nat)
  {
    predicate Valid() { a < 256 && b < 256 && c < 256 && d < 256 }

    function Text(): string { Join([Decimal(a), Decimal(b), Decimal(c), Decimal(d)], '.') }

    function Groups(): seq<string> { [Hex(a * 256 + b), Hex(c * 256 + d)] }
  }

  /**
   * A text of section 2.2 of RFC 4291: groups of one to four digits of either case, at most one run of
   * `elided` zero groups written `::`, and possibly the last two groups as a dotted quad.
   */
  datatype Form = Form(left: seq<string>, elided: nat, right: seq<string>, tail: Option<Quad>)
  {
    ghost predicate Valid() {
      && (forall i | 0 <= i < |left| :: 1 <= |left[i]| <= 4 && AllHex(left[i]))
      && (forall i | 0 <= i < |right| :: 1 <= |right[i]| <= 4 && AllHex(right[i]))
      && (elided == 0 ==> right == [])
      && (tail.Some? ==> tail.value.Valid())
      && |left| + elided + |right| + (if tail.Some? then 2 else 0) == 8
    }

    function TailText(): seq<string> { if tail.Some? then [tail.value.Text()] else [] }

    function TailGroups(): seq<string> { if tail.Some? then tail.value.Groups() else [] }

    function Print(): string { PrintWith(TailText()) }

    /** The text with the given parts in place of the tail. */
    function PrintWith(end: seq<string>): string {
      if elided == 0 then JoinAny(left + end)
      else JoinAny(left) + "::" + JoinAny(right + end)
    }

    /** The eight groups as lower-case texts, an elided one written 0. */
    function Spelling(): seq<string> {
      LowerAll(left) + Zeros(elided) + LowerAll(right) + TailGroups()
    }
  }

  function JoinAny(parts: seq<string>): string { if parts == [] then "" else Join(parts, ':') }

  function LowerAll(parts: seq<string>): (r: seq<string>)
    ensures |r| == |parts|
  {
    seq(|parts|, i requires 0 <= i < |parts| => Lower(parts[i]))
  }

  /** What `net.isIP` is relied on for. */
  ghost predicate NetIsIP(isIP: IsIP) {
    && (forall f: Form | f.Valid() :: isIP(f.Print()) == 6)
    && (forall q: Quad | q.Valid() :: isIP(q.Text()) == 4)
  }

  // ---------------------------------------------------------------- splitting what was joined

  /** Parts as they come between colons: not empty, and free of colons. */
  ghost predicate Plain(parts: seq<string>) {
    forall i | 0 <= i < |parts| :: parts[i] != "" && ':' !in parts[i]
  }

  ghost predicate NoDouble(s: string) {
    forall i | 0 <= i < |s| - 1 :: !(s[i] == ':' && s[i + 1] == ':')
  }

  lemma {:induction false} JoinNoDouble(parts: seq<string>)
    requires parts != [] && Plain(parts)
    ensures var s := Join(parts, ':'); NoDouble(s) && s != "" && s[0] != ':' && s[|s| - 1] != ':'
  {
    var p := parts[0];
    assert forall i | 0 <= i < |p| :: p[i] in p;
    if |parts| > 1 {
      JoinNoDouble(parts[1..]);
      var rest := Join(parts[1..], ':');
      var s := p + ":" + rest;
      forall i | 0 <= i < |s| - 1 ensures !(s[i] == ':' && s[i + 1] == ':') {
        if i > |p| {
          assert s[i] == rest[i - |p| - 1] && s[i + 1] == rest[i - |p|];
        }
      }
    }
  }

  lemma ColonsJoin(parts: seq<string>)
    requires Plain(parts)
    ensures Colons(JoinAny(parts)) == parts
  {
    if parts != [] {
      JoinNoDouble(parts);
      SplitJoin(parts, ':');
    }
  }

  lemma NoDoubleTail(s: string)
    requires NoDouble(s) && s != ""
    ensures NoDouble(s[1..])
  {
    var r := s[1..];
    forall i | 0 <= i < |r| - 1 ensures !(r[i] == ':' && r[i + 1] == ':') {
      var k := i + 1;
      assert !(s[k] == ':' && s[k + 1] == ':');
    }
  }

  lemma {:induction false} SplitDoublePlain(s: string)
    requires NoDouble(s)
    ensures SplitDouble(s) == [s]
    decreases |s|
  {
    if |s| >= 2 {
      NoDoubleTail(s);
      SplitDoublePlain(s[1..]);
      assert !(s[0] == ':' && s[0 + 1] == ':');
      assert [s[0]] + s[1..] == s;
    }
  }

  lemma {:induction false} SplitDoubleAt(a: string, b: string)
    requires NoDouble(a) && NoDouble(b) && (a != "" ==> a[|a| - 1] != ':')
    ensures SplitDouble(a + "::" + b) == [a, b]
    decreases |a|
  {
    var s := a + "::" + b;
    if a == "" {
      assert s[2..] == b;
      SplitDoublePlain(b);
    } else {
      assert s[1..] == a[1..] + "::" + b;
      NoDoubleTail(a);
      assert |a| > 1 ==> a[1..][|a| - 2] == a[|a| - 1] && !(a[0] == ':' && a[0 + 1] == ':');
      SplitDoubleAt(a[1..], b);
      assert s[0] == a[0] && s[1] == if |a| > 1 then a[1] else ':';
      assert [a[0]] + a[1..] == a;
    }
  }

  // ---------------------------------------------------------------- every spelling expands

  /** A form with its groups in lower case. */
  function LowerForm(f: Form): Form { Form(LowerAll(f.left), f.elided, LowerAll(f.right), f.tail) }

  lemma LowerConcat(a: string, b: string)
    ensures Lower(a + b) == Lower(a) + Lower(b)
  {
    assert forall i | 0 <= i < |a + b| :: Lower(a + b)[i] == (Lower(a) + Lower(b))[i];
  }

  lemma {:induction false} LowerJoin(parts: seq<string>, sep: char)
    requires parts != [] && LowerChar(sep) == sep
    ensures Lower(Join(parts, sep)) == Join(LowerAll(parts), sep)
  {
    if |parts| == 1 {
      assert LowerAll(parts)[0] == Lower(parts[0]);
    } else {
      LowerJoin(parts[1..], sep);
      var rest := Join(parts[1..], sep);
      LowerConcat(parts[0] + [sep], rest);
      LowerConcat(parts[0], [sep]);
      assert Lower([sep]) == [sep];
      assert LowerAll(parts)[1..] == LowerAll(parts[1..]);
    }
  }

  lemma LowerDigits(s: string)
    requires forall i | 0 <= i < |s| :: '0' <= s[i] <= '9' || s[i] == '.'
    ensures Lower(s) == s
  {
  }

  lemma LowerPrintWith(f: Form, end: seq<string>)
    requires LowerAll(end) == end
    ensures Lower(f.PrintWith(end)) == LowerForm(f).PrintWith(end)
  {
    assert LowerAll(f.left + end) == LowerAll(f.left) + end;
    assert LowerAll(f.right + end) == LowerAll(f.right) + end;
    if f.left + end != [] { LowerJoin(f.left + end, ':'); }
    if f.right + end != [] { LowerJoin(f.right + end, ':'); }
    if f.left != [] { LowerJoin(f.left, ':'); }
    assert Lower("") == "" && Lower("::") == "::";
    LowerConcat(JoinAny(f.left) + "::", JoinAny(f.right + end));
    LowerConcat(JoinAny(f.left), "::");
  }

  lemma {:induction false} JoinChars(parts: seq<string>, sep: char, i: nat)
    requires parts != [] && i < |Join(parts, sep)|
    ensures Join(parts, sep)[i] == sep || exists k | 0 <= k < |parts| :: Join(parts, sep)[i] in parts[k]
  {
    if |parts| > 1 && i > |parts[0]| {
      JoinChars(parts[1..], sep, i - |parts[0]| - 1);
      var c := Join(parts, sep)[i];
      assert c == Join(parts[1..], sep)[i - |parts[0]| - 1];
      if c != sep {
        var k :| 0 <= k < |parts[1..]| && c in parts[1..][k];
        assert parts[k + 1] == parts[1..][k];
      }
    } else if i < |parts[0]| {
      assert Join(parts, sep)[i] == parts[0][i];
    }
  }

  /** A dotted quad is made of digits and dots, with a dot, and splits into its four numerals. */
  lemma QuadText(q: Quad)
    ensures forall i | 0 <= i < |q.Text()| :: '0' <= q.Text()[i] <= '9' || q.Text()[i] == '.'
    ensures '.' in q.Text() && ':' !in q.Text() && '%' !in q.Text() && q.Text() != "" && Lower(q.Text()) == q.Text()
    ensures Split(q.Text(), '.') == [Decimal(q.a), Decimal(q.b), Decimal(q.c), Decimal(q.d)]
  {
    DecimalText(q.a);
    DecimalText(q.b);
    DecimalText(q.c);
    DecimalText(q.d);
    var parts, s := [Decimal(q.a), Decimal(q.b), Decimal(q.c), Decimal(q.d)], q.Text();
    forall i | 0 <= i < |s| ensures '0' <= s[i] <= '9' || s[i] == '.' {
      JoinChars(parts, '.', i);
    }
    assert s[|parts[0]|] == '.';
    LowerDigits(s);
    SplitJoin(parts, '.');
  }

  // ---------------------------------------------------------------- the tail

  /** The form with its dotted tail written as two groups. */
  function Untail(f: Form): Form {
    if f.tail.None? then f
    else if f.elided == 0 then Form(f.left + f.tail.value.Groups(), 0, f.right, None)
    else Form(f.left, f.elided, f.right + f.tail.value.Groups(), None)
  }

  /** What stands before the last colon of a form with a tail. */
  function BeforeTail(f: Form): string
    requires f.Valid()
  {
    if f.elided == 0 then JoinAny(f.left)
    else if f.right == [] then JoinAny(f.left) + ":"
    else JoinAny(f.left) + "::" + JoinAny(f.right)
  }

  lemma {:induction false} JoinSnoc(parts: seq<string>, last: string, sep: char)
    requires parts != []
    ensures Join(parts + [last], sep) == Join(parts, sep) + [sep] + last
  {
    var more := parts + [last];
    if |parts| > 1 {
      JoinSnoc(parts[1..], last, sep);
      assert more[1..] == parts[1..] + [last];
      assert more[0] + [sep] + (Join(parts[1..], sep) + [sep] + last) == Join(parts, sep) + [sep] + last;
    } else {
      assert more[1..] == [last];
    }
  }

  lemma PrintTail(f: Form)
    requires f.Valid() && f.tail.Some?
    ensures f.Print() == BeforeTail(f) + ":" + f.tail.value.Text()
  {
    var t := f.tail.value.Text();
    if f.elided == 0 {
      JoinSnoc(f.left, t, ':');
    } else if f.right == [] {
      assert f.right + [t] == [t];
      assert JoinAny(f.left) + "::" + t == JoinAny(f.left) + ":" + ":" + t;
    } else {
      JoinSnoc(f.right, t, ':');
    }
  }

  lemma JoinTwoMore(parts: seq<string>, g: string, h: string)
    ensures parts != [] ==> Join(parts + [g, h], ':') == Join(parts, ':') + ":" + g + ":" + h
    ensures parts == [] ==> Join(parts + [g, h], ':') == g + ":" + h
  {
    assert parts + [g, h] == parts + [g] + [h];
    JoinSnoc(parts + [g], h, ':');
    if parts == [] {
      assert parts + [g] == [g];
    } else {
      JoinSnoc(parts, g, ':');
    }
  }

  lemma PrintUntailed(f: Form)
    requires f.Valid() && f.tail.Some?
    ensures Untail(f).Print() == BeforeTail(f) + ":" + f.tail.value.Groups()[0] + ":" + f.tail.value.Groups()[1]
  {
    var g, h := f.tail.value.Groups()[0], f.tail.value.Groups()[1];
    if f.elided == 0 {
      assert Untail(f).left + [] == f.left + [g, h];
      JoinTwoMore(f.left, g, h);
    } else {
      assert Untail(f).right + [] == f.right + [g, h];
      JoinTwoMore(f.right, g, h);
    }
  }

  lemma {:induction false} LastIndexAt(pre: string, c: char, post: string)
    requires c !in post
    ensures LastIndexOf(pre + [c] + post, c) == |pre|
  {
    var s := pre + [c] + post;
    if post != "" {
      var short := post[..|post| - 1];
      assert s[..|s| - 1] == pre + [c] + short;
      assert s[|s| - 1] == post[|post| - 1];
      LastIndexAt(pre, c, short);
    }
  }

  lemma UntailedQuad(isIP: IsIP, pre: string, q: Quad)
    requires q.Valid() && isIP(q.Text()) == 4
    ensures Untailed(isIP, pre + ":" + q.Text()) == Some(pre + ":" + q.Groups()[0] + ":" + q.Groups()[1])
  {
    var parts := [Decimal(q.a), Decimal(q.b), Decimal(q.c), Decimal(q.d)];
    QuadText(q);
    QuadBytes(q, parts);
    UntailedAt(isIP, pre, q.Text(), parts);
  }

  /** The last colon and what follows it. */
  lemma UntailedAt(isIP: IsIP, pre: string, t: string, parts: seq<string>)
    requires '.' in t && ':' !in t && isIP(t) == 4 && Split(t, '.') == parts && |parts| == 4
    ensures Untailed(isIP, pre + ":" + t) == Some(pre + ":" + TwoBytes(parts, 0) + ":" + TwoBytes(parts, 2))
  {
    var s := pre + ":" + t;
    LastIndexAt(pre, ':', t);
    assert s[|pre| + 1..] == t && s[..|pre|] == pre;
    var i :| 0 <= i < |t| && t[i] == '.';
    assert s[|pre| + 1 + i] == '.';
  }

  ghost function TwoBytes(parts: seq<string>, i: nat): string
    requires i + 1 < |parts|
  {
    Hex(DecimalValue(parts[i]) * 256 + DecimalValue(parts[i + 1]))
  }

  lemma QuadBytes(q: Quad, parts: seq<string>)
    requires parts == [Decimal(q.a), Decimal(q.b), Decimal(q.c), Decimal(q.d)]
    ensures TwoBytes(parts, 0) == q.Groups()[0] && TwoBytes(parts, 2) == q.Groups()[1]
  {
    DecimalText(q.a);
    DecimalText(q.b);
    DecimalText(q.c);
    DecimalText(q.d);
  }

  /** Rewriting the tail gives the text of the form without it. */
  lemma UntailedPrint(isIP: IsIP, f: Form)
    requires NetIsIP(isIP) && f.Valid()
    ensures Untailed(isIP, f.Print()) == Some(Untail(f).Print())
  {
    if f.tail.None? {
      NoDots(f);
    } else {
      PrintTail(f);
      PrintUntailed(f);
      UntailedQuad(isIP, BeforeTail(f), f.tail.value);
    }
  }

  lemma JoinAnyChars(parts: seq<string>, c: char)
    requires c != ':' && forall i | 0 <= i < |parts| :: c !in parts[i]
    ensures c !in JoinAny(parts)
  {
    forall i | 0 <= i < |JoinAny(parts)| ensures JoinAny(parts)[i] != c {
      JoinChars(parts, ':', i);
    }
  }

  lemma HexChars(parts: seq<string>, c: char)
    requires !IsHexDigit(c) && forall i | 0 <= i < |parts| :: AllHex(parts[i])
    ensures forall i | 0 <= i < |parts| :: c !in parts[i]
  {
    forall i | 0 <= i < |parts| ensures c !in parts[i] {
      assert AllHex(parts[i]);
    }
  }

  lemma NoDots(f: Form)
    requires f.Valid() && f.tail.None?
    ensures '.' !in f.Print()
  {
    HexChars(f.left, '.');
    HexChars(f.right, '.');
    assert f.left + [] == f.left && f.right + [] == f.right;
    JoinAnyChars(f.left, '.');
    JoinAnyChars(f.right, '.');
  }

  // ---------------------------------------------------------------- the round trip

  lemma AllPlain(parts: seq<string>)
    requires forall i | 0 <= i < |parts| :: parts[i] != "" && AllHex(parts[i])
    ensures Plain(parts)
  {
    HexChars(parts, ':');
  }

  /** A form in lower case without a tail. */
  ghost predicate LowerCase(f: Form) {
    && f.tail.None?
    && (forall i | 0 <= i < |f.left| :: IsGroup(f.left[i]))
    && (forall i | 0 <= i < |f.right| :: IsGroup(f.right[i]))
  }

  /** Splitting at `::` gives back the texts on its two sides. */
  lemma HalvesOfPrint(f: Form)
    requires f.Valid() && LowerCase(f)
    ensures SplitDouble(f.Print()) == if f.elided == 0 then [JoinAny(f.left)] else [JoinAny(f.left), JoinAny(f.right)]
  {
    AllPlain(f.left);
    AllPlain(f.right);
    assert f.left + [] == f.left && f.right + [] == f.right;
    if f.left != [] { JoinNoDouble(f.left); }
    if f.right != [] { JoinNoDouble(f.right); }
    if f.elided == 0 {
      SplitDoublePlain(f.Print());
    } else {
      SplitDoubleAt(JoinAny(f.left), JoinAny(f.right));
    }
  }

  lemma SideColons(parts: seq<string>)
    requires forall i | 0 <= i < |parts| :: IsGroup(parts[i])
    ensures Colons(JoinAny(parts)) == parts
  {
    AllPlain(parts);
    ColonsJoin(parts);
  }

  lemma ExpandGroupsPrint(f: Form)
    requires f.Valid() && LowerCase(f)
    ensures ExpandGroups(f.Print()) == Some(f.left + Zeros(f.elided) + f.right)
  {
    HalvesOfPrint(f);
    SideColons(f.left);
    SideColons(f.right);
    ZerosAreGroups(f.elided);
    if f.elided == 0 {
      ExpandWhole(f.Print(), f.left);
      assert f.left == f.left + Zeros(0) + [];
    } else {
      ExpandHalves(f.Print(), f.left, f.right);
    }
  }

  lemma ZerosAreGroups(n: nat)
    ensures |Zeros(n)| == n && forall i | 0 <= i < n :: IsGroup(Zeros(n)[i])
  {
  }

  lemma ExpandWhole(value: string, l: seq<string>)
    requires SplitDouble(value) == [JoinAny(l)] && Colons(JoinAny(l)) == l && |l| == 8
    requires forall i | 0 <= i < |l| :: IsGroup(l[i])
    ensures ExpandGroups(value) == Some(l)
  {
    assert l + Zeros(0) + [] == l;
  }

  lemma ExpandHalves(value: string, l: seq<string>, r: seq<string>)
    requires SplitDouble(value) == [JoinAny(l), JoinAny(r)] && Colons(JoinAny(l)) == l && Colons(JoinAny(r)) == r
    requires |l| + |r| <= 8
    requires (forall i | 0 <= i < |l| :: IsGroup(l[i])) && (forall i | 0 <= i < |r| :: IsGroup(r[i]))
    ensures ExpandGroups(value) == Some(l + Zeros(8 - |l| - |r|) + r)
  {
    AllGroups(l, 8 - |l| - |r|, r);
  }

  lemma AllGroups(l: seq<string>, n: nat, r: seq<string>)
    requires (forall i | 0 <= i < |l| :: IsGroup(l[i])) && (forall i | 0 <= i < |r| :: IsGroup(r[i]))
    ensures var groups := l + Zeros(n) + r;
            |groups| == |l| + n + |r| && forall i | 0 <= i < |groups| :: IsGroup(groups[i])
  {
    ZerosAreGroups(n);
  }

  lemma UntailValid(f: Form)
    requires f.Valid() && forall i | 0 <= i < |f.left| :: IsGroup(f.left[i])
    requires forall i | 0 <= i < |f.right| :: IsGroup(f.right[i])
    ensures Untail(f).Valid() && LowerCase(Untail(f))
  {
    if f.tail.Some? {
      QuadGroups(f.tail.value);
    }
  }

  lemma QuadGroups(q: Quad)
    requires q.Valid()
    ensures IsGroup(q.Groups()[0]) && IsGroup(q.Groups()[1])
  {
    HexText(q.a * 256 + q.b);
    HexText(q.c * 256 + q.d);
  }

  lemma UntailSpells(f: Form)
    requires f.Valid()
    ensures Untail(f).elided == f.elided
    ensures Untail(f).left + Zeros(f.elided) + Untail(f).right == f.left + Zeros(f.elided) + f.right + f.TailGroups()
  {
    if f.tail.Some? && f.elided == 0 {
      assert f.left + Zeros(0) + f.right + f.TailGroups() == f.left + f.tail.value.Groups() + Zeros(0) + [];
    }
  }

  lemma LowerFormValid(f: Form)
    requires f.Valid()
    ensures var g := LowerForm(f);
            && g.Valid()
            && (forall i | 0 <= i < |g.left| :: IsGroup(g.left[i]))
            && (forall i | 0 <= i < |g.right| :: IsGroup(g.right[i]))
  {
    forall i | 0 <= i < |f.left| { LowerHex(f.left[i]); }
    forall i | 0 <= i < |f.right| { LowerHex(f.right[i]); }
  }

  lemma LowerPrint(f: Form)
    requires f.Valid()
    ensures Lower(f.Print()) == LowerForm(f).Print()
  {
    if f.tail.Some? { QuadText(f.tail.value); }
    assert LowerAll(f.TailText()) == f.TailText();
    LowerPrintWith(f, f.TailText());
  }

  /** Every spelling of an address, lower-cased, expands to its eight groups. */
  lemma ExpandPrinted(isIP: IsIP, f: Form)
    requires NetIsIP(isIP) && f.Valid()
    ensures ExpandIpv6(isIP, Lower(f.Print())) == Some(f.Spelling())
  {
    var g := LowerForm(f);
    LowerFormValid(f);
    LowerPrint(f);
    UntailedPrint(isIP, g);
    UntailValid(g);
    UntailSpells(g);
    ExpandGroupsPrint(Untail(g));
  }

  /** The eight 16-bit numbers a form denotes. */
  ghost function Values(f: Form): (v: seq<nat>)
    requires f.Valid()
    ensures |v| == 8
  {
    HexValues(f.left) + seq(f.elided, i => 0) + HexValues(f.right)
    + if f.tail.Some? then [f.tail.value.a * 256 + f.tail.value.b, f.tail.value.c * 256 + f.tail.value.d] else []
  }

  ghost function HexValues(parts: seq<string>): (v: seq<nat>)
    requires forall i | 0 <= i < |parts| :: AllHex(parts[i])
    ensures |v| == |parts|
  {
    seq(|parts|, i requires 0 <= i < |parts| => HexValue(parts[i]))
  }

  /** Groups that have the given numbers. */
  ghost predicate Spells(texts: seq<string>, v: seq<nat>) {
    |texts| == |v| && forall i | 0 <= i < |v| :: IsGroup(texts[i]) && Value(texts[i]) == v[i]
  }

  lemma SpellsConcat(a: seq<string>, v: seq<nat>, b: seq<string>, w: seq<nat>)
    requires Spells(a, v) && Spells(b, w)
    ensures Spells(a + b, v + w)
  {
  }

  lemma SpellsLower(parts: seq<string>)
    requires forall i | 0 <= i < |parts| :: 1 <= |parts[i]| <= 4 && AllHex(parts[i])
    ensures Spells(LowerAll(parts), HexValues(parts))
  {
    forall i | 0 <= i < |parts|
      ensures IsGroup(LowerAll(parts)[i]) && Value(LowerAll(parts)[i]) == HexValues(parts)[i]
    {
      LowerHex(parts[i]);
    }
  }

  lemma SpellsZeros(n: nat)
    ensures Spells(Zeros(n), seq(n, i => 0))
  {
    assert "0"[..0] == "" && IsGroup("0") && Value("0") == 0;
  }

  lemma SpellsQuad(q: Quad)
    requires q.Valid()
    ensures Spells(q.Groups(), [q.a * 256 + q.b, q.c * 256 + q.d])
  {
    HexText(q.a * 256 + q.b);
    HexText(q.c * 256 + q.d);
  }

  /** The groups spelled have the numbers of the form. */
  lemma SpellingValues(f: Form)
    requires f.Valid()
    ensures Spells(f.Spelling(), Values(f))
  {
    var l, e, r := LowerAll(f.left), Zeros(f.elided), LowerAll(f.right);
    SpellsLower(f.left);
    SpellsZeros(f.elided);
    SpellsLower(f.right);
    SpellsConcat(l, HexValues(f.left), e, seq(f.elided, i => 0));
    SpellsConcat(l + e, HexValues(f.left) + seq(f.elided, i => 0), r, HexValues(f.right));
    if f.tail.Some? {
      SpellsQuad(f.tail.value);
    }
    SpellsConcat(l + e + r, HexValues(f.left) + seq(f.elided, i => 0) + HexValues(f.right), f.TailGroups(),
      if f.tail.Some? then [f.tail.value.a * 256 + f.tail.value.b, f.tail.value.c * 256 + f.tail.value.d] else []);
  }

  /** The key that the code gives the groups of a form. */
  ghost function SpelledKey(f: Form): string
    requires f.Valid()
  {
    SpellingValues(f);
    KeyOfGroups(f.Spelling())
  }

  // ---------------------------------------------------------------- keys

  lemma NoPercent(f: Form)
    requires f.Valid()
    ensures '%' !in Lower(f.Print()) && f.Print() != ""
  {
    LowerPrint(f);
    var g := LowerForm(f);
    LowerFormValid(f);
    HexChars(g.left, '%');
    HexChars(g.right, '%');
    if g.tail.Some? { QuadText(g.tail.value); }
    JoinAnyChars(g.left, '%');
    JoinAnyChars(g.left + g.TailText(), '%');
    JoinAnyChars(g.right + g.TailText(), '%');
  }

  /** The key of a spelling is the key of its groups, with or without a zone. */
  lemma KeyOfPrinted(isIP: IsIP, f: Form, zone: string)
    requires NetIsIP(isIP) && f.Valid()
    ensures ClientIpKey(isIP, Some(f.Print())) == SpelledKey(f)
    ensures ClientIpKey(isIP, Some(f.Print() + "%" + zone)) == SpelledKey(f)
  {
    NoPercent(f);
    SplitPlain(Lower(f.Print()), '%');
    ZoneDropped(f.Print(), zone);
    KeyOfText(isIP, f, f.Print());
    KeyOfText(isIP, f, f.Print() + "%" + zone);
  }

  /** The key of any text whose part before the zone is the spelling. */
  lemma KeyOfText(isIP: IsIP, f: Form, text: string)
    requires NetIsIP(isIP) && f.Valid() && text != "" && Split(Lower(text), '%')[0] == Lower(f.Print())
    ensures ClientIpKey(isIP, Some(text)) == SpelledKey(f)
  {
    ExpandPrinted(isIP, f);
    LowerPrint(f);
    LowerFormValid(f);
    assert isIP(LowerForm(f).Print()) == 6;
  }

  lemma ZoneDropped(text: string, zone: string)
    requires '%' !in Lower(text)
    ensures Split(Lower(text + "%" + zone), '%')[0] == Lower(text)
  {
    LowerConcat(text + "%", zone);
    LowerConcat(text, "%");
    assert Lower("%") == "%";
    SplitConcat(Lower(text), Lower(zone), '%');
    SplitPlain(Lower(text), '%');
  }

  lemma HexPlain(n: nat)
    ensures ':' !in Hex(n)
  {
    HexText(n);
  }

  lemma Prefix64Injective(a: nat, b: nat, c: nat, d: nat, p: nat, q: nat, r: nat, s: nat)
    ensures Prefix64(a, b, c, d) == Prefix64(p, q, r, s) <==> (a, b, c, d) == (p, q, r, s)
  {
    var x, y := [Hex(a), Hex(b), Hex(c), Hex(d)], [Hex(p), Hex(q), Hex(r), Hex(s)];
    if Prefix64(a, b, c, d) == Prefix64(p, q, r, s) {
      var u, v := Join(x, ':'), Join(y, ':');
      assert u == Prefix64(a, b, c, d)[..|u|] && v == Prefix64(p, q, r, s)[..|v|];
      assert u == v;
      HexPlain(a); HexPlain(b); HexPlain(c); HexPlain(d);
      HexPlain(p); HexPlain(q); HexPlain(r); HexPlain(s);
      SplitJoin(x, ':');
      SplitJoin(y, ':');
      assert x[0] == y[0] && x[1] == y[1] && x[2] == y[2] && x[3] == y[3];
      HexText(a); HexText(b); HexText(c); HexText(d);
      HexText(p); HexText(q); HexText(r); HexText(s);
    }
  }

  /** An address in ::ffff:0:0/96, section 2.5.5.2 of RFC 4291. */
  ghost predicate IsMapped(v: seq<nat>)
    requires |v| == 8
  {
    v[..5] == [0, 0, 0, 0, 0] && v[5] == 0xffff
  }

  lemma FfffValue()
    ensures AllLowerHex("ffff") && HexValue("ffff") == 0xffff
  {
    assert "ffff"[..3] == "fff" && "fff"[..2] == "ff" && "ff"[..1] == "f" && "f"[..0] == "";
    assert HexValue("f") == 15;
    assert HexValue("ff") == 255;
    assert HexValue("fff") == 4095;
  }

  lemma ZeroValues()
    ensures HexValue("0") == 0 && HexValue("0000") == 0
  {
    assert "0"[..0] == "" && "0000"[..3] == "000" && "000"[..2] == "00" && "00"[..1] == "0";
    assert HexValue("0") == 0;
    assert HexValue("00") == 0;
    assert HexValue("000") == 0;
  }

  lemma SpelledMappedIsMapped(f: Form)
    requires f.Valid() && |f.Spelling()| == 8 && SpellsMapped(f.Spelling())
    ensures IsMapped(Values(f))
  {
    SpellingValues(f);
    assert "0"[..0] == "" && HexValue("0") == 0;
    FfffValue();
  }

  /** Outside the mapped range, two spellings get one key exactly when their upper 64 bits agree. */
  lemma SameKeyIff(isIP: IsIP, f: Form, g: Form)
    requires NetIsIP(isIP) && f.Valid() && g.Valid() && !IsMapped(Values(f)) && !IsMapped(Values(g))
    ensures ClientIpKey(isIP, Some(f.Print())) == ClientIpKey(isIP, Some(g.Print()))
            <==> Values(f)[..4] == Values(g)[..4]
  {
    KeyOfUnmapped(isIP, f);
    KeyOfUnmapped(isIP, g);
    var v, w := Values(f), Values(g);
    Prefix64Injective(v[0], v[1], v[2], v[3], w[0], w[1], w[2], w[3]);
    UpperHalf(v, w);
  }

  lemma UpperHalf(v: seq<nat>, w: seq<nat>)
    requires |v| == 8 && |w| == 8
    ensures v[..4] == w[..4] <==> (v[0], v[1], v[2], v[3]) == (w[0], w[1], w[2], w[3])
  {
    if v[..4] == w[..4] {
      assert v[0] == v[..4][0] && v[1] == v[..4][1] && v[2] == v[..4][2] && v[3] == v[..4][3];
    }
  }

  lemma KeyOfUnmapped(isIP: IsIP, f: Form)
    requires NetIsIP(isIP) && f.Valid() && !IsMapped(Values(f))
    ensures var v := Values(f); ClientIpKey(isIP, Some(f.Print())) == Prefix64(v[0], v[1], v[2], v[3])
  {
    KeyOfPrinted(isIP, f, "");
    SpellingValues(f);
    if SpellsMapped(f.Spelling()) {
      SpelledMappedIsMapped(f);
    }
  }

  // ---------------------------------------------------------------- IPv4-mapped addresses

  lemma {:induction false} HexBound(s: string)
    requires AllHex(s)
    ensures |s| <= 3 ==> HexValue(s) < 4096
    ensures |s| <= 4 ==> HexValue(s) < 65536
    ensures |s| <= 2 ==> HexValue(s) < 256
    ensures |s| <= 1 ==> HexValue(s) < 16
  {
    if s != "" {
      HexBound(s[..|s| - 1]);
    }
  }

  /** 0xffff has one spelling, up to case. */
  lemma OnlyFfff(g: string)
    requires IsGroup(g) && Value(g) == 0xffff
    ensures g == "ffff"
  {
    FfffValue();
    if g[0] == '0' {
      assert g == "0" + g[1..];
      HexValueLeadingZero(g[1..]);
      HexBound(g[1..]);
    }
    HexUnique(g, "ffff");
  }

  /** The five leading groups are each elided or written as the single digit 0. */
  ghost predicate PlainZeros(f: Form)
    requires f.Valid()
  {
    SpellingValues(f);
    forall i | 0 <= i < 5 :: f.Spelling()[i] == "0"
  }

  ghost function MappedQuad(v: seq<nat>): Quad
    requires |v| == 8
  {
    Quad(v[6] / 256, v[6] % 256, v[7] / 256, v[7] % 256)
  }

  lemma MappedQuadValid(f: Form)
    requires f.Valid()
    ensures MappedQuad(Values(f)).Valid()
  {
    SpellingValues(f);
    HexBound(f.Spelling()[6]);
    HexBound(f.Spelling()[7]);
  }

  lemma KeyOfQuad(isIP: IsIP, q: Quad)
    requires NetIsIP(isIP) && q.Valid()
    ensures ClientIpKey(isIP, Some(q.Text())) == q.Text()
  {
    QuadText(q);
    SplitPlain(q.Text(), '%');
  }

  /** Without an address the key is a fixed one; any other text is its own key, in lower case and without zone. */
  lemma KeyOfOther(isIP: IsIP, text: string, zone: string)
    requires '%' !in Lower(text) && isIP(Lower(text)) != 6
    ensures ClientIpKey(isIP, None) == ClientIpKey(isIP, Some("")) == "unknown"
    ensures text != "" ==> ClientIpKey(isIP, Some(text)) == Lower(text)
    ensures ClientIpKey(isIP, Some(text + "%" + zone)) == Lower(text)
  {
    SplitPlain(Lower(text), '%');
    ZoneDropped(text, zone);
  }

  /**
   * A mapped address shares the key of its IPv4 address exactly when its five leading zero groups are
   * elided or written 0; every other spelling falls into the key of the zero prefix.
   */
  lemma MappedKeyIff(isIP: IsIP, f: Form)
    requires NetIsIP(isIP) && f.Valid() && IsMapped(Values(f))
    ensures var v4 := MappedQuad(Values(f)).Text();
            && (ClientIpKey(isIP, Some(f.Print())) == ClientIpKey(isIP, Some(v4)) <==> PlainZeros(f))
            && (!PlainZeros(f) ==> ClientIpKey(isIP, Some(f.Print())) == Prefix64(0, 0, 0, 0))
  {
    var v, q := Values(f), MappedQuad(Values(f));
    SpellingValues(f);
    KeyOfPrinted(isIP, f, "");
    MappedQuadValid(f);
    KeyOfQuad(isIP, q);
    OnlyFfff(f.Spelling()[5]);
    assert v[0] == v[..5][0] && v[1] == v[..5][1] && v[2] == v[..5][2] && v[3] == v[..5][3];
    QuadText(q);
    PrefixHasColon(0, 0, 0, 0);
  }

  lemma PrefixHasColon(a: nat, b: nat, c: nat, d: nat)
    ensures ':' in Prefix64(a, b, c, d)
  {
    var s := Prefix64(a, b, c, d);
    assert s[|s| - 5] == ':';
  }

  /** Padding one zero is enough to lose the IPv4 key: 0000:0:0:0:0:ffff:203.0.113.7. */
  lemma PaddedZeroLosesKey(isIP: IsIP)
    requires NetIsIP(isIP)
    ensures var q := Quad(203, 0, 113, 7);
            var f := Form(["0000", "0", "0", "0", "0", "ffff"], 0, [], Some(q));
            f.Valid() && ClientIpKey(isIP, Some(f.Print())) != ClientIpKey(isIP, Some(q.Text()))
  {
    var q := Quad(203, 0, 113, 7);
    var f := Form(["0000", "0", "0", "0", "0", "ffff"], 0, [], Some(q));
    PaddedMapped(f, q);
    LosesKey(isIP, f);
  }

  lemma LosesKey(isIP: IsIP, f: Form)
    requires NetIsIP(isIP) && f.Valid() && IsMapped(Values(f)) && f.elided == 0 && |f.left| > 0 && |f.left[0]| == 4
    ensures ClientIpKey(isIP, Some(f.Print())) != ClientIpKey(isIP, Some(MappedQuad(Values(f)).Text()))
  {
    NotPlain(f);
    MappedKeyIff(isIP, f);
  }

  lemma NotPlain(f: Form)
    requires f.Valid() && f.elided == 0 && |f.left| > 0 && |f.left[0]| == 4
    ensures !PlainZeros(f)
  {
    SpellingValues(f);
    assert |f.Spelling()[0]| == 4;
  }

  lemma PaddedMapped(f: Form, q: Quad)
    requires q == Quad(203, 0, 113, 7) && f == Form(["0000", "0", "0", "0", "0", "ffff"], 0, [], Some(q))
    ensures f.Valid() && IsMapped(Values(f)) && MappedQuad(Values(f)) == q
  {
    ZeroValues();
    FfffValue();
    var v := Values(f);
    assert v[0] == 0 && v[1] == 0 && v[2] == 0 && v[3] == 0 && v[4] == 0 && v[5] == 0xffff;
  }
}
