/**
 * How revoked certificate serials and signing digests are normalised: `serialSet` and `hexSet` of
 * src/attestation/attestation.module.ts against the serial of a certificate.
 */
module Serials {
  import opened Text

  function RemoveColons(s: string): string {
    if s == "" then "" else (if s[0] == ':' then "" else [s[0]]) + RemoveColons(s[1..])
  }

  function LeadingZeros(s: string): (n: nat)
    ensures n <= |s|
    ensures forall i | 0 <= i < n :: s[i] == '0'
    ensures n < |s| ==> s[n] != '0'
  {
    if s != "" && s[0] == '0' then 1 + LeadingZeros(s[1..]) else 0
  }

  /** `replace(/^0+(?=.)/, '')`: as many leading zeros as leave a character that `.` matches. */
  function StripZeros(s: string): string {
    var n := LeadingZeros(s);
    if n == 0 then s
    else if n < |s| && s[n] !in "\n\r\U{2028}\U{2029}" then s[n..]
    else s[n - 1..]
  }

  /** One entry of the revocation list. */
  function EntryText(entry: string): string { Trim(RemoveColons(entry)) }

  function NormaliseEntry(entry: string): string { StripZeros(Lower(EntryText(entry))) }

  function SerialSet(raw: string): set<string> {
    (set e | e in Split(raw, ',') :: NormaliseEntry(e)) - {""}
  }

  /** The serial of a certificate, as it is looked up. */
  function NormaliseSerial(serial: string): string { StripZeros(Lower(serial)) }

  function HexSet(raw: string): set<string> {
    (set e | e in Split(raw, ',') :: Lower(EntryText(e))) - {""}
  }

  ghost function Glued(parts: seq<string>): string {
    if parts == [] then "" else parts[0] + Glued(parts[1..])
  }

  /** The text of an entry: what stands between its colons, put together, without white space at the ends. */
  ghost predicate Spells(entry: string, t: string) { Padded(Glued(Split(entry, ':')), t) }

  lemma {:induction false} ColonsGlued(s: string)
    ensures RemoveColons(s) == Glued(Split(s, ':'))
  {
    if s != "" {
      ColonsGlued(s[1..]);
      var rest := Split(s[1..], ':');
      assert Glued(rest) == rest[0] + Glued(rest[1..]);
      if s[0] == ':' {
        assert ([""] + rest)[1..] == rest;
      } else {
        var parts := [[s[0]] + rest[0]] + rest[1..];
        assert parts[1..] == rest[1..] && [s[0]] + (rest[0] + Glued(rest[1..])) == parts[0] + Glued(parts[1..]);
      }
    } else {
      assert Glued([""]) == "" + Glued([]);
    }
  }

  lemma EntryIff(entry: string, t: string)
    ensures EntryText(entry) == t <==> Spells(entry, t)
  {
    ColonsGlued(entry);
    TrimIff(RemoveColons(entry), t);
  }

  /** An entry is a numeral for n, whatever its case, colons, surrounding blanks and leading zeros. */
  ghost predicate Denotes(entry: string, n: nat) {
    exists t :: Spells(entry, t) && t != "" && AllHex(t) && HexValue(t) == n
  }

  lemma DenotesIff(entry: string, n: nat)
    ensures Denotes(entry, n) <==>
              var t := EntryText(entry); t != "" && AllHex(t) && HexValue(t) == n
  {
    EntryIff(entry, EntryText(entry));
    if t :| Spells(entry, t) && t != "" && AllHex(t) && HexValue(t) == n {
      EntryIff(entry, t);
    }
  }

  lemma {:induction false} DropZeros(s: string, n: nat)
    requires n <= |s| && AllHex(s) && forall i | 0 <= i < n :: s[i] == '0'
    ensures HexValue(s[n..]) == HexValue(s)
  {
    if n > 0 {
      DropZeros(s[1..], n - 1);
      HexValueLeadingZero(s[1..]);
      assert s == "0" + s[1..] && s[1..][n - 1..] == s[n..];
    } else {
      assert s[0..] == s;
    }
  }

  /** Stripping keeps the number, and leaves either a lone zero or a numeral without leading zero. */
  lemma StripHex(s: string)
    requires AllLowerHex(s) && s != ""
    ensures var r := StripZeros(s);
            && r != "" && AllLowerHex(r) && HexValue(r) == HexValue(s)
            && (r == "0" || r[0] != '0')
  {
    var n := LeadingZeros(s);
    StripIs(s);
    if n == |s| {
      DropZeros(s, n - 1);
      assert s[n - 1..] == [s[n - 1]];
    } else {
      DropZeros(s, n);
    }
  }

  /** What is stripped of a hexadecimal text: the leading zeros, but for the last of nothing else. */
  lemma StripIs(s: string)
    requires AllLowerHex(s) && s != ""
    ensures var n := LeadingZeros(s); StripZeros(s) == if n == |s| then s[n - 1..] else s[n..]
  {
    var n := LeadingZeros(s);
    assert n == 0 ==> s[n..] == s;
    if n < |s| {
      NoTerminator(s[n]);
    }
  }

  lemma NoTerminator(c: char)
    requires IsHexDigit(c)
    ensures c !in "\n\r\U{2028}\U{2029}"
  {
  }

  /** Only a hexadecimal text strips to a hexadecimal text. */
  lemma StripReflectsHex(s: string)
    requires AllHex(StripZeros(s)) && StripZeros(s) != ""
    ensures AllHex(s) && s != ""
  {
    var n := LeadingZeros(s);
    var r := StripZeros(s);
    var cut := |s| - |r|;
    assert r == s[cut..];
    forall i | 0 <= i < |s| ensures IsHexDigit(s[i]) {
      if i >= cut {
        assert s[i] == r[i - cut];
      }
    }
  }

  lemma LowerReflectsHex(s: string)
    requires AllHex(Lower(s))
    ensures AllHex(s)
  {
    forall i | 0 <= i < |s| ensures IsHexDigit(s[i]) {
      assert IsHexDigit(Lower(s)[i]);
    }
  }

  /** Two numerals normalise alike exactly when they denote the same number. */
  lemma SameNumeral(a: string, b: string)
    requires AllHex(a) && AllHex(b) && a != "" && b != ""
    ensures StripZeros(Lower(a)) == StripZeros(Lower(b)) <==> HexValue(a) == HexValue(b)
  {
    LowerHex(a);
    LowerHex(b);
    StripHex(Lower(a));
    StripHex(Lower(b));
    var x, y := StripZeros(Lower(a)), StripZeros(Lower(b));
    if HexValue(x) == HexValue(y) {
      CanonicalUnique(x, y);
    }
  }

  lemma CanonicalUnique(x: string, y: string)
    requires AllLowerHex(x) && AllLowerHex(y) && x != "" && y != "" && HexValue(x) == HexValue(y)
    requires (x == "0" || x[0] != '0') && (y == "0" || y[0] != '0')
    ensures x == y
  {
    if x != "0" { HexPositive(x); }
    if y != "0" { HexPositive(y); }
    assert HexValue("0") == 0 by { assert "0"[..0] == ""; }
    if x != "0" && y != "0" {
      HexUnique(x, y);
    }
  }

  /** A certificate is found revoked exactly when some configured entry denotes its serial number. */
  lemma RevokedIff(raw: string, serial: string)
    requires AllHex(serial) && serial != ""
    ensures NormaliseSerial(serial) in SerialSet(raw)
            <==> exists e | e in Split(raw, ',') :: Denotes(e, HexValue(serial))
  {
    LowerHex(serial);
    StripHex(Lower(serial));
    forall e | e in Split(raw, ',')
      ensures NormaliseEntry(e) == NormaliseSerial(serial) <==> Denotes(e, HexValue(serial))
    {
      var t := EntryText(e);
      DenotesIff(e, HexValue(serial));
      if NormaliseEntry(e) == NormaliseSerial(serial) {
        StripReflectsHex(Lower(t));
        LowerReflectsHex(t);
      }
      if AllHex(t) && t != "" {
        SameNumeral(t, serial);
      }
    }
  }

  // ---------------------------------------------------------------- digests

  lemma SameDigit(x: char, y: char)
    requires IsHexDigit(x) && IsHexDigit(y) && !('A' <= x <= 'F') && !('A' <= y <= 'F')
      && DigitValue(x) == DigitValue(y)
    ensures x == y
  {
  }

  /** Numerals of one width are the same when they denote the same number. */
  lemma {:induction false} SameWidth(a: string, b: string)
    requires AllLowerHex(a) && AllLowerHex(b) && |a| == |b| && HexValue(a) == HexValue(b)
    ensures a == b
  {
    if a != "" {
      var n := |a| - 1;
      var p, q := a[..n], b[..n];
      LastDigit(HexValue(p), DigitValue(a[n]), HexValue(q), DigitValue(b[n]));
      SameDigit(a[n], b[n]);
      SameWidth(p, q);
      assert a == p + [a[n]] && b == q + [b[n]];
    }
  }

  /** An entry is the digest with that many digits and that value; leading zeros count. */
  ghost predicate IsDigest(entry: string, digits: nat, n: nat) {
    exists t :: Spells(entry, t) && |t| == digits && AllHex(t) && HexValue(t) == n
  }

  lemma DigestIff(entry: string, digits: nat, n: nat)
    ensures IsDigest(entry, digits, n) <==>
              var t := EntryText(entry); |t| == digits && AllHex(t) && HexValue(t) == n
  {
    EntryIff(entry, EntryText(entry));
    if t :| Spells(entry, t) && |t| == digits && AllHex(t) && HexValue(t) == n {
      EntryIff(entry, t);
    }
  }

  lemma DigestEntry(entry: string, digest: string)
    requires AllLowerHex(digest)
    ensures Lower(EntryText(entry)) == digest <==> IsDigest(entry, |digest|, HexValue(digest))
  {
    var t := EntryText(entry);
    DigestIff(entry, |digest|, HexValue(digest));
    if Lower(t) == digest {
      LowerReflectsHex(t);
    }
    if AllHex(t) {
      LowerHex(t);
      if |t| == |digest| && HexValue(t) == HexValue(digest) {
        SameWidth(Lower(t), digest);
      }
    }
  }

  /**
   * A signing digest is allowed exactly when some configured entry is that digest, in any mix of case, colons
   * and blanks.
   */
  lemma AllowedIff(raw: string, digest: string)
    requires AllLowerHex(digest) && digest != ""
    ensures digest in HexSet(raw) <==> exists e | e in Split(raw, ',') :: IsDigest(e, |digest|, HexValue(digest))
  {
    if digest in HexSet(raw) {
      var e :| e in Split(raw, ',') && Lower(EntryText(e)) == digest;
      DigestEntry(e, digest);
    }
    if e :| e in Split(raw, ',') && IsDigest(e, |digest|, HexValue(digest)) {
      DigestEntry(e, digest);
    }
  }

  /** An entry of which nothing is left denotes nothing. */
  lemma NoEmptyEntry(raw: string)
    ensures "" !in SerialSet(raw) && "" !in HexSet(raw)
  {
  }
}
