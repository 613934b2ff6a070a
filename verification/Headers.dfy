/**
 * `normalizeHeaders` of src/proxy/proxy.service.ts: which of the client's headers are forwarded. The
 * first pass collects what the Connection headers nominate (section 6.1 of RFC 7230), the second forwards.
 */
module Headers {
  import opened Prelude
  import opened Text

  /** A header value: text, or another JSON scalar together with its `String(...)`. */
  datatype Scalar = Str(s: string) | Other(text: string)

  function StringOf(v: Scalar): string { if v.Str? then v.s else v.text }

  /** The fields of an object in the order of `Object.entries`. */
  type Fields = seq<(string, Scalar)>

  datatype Entry = NotObject | Object(fields: Fields)

  datatype Header = Absent | Map(fields: Fields) | List(entries: seq<Entry>)

  type Pair = (string, string)

  predicate Has(fields: Fields, name: string) { exists i | 0 <= i < |fields| :: fields[i].0 == name }

  function Field(fields: Fields, name: string): Scalar
    requires Has(fields, name)
  {
    if fields[0].0 == name then fields[0].1 else Field(fields[1..], name)
  }

  function Texts(fields: Fields): (r: seq<Pair>)
    ensures |r| == |fields|
  {
    seq(|fields|, i requires 0 <= i < |fields| => (fields[i].0, StringOf(fields[i].1)))
  }

  /** The header pairs an entry stands for. */
  function Pairs(e: Entry): seq<Pair> {
    if e.NotObject? then []
    else if Has(e.fields, "Key") && Has(e.fields, "Value") then
      [(StringOf(Field(e.fields, "Key")), StringOf(Field(e.fields, "Value")))]
    else Texts(e.fields)
  }

  function Entries(h: Header): seq<Entry> {
    match h
    case Absent => []
    case Map(fields) => [Object(fields)]
    case List(entries) => entries
  }

  function FlatEntries(entries: seq<Entry>): seq<Pair> {
    if entries == [] then [] else FlatEntries(entries[..|entries| - 1]) + Pairs(entries[|entries| - 1])
  }

  /** All header pairs in order, whatever the encoding. */
  function Flat(h: Header): seq<Pair> { FlatEntries(Entries(h)) }

  // ---------------------------------------------------------------- what is valid and what is blocked

  predicate IsTokenChar(c: char) {
    '0' <= c <= '9' || 'A' <= c <= 'Z' || 'a' <= c <= 'z' || c in "!#$%&'*+.^_`|~-"
  }

  predicate ValidName(name: string) { name != "" && forall i | 0 <= i < |name| :: IsTokenChar(name[i]) }

  predicate ValidText(text: string) {
    forall i | 0 <= i < |text| :: text[i] == '\t' || ' ' <= text[i] <= '~' || '\U{80}' <= text[i] <= '\U{ff}'
  }

  predicate ValidPair(p: Pair) { ValidName(p.0) && ValidText(p.1) }

  const BLOCKED: set<string> := {
    "host", "connection", "keep-alive", "proxy-authorization", "proxy-authenticate", "proxy-connection", "te",
    "trailer", "transfer-encoding", "upgrade", "content-length", "expect", "forwarded", "x-real-ip",
    "cf-connecting-ip", "true-client-ip", "fastly-client-ip" }

  const FORWARDED_PREFIX: string := "x-forwarded-"

  /** The lower-case names that a pair nominates when it is a Connection header. */
  function Tokens(p: Pair): set<string> {
    if Lower(p.0) == "connection" then set t | t in Split(p.1, ',') :: Lower(Trim(t)) else {}
  }

  function Nominated(flat: seq<Pair>): set<string> {
    if flat == [] then {} else Nominated(flat[..|flat| - 1]) + Tokens(flat[|flat| - 1])
  }

  predicate Dropped(nominated: set<string>, name: string) {
    var lower := Lower(name);
    lower in BLOCKED || FORWARDED_PREFIX <= lower || lower in nominated
  }

  function Add(headers: map<string, string>, p: Pair, nominated: set<string>): Result<map<string, string>, string> {
    if !ValidPair(p) then Err(p.0)
    else if Dropped(nominated, p.0) then Ok(headers)
    else Ok(headers[p.0 := p.1])
  }

  function Collect(flat: seq<Pair>, nominated: set<string>): Result<map<string, string>, string> {
    if flat == [] then Ok(map[])
    else
      match Collect(flat[..|flat| - 1], nominated)
      case Err(name) => Err(name)
      case Ok(headers) => Add(headers, flat[|flat| - 1], nominated)
  }

  function Normalize(h: Header): Result<map<string, string>, string> {
    Collect(Flat(h), Nominated(Flat(h)))
  }

  // ---------------------------------------------------------------- the declarative reading

  /** The code of a digit, a letter or one of fifteen marks, section 3.2.6 of RFC 7230. */
  predicate IsTokenCode(n: int) {
    || 48 <= n <= 57 || 65 <= n <= 90 || 97 <= n <= 122
    || n in {33, 35, 36, 37, 38, 39, 42, 43, 45, 46, 94, 95, 96, 124, 126}
  }

  /** A name of token characters, and a value of tabs, visible ASCII, spaces and the upper half of Latin-1. */
  predicate WellFormed(p: Pair) {
    && p.0 != "" && (forall c | c in p.0 :: IsTokenCode(c as int))
    && forall c | c in p.1 :: c as int == 9 || 32 <= c as int <= 126 || 128 <= c as int <= 255
  }

  lemma TokenCharIff(c: char)
    ensures IsTokenChar(c) <==> IsTokenCode(c as int)
  {
  }

  lemma PairIff(p: Pair)
    ensures ValidPair(p) <==> WellFormed(p)
  {
    forall i | 0 <= i < |p.0| ensures IsTokenChar(p.0[i]) <==> IsTokenCode(p.0[i] as int) {
      TokenCharIff(p.0[i]);
    }
    if WellFormed(p) {
      assert forall i | 0 <= i < |p.0| :: p.0[i] in p.0;
      assert forall i | 0 <= i < |p.1| :: p.1[i] in p.1;
    }
  }

  /** Between two commas of the value stands the name, in any case and with any white space around it. */
  ghost predicate Lists(value: string, lower: string) {
    exists part, name :: part in Split(value, ',') && Padded(part, name) && Lower(name) == lower
  }

  /** Some Connection pair, wherever it stands, lists the name. */
  ghost predicate ListedByConnection(flat: seq<Pair>, lower: string) {
    exists i | 0 <= i < |flat| :: Lower(flat[i].0) == "connection" && Lists(flat[i].1, lower)
  }

  lemma TokensIff(p: Pair, lower: string)
    ensures lower in Tokens(p) <==> Lower(p.0) == "connection" && Lists(p.1, lower)
  {
    if lower in Tokens(p) {
      var part :| part in Split(p.1, ',') && Lower(Trim(part)) == lower;
      TrimIff(part, Trim(part));
    }
    if part, name :| part in Split(p.1, ',') && Padded(part, name) && Lower(name) == lower {
      TrimIff(part, name);
    }
  }

  lemma {:induction false} SomeNominates(flat: seq<Pair>, lower: string)
    ensures lower in Nominated(flat) <==> exists i | 0 <= i < |flat| :: lower in Tokens(flat[i])
  {
    if flat != [] {
      var n := |flat| - 1;
      SomeNominates(flat[..n], lower);
      assert forall i | 0 <= i < n :: flat[..n][i] == flat[i];
    }
  }

  lemma NominatedIff(flat: seq<Pair>, lower: string)
    ensures lower in Nominated(flat) <==> ListedByConnection(flat, lower)
  {
    SomeNominates(flat, lower);
    forall i | 0 <= i < |flat|
      ensures lower in Tokens(flat[i]) <==> Lower(flat[i].0) == "connection" && Lists(flat[i].1, lower)
    {
      TokensIff(flat[i], lower);
    }
  }

  /** The name may be forwarded. */
  ghost predicate Forwardable(flat: seq<Pair>, name: string) {
    Lower(name) !in BLOCKED && !(FORWARDED_PREFIX <= Lower(name)) && !ListedByConnection(flat, Lower(name))
  }

  /** i is the last position of a name. */
  ghost predicate LastAt(flat: seq<Pair>, name: string, i: int) {
    0 <= i < |flat| && flat[i].0 == name && forall j | i < j < |flat| :: flat[j].0 != name
  }

  /** Collecting succeeds exactly when every pair is valid, and fails with the name of the first that is not. */
  lemma {:induction false} CollectFails(flat: seq<Pair>, nominated: set<string>)
    ensures Collect(flat, nominated).Ok? <==> forall i | 0 <= i < |flat| :: WellFormed(flat[i])
    ensures Collect(flat, nominated).Err? ==>
              exists i :: FirstInvalid(flat, i) && Collect(flat, nominated).error == flat[i].0
  {
    if flat != [] {
      var n := |flat| - 1;
      var before := flat[..n];
      CollectFails(before, nominated);
      PairIff(flat[n]);
      assert forall i | 0 <= i < n :: before[i] == flat[i];
      if Collect(before, nominated).Err? {
        var i :| FirstInvalid(before, i) && Collect(before, nominated).error == before[i].0;
        assert FirstInvalid(flat, i);
      } else if !WellFormed(flat[n]) {
        assert FirstInvalid(flat, n);
      }
    }
  }

  ghost predicate FirstInvalid(flat: seq<Pair>, i: int) {
    0 <= i < |flat| && !WellFormed(flat[i]) && forall j | 0 <= j < i :: WellFormed(flat[j])
  }

  /** What is collected: the names not dropped, each with its last text. */
  lemma {:induction false} CollectKeeps(flat: seq<Pair>, nominated: set<string>)
    requires Collect(flat, nominated).Ok?
    ensures forall i, name | LastAt(flat, name, i) && !Dropped(nominated, name) ::
      name in Collect(flat, nominated).value && Collect(flat, nominated).value[name] == flat[i].1
  {
    if flat != [] {
      var n := |flat| - 1;
      CollectKeeps(flat[..n], nominated);
      forall i, name | LastAt(flat, name, i) && !Dropped(nominated, name)
        ensures name in Collect(flat, nominated).value && Collect(flat, nominated).value[name] == flat[i].1
      {
        LastInPrefix(flat, name, i);
      }
    }
  }

  lemma LastInPrefix(flat: seq<Pair>, name: string, i: int)
    requires LastAt(flat, name, i)
    ensures i < |flat| - 1 ==> LastAt(flat[..|flat| - 1], name, i) && flat[|flat| - 1].0 != name
  {
  }

  lemma {:induction false} CollectOnly(flat: seq<Pair>, nominated: set<string>, name: string)
    requires Collect(flat, nominated).Ok? && name in Collect(flat, nominated).value
    ensures !Dropped(nominated, name) && exists i :: LastAt(flat, name, i)
  {
    var n := |flat| - 1;
    if name == flat[n].0 && !Dropped(nominated, name) {
      assert LastAt(flat, name, n);
    } else {
      CollectOnly(flat[..n], nominated, name);
      var i :| LastAt(flat[..n], name, i);
      assert flat[n].0 != name ==> LastAt(flat, name, i);
    }
  }

  /**
   * Normalising fails exactly when some name or value is invalid, and otherwise keeps exactly the names
   * that are not blocked, not x-forwarded-* and not listed by any Connection header, each with its last value.
   */
  lemma NormalizeIs(h: Header)
    ensures Normalize(h).Ok? <==> forall i | 0 <= i < |Flat(h)| :: WellFormed(Flat(h)[i])
    ensures Normalize(h).Err? ==> exists i :: FirstInvalid(Flat(h), i) && Normalize(h).error == Flat(h)[i].0
    ensures Normalize(h).Ok? ==> forall name ::
              (name in Normalize(h).value <==> Forwardable(Flat(h), name) && exists i :: LastAt(Flat(h), name, i))
    ensures Normalize(h).Ok? ==> forall i, name ::
              (name in Normalize(h).value && LastAt(Flat(h), name, i) ==> Normalize(h).value[name] == Flat(h)[i].1)
  {
    var flat := Flat(h);
    var nominated := Nominated(flat);
    CollectFails(flat, nominated);
    forall name ensures Dropped(nominated, name) <==> !Forwardable(flat, name) {
      NominatedIff(flat, Lower(name));
    }
    if Normalize(h).Ok? {
      CollectKeeps(flat, nominated);
      forall name | name in Normalize(h).value ensures !Dropped(nominated, name) && exists i :: LastAt(flat, name, i) {
        CollectOnly(flat, nominated, name);
      }
    }
  }

  // ---------------------------------------------------------------- the three encodings

  /** An object that is not read as a Key/Value record. */
  ghost predicate IsMap(fields: Fields) { !(Has(fields, "Key") && Has(fields, "Value")) }

  ghost function Concat(maps: seq<Fields>): Fields {
    if maps == [] then [] else Concat(maps[..|maps| - 1]) + maps[|maps| - 1]
  }

  function AsMaps(maps: seq<Fields>): Header {
    List(seq(|maps|, i requires 0 <= i < |maps| => Object(maps[i])))
  }

  function Record(name: string, value: Scalar): Fields { [("Key", Str(name)), ("Value", value)] }

  function AsRecords(fields: Fields): Header {
    List(seq(|fields|, i requires 0 <= i < |fields| => Object(Record(fields[i].0, fields[i].1))))
  }

  lemma TextsConcat(a: Fields, b: Fields)
    ensures Texts(a + b) == Texts(a) + Texts(b)
  {
    assert forall i | 0 <= i < |a + b| :: Texts(a + b)[i] == (Texts(a) + Texts(b))[i];
  }

  lemma {:induction false} FlatMaps(maps: seq<Fields>)
    requires forall i | 0 <= i < |maps| :: IsMap(maps[i])
    ensures Flat(AsMaps(maps)) == Texts(Concat(maps))
  {
    if maps != [] {
      var n := |maps| - 1;
      FlatMaps(maps[..n]);
      assert AsMaps(maps).entries[..n] == AsMaps(maps[..n]).entries;
      TextsConcat(Concat(maps[..n]), maps[n]);
    }
  }

  lemma RecordPairs(name: string, value: Scalar)
    ensures Pairs(Object(Record(name, value))) == [(name, StringOf(value))]
  {
    var r := Record(name, value);
    assert r[0].0 == "Key" && r[1].0 == "Value";
    assert Field(r, "Key") == Str(name);
    assert r[1..][0] == r[1] && Field(r[1..], "Value") == value;
  }

  lemma {:induction false} FlatRecords(fields: Fields)
    ensures Flat(AsRecords(fields)) == Texts(fields)
  {
    if fields != [] {
      var n := |fields| - 1;
      FlatRecords(fields[..n]);
      assert AsRecords(fields).entries[..n] == AsRecords(fields[..n]).entries;
      RecordPairs(fields[n].0, fields[n].1);
      assert Texts(fields) == Texts(fields[..n]) + [(fields[n].0, StringOf(fields[n].1))];
    }
  }

  /** The first field of that name has that text. */
  ghost predicate FirstText(fields: Fields, name: string, text: string) {
    exists i | 0 <= i < |fields| ::
      fields[i].0 == name && StringOf(fields[i].1) == text && forall j | 0 <= j < i :: fields[j].0 != name
  }

  lemma {:induction false} FieldIsFirst(fields: Fields, name: string)
    requires Has(fields, name)
    ensures FirstText(fields, name, StringOf(Field(fields, name)))
  {
    if fields[0].0 != name {
      var rest := fields[1..];
      var k :| 0 <= k < |fields| && fields[k].0 == name;
      assert rest[k - 1].0 == name;
      FieldIsFirst(rest, name);
      var i :| 0 <= i < |rest| && rest[i].0 == name && StringOf(rest[i].1) == StringOf(Field(rest, name))
        && forall j | 0 <= j < i :: rest[j].0 != name;
      assert fields[i + 1] == rest[i] && forall j | 1 <= j < i + 1 :: fields[j] == rest[j - 1];
    }
  }

  /**
   * An object with a Key and a Value stands for that one pair, whatever else it holds, any other for one pair a
   * field in order, and what is no object for none; and the pairs of a list are those of its entries in order.
   */
  lemma PairsAre(fields: Fields, before: seq<Entry>, e: Entry)
    ensures Has(fields, "Key") && Has(fields, "Value") ==>
              && |Pairs(Object(fields))| == 1
              && FirstText(fields, "Key", Pairs(Object(fields))[0].0)
              && FirstText(fields, "Value", Pairs(Object(fields))[0].1)
    ensures !(Has(fields, "Key") && Has(fields, "Value")) ==>
              && |Pairs(Object(fields))| == |fields|
              && forall i | 0 <= i < |fields| :: Pairs(Object(fields))[i] == (fields[i].0, StringOf(fields[i].1))
    ensures Pairs(NotObject) == []
    ensures Flat(List([])) == [] && Flat(List(before + [e])) == Flat(List(before)) + Pairs(e)
  {
    if Has(fields, "Key") && Has(fields, "Value") {
      FieldIsFirst(fields, "Key");
      FieldIsFirst(fields, "Value");
    }
    assert (before + [e])[..|before|] == before;
  }

  /** A map, any array of maps with the same fields in order, and the array of Key/Value records are read alike. */
  lemma EncodingsAgree(fields: Fields, maps: seq<Fields>)
    requires IsMap(fields) && Concat(maps) == fields && forall i | 0 <= i < |maps| :: IsMap(maps[i])
    ensures Normalize(Map(fields)) == Normalize(AsMaps(maps)) == Normalize(AsRecords(fields))
  {
    FlatMaps(maps);
    FlatRecords(fields);
    FlatMap(fields);
    SameFlat(Map(fields), AsMaps(maps));
    SameFlat(Map(fields), AsRecords(fields));
  }

  lemma FlatMap(fields: Fields)
    requires IsMap(fields)
    ensures Flat(Map(fields)) == Texts(fields)
  {
    FlatLonger([Object(fields)], 0);
    assert [Object(fields)][..0] == [] && [Object(fields)][..0 + 1] == [Object(fields)];
  }

  lemma SameFlat(h: Header, k: Header)
    requires Flat(h) == Flat(k)
    ensures Normalize(h) == Normalize(k)
  {
  }

  // ---------------------------------------------------------------- the method

  lemma FlatLonger(entries: seq<Entry>, e: nat)
    requires e < |entries|
    ensures FlatEntries(entries[..e + 1]) == FlatEntries(entries[..e]) + Pairs(entries[e])
  {
    assert entries[..e + 1][..e] == entries[..e];
  }

  lemma NominatedLonger(done: seq<Pair>, p: Pair)
    ensures Nominated(done + [p]) == Nominated(done) + Tokens(p)
  {
    assert (done + [p])[..|done|] == done;
  }

  lemma CollectLonger(done: seq<Pair>, p: Pair, nominated: set<string>)
    requires Collect(done, nominated).Ok?
    ensures Collect(done + [p], nominated) == Add(Collect(done, nominated).value, p, nominated)
  {
    assert (done + [p])[..|done|] == done;
  }

  /** A failure among the first pairs is the failure of all. */
  lemma {:induction false} CollectErr(done: seq<Pair>, rest: seq<Pair>, nominated: set<string>)
    requires Collect(done, nominated).Err?
    ensures Collect(done + rest, nominated) == Collect(done, nominated)
  {
    if rest == [] {
      assert done + rest == done;
    } else {
      var n := |rest| - 1;
      CollectErr(done, rest[..n], nominated);
      assert (done + rest)[..|done| + n] == done + rest[..n];
    }
  }

  method NominatePairs(before: set<string>, pairs: seq<Pair>, ghost done: seq<Pair>) returns (nominated: set<string>)
    requires before == Nominated(done)
    ensures nominated == Nominated(done + pairs)
  {
    nominated := before;
    assert done + pairs[..0] == done;
    for k := 0 to |pairs|
      invariant nominated == Nominated(done + pairs[..k])
    {
      NominatedLonger(done + pairs[..k], pairs[k]);
      assert done + pairs[..k + 1] == done + pairs[..k] + [pairs[k]];
      if Lower(pairs[k].0) == "connection" {
        nominated := nominated + set t | t in Split(pairs[k].1, ',') :: Lower(Trim(t));
      }
    }
    assert pairs[..|pairs|] == pairs;
  }

  /** The pass that collects what the Connection headers nominate. */
  method CollectNominated(entries: seq<Entry>) returns (nominated: set<string>)
    ensures nominated == Nominated(FlatEntries(entries))
  {
    nominated := {};
    for e := 0 to |entries|
      invariant nominated == Nominated(FlatEntries(entries[..e]))
    {
      FlatLonger(entries, e);
      nominated := NominatePairs(nominated, Pairs(entries[e]), FlatEntries(entries[..e]));
    }
    assert entries[..|entries|] == entries;
  }

  method AddPairs(before: map<string, string>, pairs: seq<Pair>, nominated: set<string>, ghost done: seq<Pair>)
    returns (r: Result<map<string, string>, string>)
    requires Collect(done, nominated) == Ok(before)
    ensures r == Collect(done + pairs, nominated)
  {
    var headers := before;
    assert done + pairs[..0] == done;
    for k := 0 to |pairs|
      invariant Collect(done + pairs[..k], nominated) == Ok(headers)
    {
      var (name, text) := pairs[k];
      CollectLonger(done + pairs[..k], pairs[k], nominated);
      assert done + pairs[..k + 1] == done + pairs[..k] + [pairs[k]];
      if !ValidName(name) || !ValidText(text) {
        CollectErr(done + pairs[..k + 1], pairs[k + 1..], nominated);
        assert done + pairs == done + pairs[..k + 1] + pairs[k + 1..];
        return Err(name);
      }
      var lower := Lower(name);
      if !(lower in BLOCKED || FORWARDED_PREFIX <= lower || lower in nominated) {
        headers := headers[name := text];
      }
    }
    assert pairs[..|pairs|] == pairs;
    r := Ok(headers);
  }

  /** The headers forwarded, or the name of the first one that is not valid. */
  method NormalizeHeaders(header: Header) returns (r: Result<map<string, string>, string>)
    ensures r == Normalize(header)
  {
    var entries := Entries(header);
    var nominated := CollectNominated(entries);
    r := Ok(map[]);
    for e := 0 to |entries|
      invariant r.Ok? && Collect(FlatEntries(entries[..e]), nominated) == r
    {
      FlatLonger(entries, e);
      r := AddPairs(r.value, Pairs(entries[e]), nominated, FlatEntries(entries[..e]));
      if r.Err? {
        FailsOverall(entries, e + 1, nominated);
        return;
      }
    }
    assert entries[..|entries|] == entries;
  }

  lemma {:induction false} FlatFrom(entries: seq<Entry>, e: nat)
    requires e <= |entries|
    ensures FlatEntries(entries[..e]) <= FlatEntries(entries)
  {
    if e == |entries| {
      assert entries[..e] == entries;
    } else {
      FlatFrom(entries[..|entries| - 1], e);
      assert entries[..|entries| - 1][..e] == entries[..e];
    }
  }

  lemma FailsOverall(entries: seq<Entry>, e: nat, nominated: set<string>)
    requires e <= |entries| && Collect(FlatEntries(entries[..e]), nominated).Err?
    ensures Collect(FlatEntries(entries), nominated) == Collect(FlatEntries(entries[..e]), nominated)
  {
    FlatFrom(entries, e);
    var done, all := FlatEntries(entries[..e]), FlatEntries(entries);
    CollectErr(done, all[|done|..], nominated);
    assert all == done + all[|done|..];
  }
}
