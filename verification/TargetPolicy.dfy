/**
 * src/proxy/target-policy.ts: which upstream requests the gateway may make. The policy is read from two
 * comma-separated lists, and a request is allowed when any entry of either list matches it.
 */
module TargetPolicy {
  import opened Prelude
  import opened Text

  /** A verb of "*" stands for any. The path is exact, or a prefix when `prefix` holds. */
  datatype Rule = Rule(verb: string, host: string, path: string, prefix: bool, source: string)

  /** The parts of a parsed URL. */
  datatype Url = Url(protocol: string, host: string, pathname: string, text: string)

  /** The pathname that the URL parser makes of a path; it always starts with a slash. */
  type UrlPath = string -> string

  datatype Decision = Allowed | EncodedSlash | NotListed

  datatype Why =
    | HasScheme | NotHostForm | HostsOnly | TooManyWords | BadMethod | NotHostPath | StarInside

  datatype ConfigError = ConfigError(variable: string, entry: string, why: Why)

  const ALLOWED_METHODS: seq<string> := ["GET", "POST", "PUT", "PATCH", "DELETE"]

  // ---------------------------------------------------------------- deciding

  predicate EndsWith(s: string, c: char) { s != "" && s[|s| - 1] == c }

  predicate MatchesPath(rule: Rule, pathname: string) {
    if !rule.prefix then pathname == rule.path
    else if rule.path == "/" then true
    else if pathname == rule.path then true
    else (if EndsWith(rule.path, '/') then rule.path else rule.path + "/") <= pathname
  }

  predicate EncodedAt(s: string, i: int)
    requires 0 <= i && i + 2 < |s|
  {
    s[i] == '%' && ((s[i + 1] == '2' && LowerChar(s[i + 2]) == 'f') || (s[i + 1] == '5' && LowerChar(s[i + 2]) == 'c'))
  }

  predicate HasEncodedSlash(pathname: string) { exists i | 0 <= i < |pathname| - 2 :: EncodedAt(pathname, i) }

  predicate Matches(rule: Rule, verb: string, url: Url) {
    rule.host == Lower(url.host) && (rule.verb == "*" || rule.verb == verb) && MatchesPath(rule, url.pathname)
  }

  function Decide(rules: seq<Rule>, verb: string, url: Url): Decision {
    if HasEncodedSlash(url.pathname) then EncodedSlash
    else if exists r | r in rules :: Matches(r, verb, url) then Allowed
    else NotListed
  }

  // ---------------------------------------------------------------- reading the configuration

  predicate StartsAt(s: string, i: nat, t: string)
    requires i <= |s|
  {
    t <= s[i..]
  }

  predicate Contains(s: string, t: string) { exists i | 0 <= i <= |s| :: StartsAt(s, i, t) }

  function Kept(part: string): seq<string> { if Trim(part) == "" then [] else [Trim(part)] }

  function NonEmpty(parts: seq<string>): seq<string> {
    if parts == [] then [] else Kept(parts[0]) + NonEmpty(parts[1..])
  }

  function SplitList(raw: string): seq<string> { NonEmpty(Split(raw, ',')) }

  function IndexOf(s: string, c: char): (i: nat)
    ensures i <= |s| && c !in s[..i] && (i < |s| ==> s[i] == c)
  {
    if s == "" || s[0] == c then 0 else 1 + IndexOf(s[1..], c)
  }

  predicate IsDigit(c: char) { '0' <= c <= '9' }

  predicate IsPort(s: string) { 1 <= |s| <= 5 && forall i | 0 <= i < |s| :: IsDigit(s[i]) }

  predicate IsName(s: string) {
    s != "" && forall i | 0 <= i < |s| :: IsDigit(s[i]) || 'a' <= LowerChar(s[i]) <= 'z' || s[i] == '.' || s[i] == '-'
  }

  predicate IsBracketed(s: string) {
    && |s| > 2 && s[0] == '[' && s[|s| - 1] == ']'
    && forall i | 1 <= i < |s| - 1 :: IsHexDigit(s[i]) || s[i] == ':' || s[i] == '.'
  }

  /** A name or a bracketed address, then optionally a port. */
  predicate IsHostForm(s: string) {
    || IsName(s)
    || IsBracketed(s)
    || exists i | 0 <= i < |s| :: s[i] == ':' && IsPort(s[i + 1..]) && (IsName(s[..i]) || IsBracketed(s[..i]))
  }

  predicate EndsIn(s: string, t: string) { |s| >= |t| && s[|s| - |t|..] == t }

  function DropDefaultPort(host: string): string {
    if EndsIn(host, ":443") then host[..|host| - 4]
    else if EndsIn(host, ":80") then host[..|host| - 3]
    else host
  }

  function AssertHost(variable: string, entry: string, host: string): Result<string, ConfigError> {
    if Contains(host, "://") then Err(ConfigError(variable, entry, HasScheme))
    else if !IsHostForm(host) then Err(ConfigError(variable, entry, NotHostForm))
    else Ok(DropDefaultPort(Lower(host)))
  }

  const HOSTS := "ALLOWED_TARGET_HOSTS"
  const ROUTES := "ALLOWED_ROUTES"

  function ParseHost(entry: string): Result<Rule, ConfigError> {
    if Contains(entry, "://") then Err(ConfigError(HOSTS, entry, HasScheme))
    else if '/' in entry then Err(ConfigError(HOSTS, entry, HostsOnly))
    else
      match AssertHost(HOSTS, entry, entry)
      case Err(e) => Err(e)
      case Ok(host) => Ok(Rule("*", host, "/", true, entry))
  }

  /** Split at every run of white space. */
  function Words(s: string): (words: seq<string>)
    ensures words != []
  {
    if s == "" then [""]
    else if IsSpace(s[0]) then if |s| > 1 && IsSpace(s[1]) then Words(s[1..]) else [""] + Words(s[1..])
    else
      var rest := Words(s[1..]);
      [[s[0]] + rest[0]] + rest[1..]
  }

  function UpperChar(c: char): char { if 'a' <= c <= 'z' then (c as int - 32) as char else c }

  function Upper(s: string): string { seq(|s|, i requires 0 <= i < |s| => UpperChar(s[i])) }

  function ParseRoute(urlPath: UrlPath, entry: string): Result<Rule, ConfigError> {
    var parts := Words(entry);
    if |parts| > 2 then Err(ConfigError(ROUTES, entry, TooManyWords))
    else
      var (verb, target) := if |parts| == 2 then (Upper(parts[0]), parts[1]) else ("*", parts[0]);
      if verb != "*" && verb !in ALLOWED_METHODS then Err(ConfigError(ROUTES, entry, BadMethod))
      else if Contains(target, "://") then Err(ConfigError(ROUTES, entry, HasScheme))
      else
        var slash := IndexOf(target, '/');
        if slash == 0 || slash == |target| then Err(ConfigError(ROUTES, entry, NotHostPath))
        else ParseTarget(urlPath, entry, verb, target[..slash], target[slash..])
  }

  function ParseTarget(urlPath: UrlPath, entry: string, verb: string, host: string, rawPath: string)
    : Result<Rule, ConfigError>
    requires rawPath != ""
  {
    match AssertHost(ROUTES, entry, host)
    case Err(e) => Err(e)
    case Ok(name) =>
      if '*' in rawPath[..|rawPath| - 1] then Err(ConfigError(ROUTES, entry, StarInside))
      else
        var prefix := EndsWith(rawPath, '*');
        Ok(Rule(verb, name, urlPath(if prefix then rawPath[..|rawPath| - 1] else rawPath), prefix, entry))
  }

  function ParseHosts(entries: seq<string>): Result<seq<Rule>, ConfigError> {
    if entries == [] then Ok([])
    else
      match ParseHost(entries[0])
      case Err(e) => Err(e)
      case Ok(rule) =>
        match ParseHosts(entries[1..])
        case Err(e) => Err(e)
        case Ok(rules) => Ok([rule] + rules)
  }

  function ParseRoutes(urlPath: UrlPath, entries: seq<string>): Result<seq<Rule>, ConfigError> {
    if entries == [] then Ok([])
    else
      match ParseRoute(urlPath, entries[0])
      case Err(e) => Err(e)
      case Ok(rule) =>
        match ParseRoutes(urlPath, entries[1..])
        case Err(e) => Err(e)
        case Ok(rules) => Ok([rule] + rules)
  }

  /** The rules of a policy, or the complaint about the first invalid entry. */
  function Policy(urlPath: UrlPath, hosts: string, routes: string): Result<seq<Rule>, ConfigError> {
    match ParseHosts(SplitList(hosts))
    case Err(e) => Err(e)
    case Ok(a) =>
      match ParseRoutes(urlPath, SplitList(routes))
      case Err(e) => Err(e)
      case Ok(b) => Ok(a + b)
  }

  // ---------------------------------------------------------------- paths as lists of segments

  /** A path below another one, or the same, is one whose segments extend the other's. */
  lemma PrefixSegments(a: string, s: string)
    ensures a + "/" <= s <==> Split(a, '/') < Split(s, '/')
    ensures s == a <==> Split(a, '/') == Split(s, '/')
  {
    JoinSplit(a, '/');
    JoinSplit(s, '/');
    if a + "/" <= s {
      SegmentsBelow(a, s);
    }
    if Split(a, '/') < Split(s, '/') {
      BelowBySegments(a, s);
    }
  }

  lemma SegmentsBelow(a: string, s: string)
    requires a + "/" <= s
    ensures Split(a, '/') < Split(s, '/')
  {
    var rest := s[|a| + 1..];
    assert s == a + ['/'] + rest;
    SplitConcat(a, rest, '/');
  }

  lemma BelowBySegments(a: string, s: string)
    requires Split(a, '/') < Split(s, '/')
    ensures a + "/" <= s
  {
    var ours, theirs := Split(a, '/'), Split(s, '/');
    JoinSplit(a, '/');
    JoinSplit(s, '/');
    JoinLonger(ours, theirs);
  }

  lemma JoinLonger(ours: seq<string>, theirs: seq<string>)
    requires ours != [] && ours < theirs
    ensures Join(ours, '/') + "/" <= Join(theirs, '/')
  {
    var more := theirs[|ours|..];
    assert theirs == ours + more;
    JoinConcat(ours, more, '/');
  }

  lemma {:induction false} JoinConcat(l: seq<string>, r: seq<string>, sep: char)
    requires l != [] && r != []
    ensures Join(l + r, sep) == Join(l, sep) + [sep] + Join(r, sep)
  {
    assert (l + r)[1..] == l[1..] + r;
    if |l| > 1 {
      JoinConcat(l[1..], r, sep);
    }
  }

  /**
   * What a rule's path stands for: exactly that list of segments; as a prefix, every list that extends it;
   * and, as a prefix with a trailing slash, every list with at least one further, possibly empty, segment.
   */
  ghost predicate Covers(rule: Rule, pathname: string) {
    var ours, theirs := Split(rule.path, '/'), Split(pathname, '/');
    if !rule.prefix then theirs == ours
    else if ours[|ours| - 1] == "" then ours[..|ours| - 1] < theirs
    else ours <= theirs
  }

  lemma {:induction false} LastSegment(s: string)
    requires s != ""
    ensures var parts := Split(s, '/'); parts[|parts| - 1] == "" <==> s[|s| - 1] == '/'
  {
    if |s| > 1 {
      LastSegment(s[1..]);
      SplitPlainOnly(s[1..], '/');
    }
  }

  /** Only a text without the separator is a single part, and that part is the text. */
  lemma SplitPlainOnly(s: string, sep: char)
    ensures |Split(s, sep)| == 1 ==> Split(s, sep)[0] == s
  {
    JoinSplit(s, sep);
  }

  /** Matching a path is exactly comparing segments. */
  lemma MatchesIffCovers(rule: Rule, pathname: string)
    requires "/" <= rule.path && "/" <= pathname
    ensures MatchesPath(rule, pathname) <==> Covers(rule, pathname)
  {
    PrefixSegments(rule.path, pathname);
    LastSegment(rule.path);
    if rule.prefix && EndsWith(rule.path, '/') {
      var base := rule.path[..|rule.path| - 1];
      assert rule.path == base + "/" == base + ['/'] + "";
      SplitConcat(base, "", '/');
      PrefixSegments(base, pathname);
    }
  }

  /** So a prefix rule ends at a segment boundary: `/admin*` does not reach `/administrator`. */
  lemma NeverInsideSegment(rule: Rule, c: char, more: string)
    requires rule.prefix && "/" <= rule.path && !EndsWith(rule.path, '/') && c != '/'
    ensures !MatchesPath(rule, rule.path + [c] + more)
    ensures MatchesPath(rule, rule.path + ['/'] + more)
  {
    var inside := rule.path + [c] + more;
    assert inside[|rule.path|] == c;
  }

  // ---------------------------------------------------------------- the decision in terms of the two lists

  ghost predicate HostEntryAdmits(entry: string, verb: string, url: Url) {
    ParseHost(entry).Ok? && Matches(ParseHost(entry).value, verb, url)
  }

  ghost predicate RouteAdmits(urlPath: UrlPath, entry: string, verb: string, url: Url) {
    ParseRoute(urlPath, entry).Ok? && Matches(ParseRoute(urlPath, entry).value, verb, url)
  }

  lemma {:induction false} HostRules(entries: seq<string>)
    ensures ParseHosts(entries).Ok? <==> forall e | e in entries :: ParseHost(e).Ok?
    ensures ParseHosts(entries).Ok? ==>
              forall r :: (r in ParseHosts(entries).value <==> exists e | e in entries :: ParseHost(e) == Ok(r))
  {
    if entries != [] {
      HostRules(entries[1..]);
      assert forall e :: e in entries <==> e == entries[0] || e in entries[1..];
    }
  }

  lemma {:induction false} RouteRules(urlPath: UrlPath, entries: seq<string>)
    ensures ParseRoutes(urlPath, entries).Ok? <==> forall e | e in entries :: ParseRoute(urlPath, e).Ok?
    ensures ParseRoutes(urlPath, entries).Ok? ==>
              forall r :: (r in ParseRoutes(urlPath, entries).value <==>
                           exists e | e in entries :: ParseRoute(urlPath, e) == Ok(r))
  {
    if entries != [] {
      RouteRules(urlPath, entries[1..]);
      assert forall e :: e in entries <==> e == entries[0] || e in entries[1..];
    }
  }

  /** Every entry of both lists is valid. */
  ghost predicate AllValid(urlPath: UrlPath, hosts: string, routes: string) {
    && (forall e | e in SplitList(hosts) :: ParseHost(e).Ok?)
    && (forall e | e in SplitList(routes) :: ParseRoute(urlPath, e).Ok?)
  }

  ghost predicate SomeEntryAdmits(urlPath: UrlPath, hosts: string, routes: string, verb: string, url: Url) {
    || (exists e | e in SplitList(hosts) :: HostEntryAdmits(e, verb, url))
    || (exists e | e in SplitList(routes) :: RouteAdmits(urlPath, e, verb, url))
  }

  /**
   * The policy stands exactly when every entry is valid, and then allows exactly the requests without an
   * encoded slash that some entry admits. Only the sets of entries matter, not their order or repetition.
   */
  lemma PolicyAllows(urlPath: UrlPath, hosts: string, routes: string, verb: string, url: Url)
    ensures Policy(urlPath, hosts, routes).Ok? <==> AllValid(urlPath, hosts, routes)
    ensures Policy(urlPath, hosts, routes).Ok? ==>
              (Decide(Policy(urlPath, hosts, routes).value, verb, url) == Allowed <==>
               !HasEncodedSlash(url.pathname) && SomeEntryAdmits(urlPath, hosts, routes, verb, url))
  {
    HostRules(SplitList(hosts));
    RouteRules(urlPath, SplitList(routes));
    var policy := Policy(urlPath, hosts, routes);
    if policy.Ok? {
      var a, b := ParseHosts(SplitList(hosts)).value, ParseRoutes(urlPath, SplitList(routes)).value;
      RulesOfEntries(a, b, urlPath, hosts, routes, verb, url);
    }
  }

  lemma RulesOfEntries(a: seq<Rule>, b: seq<Rule>, urlPath: UrlPath, hosts: string, routes: string, verb: string,
                       url: Url)
    requires forall r :: r in a <==> exists e | e in SplitList(hosts) :: ParseHost(e) == Ok(r)
    requires forall r :: r in b <==> exists e | e in SplitList(routes) :: ParseRoute(urlPath, e) == Ok(r)
    ensures (exists r | r in a + b :: Matches(r, verb, url)) <==> SomeEntryAdmits(urlPath, hosts, routes, verb, url)
  {
    if e :| e in SplitList(hosts) && HostEntryAdmits(e, verb, url) {
      assert ParseHost(e).value in a + b;
    }
    if e :| e in SplitList(routes) && RouteAdmits(urlPath, e, verb, url) {
      assert ParseRoute(urlPath, e).value in a + b;
    }
    if r :| r in a + b && Matches(r, verb, url) {
      if r in a {
        var e :| e in SplitList(hosts) && ParseHost(e) == Ok(r);
        assert HostEntryAdmits(e, verb, url);
      } else {
        var e :| e in SplitList(routes) && ParseRoute(urlPath, e) == Ok(r);
        assert RouteAdmits(urlPath, e, verb, url);
      }
    }
  }

  /** The order and repetition of entries do not matter. */
  lemma OrderIndependent(urlPath: UrlPath, hosts: string, routes: string, hosts': string, routes': string, verb: string,
                         url: Url)
    requires forall e :: e in SplitList(hosts) <==> e in SplitList(hosts')
    requires forall e :: e in SplitList(routes) <==> e in SplitList(routes')
    ensures Policy(urlPath, hosts, routes).Ok? <==> Policy(urlPath, hosts', routes').Ok?
    ensures Policy(urlPath, hosts, routes).Ok? ==>
              Decide(Policy(urlPath, hosts, routes).value, verb, url)
                == Decide(Policy(urlPath, hosts', routes').value, verb, url)
  {
    PolicyAllows(urlPath, hosts, routes, verb, url);
    PolicyAllows(urlPath, hosts', routes', verb, url);
  }

  lemma NonEmptyLonger(all: seq<string>, a: seq<string>, b: seq<string>)
    requires a != [] && all != [] && all[0] == a[0] && all[1..] == a[1..] + b
    requires NonEmpty(a[1..] + b) == NonEmpty(a[1..]) + NonEmpty(b)
    ensures NonEmpty(all) == NonEmpty(a) + NonEmpty(b)
  {
  }

  lemma {:induction false} NonEmptyConcat(a: seq<string>, b: seq<string>)
    ensures NonEmpty(a + b) == NonEmpty(a) + NonEmpty(b)
  {
    if a == [] {
      assert a + b == b;
    } else {
      NonEmptyConcat(a[1..], b);
      assert (a + b)[1..] == a[1..] + b;
      NonEmptyLonger(a + b, a, b);
    }
  }

  /** The entries of two lists written one after the other, with a comma in between. */
  lemma SplitListConcat(a: string, b: string)
    ensures SplitList(a + [','] + b) == SplitList(a) + SplitList(b)
  {
    SplitConcat(a, b, ',');
    NonEmptyConcat(Split(a, ','), Split(b, ','));
  }

  /** Adding entries to either list never takes away a request that was allowed. */
  lemma Monotone(urlPath: UrlPath, hosts: string, routes: string, moreHosts: string, moreRoutes: string, verb: string,
                 url: Url)
    requires Policy(urlPath, hosts + [','] + moreHosts, routes + [','] + moreRoutes).Ok?
    ensures Policy(urlPath, hosts, routes).Ok?
    ensures Decide(Policy(urlPath, hosts, routes).value, verb, url) == Allowed ==>
              Decide(Policy(urlPath, hosts + [','] + moreHosts, routes + [','] + moreRoutes).value, verb, url)
                == Allowed
  {
    SplitListConcat(hosts, moreHosts);
    SplitListConcat(routes, moreRoutes);
    PolicyAllows(urlPath, hosts, routes, verb, url);
    PolicyAllows(urlPath, hosts + [','] + moreHosts, routes + [','] + moreRoutes, verb, url);
  }

  // ---------------------------------------------------------------- writing an entry and reading it back

  predicate NoSpace(s: string) { forall i | 0 <= i < |s| :: !IsSpace(s[i]) }

  lemma {:induction false} OneWord(s: string)
    requires NoSpace(s)
    ensures Words(s) == [s]
  {
    if s != "" {
      OneWord(s[1..]);
      assert s == [s[0]] + s[1..];
    }
  }

  lemma WordLonger(c: char, rest: string)
    requires !IsSpace(c)
    ensures Words([c] + rest) == [[c] + Words(rest)[0]] + Words(rest)[1..]
  {
    assert ([c] + rest)[1..] == rest;
  }

  lemma {:induction false} BlankSkipped(gap: string, b: string)
    requires Blank(gap) && gap != "" && NoSpace(b) && b != ""
    ensures Words(gap + b) == ["", b]
  {
    var s := gap + b;
    assert s[1..] == gap[1..] + b;
    if |gap| == 1 {
      assert gap[1..] + b == b && s[1] == b[0];
      OneWord(b);
      assert [""] + [b] == ["", b];
    } else {
      assert s[1] == gap[1];
      BlankSkipped(gap[1..], b);
    }
  }

  lemma {:induction false} TwoWords(a: string, gap: string, b: string)
    requires NoSpace(a) && Blank(gap) && gap != "" && NoSpace(b) && b != ""
    ensures Words(a + gap + b) == [a, b]
  {
    if a == "" {
      BlankSkipped(gap, b);
      assert a + gap + b == gap + b;
    } else {
      TwoWords(a[1..], gap, b);
      WordLonger(a[0], a[1..] + gap + b);
      assert a + gap + b == [a[0]] + (a[1..] + gap + b) && a == [a[0]] + a[1..];
      assert [a[1..], b][1..] == [b];
    }
  }

  /** A host as the policy keeps it: in the accepted form, in lower case, without a default port. */
  predicate IsKept(host: string) {
    IsHostForm(host) && Lower(host) == host && DropDefaultPort(host) == host && !Contains(host, "://")
  }

  /** The verb a route starts with stands for itself in upper case, a route without one for any. */
  function VerbOf(word: Option<string>): string { if word.Some? then Upper(word.value) else "*" }

  predicate IsVerb(verb: string) { verb == "*" || verb in ALLOWED_METHODS }

  function Star(prefix: bool): string { if prefix then "*" else "" }

  function Printed(word: Option<string>, gap: string, host: string, path: string, prefix: bool): string {
    (if word.Some? then word.value + gap else "") + (host + (path + Star(prefix)))
  }

  lemma {:induction false} SlashIndex(host: string, path: string)
    requires '/' !in host && "/" <= path
    ensures IndexOf(host + path, '/') == |host|
  {
    if host == "" {
      assert host + path == path;
    } else {
      SlashIndex(host[1..], path);
      assert (host + path)[1..] == host[1..] + path && host[0] in host;
    }
  }

  lemma {:induction false} NoSlash(s: string)
    requires '/' !in s
    ensures !Contains(s, "://")
  {
    forall i: nat | i <= |s| ensures !StartsAt(s, i, "://") {
      if StartsAt(s, i, "://") {
        SchemeAt(s, i);
      }
    }
  }

  lemma SchemeAt(s: string, i: nat)
    requires i <= |s| && StartsAt(s, i, "://")
    ensures i + 1 < |s| && s[i + 1] == '/'
  {
    assert s[i..][1] == '/';
  }

  lemma TargetParses(urlPath: UrlPath, entry: string, verb: string, host: string, path: string, prefix: bool)
    requires IsHostForm(host) && '/' !in host && "/" <= path && '*' !in path
    ensures ParseTarget(urlPath, entry, verb, host, path + Star(prefix))
         == Ok(Rule(verb, DropDefaultPort(Lower(host)), urlPath(path), prefix, entry))
  {
    NoSlash(host);
    if prefix {
      assert (path + "*")[..|path + "*"| - 1] == path;
    } else {
      assert path + "" == path && path[|path| - 1] in path;
    }
  }

  /** What the words are read as, once the last is cut at its slash. */
  lemma WordsRead(urlPath: UrlPath, entry: string, word: Option<string>, host: string, rawPath: string)
    requires Words(entry) == (if word.Some? then [word.value] else []) + [host + rawPath] && IsVerb(VerbOf(word))
    requires host != "" && rawPath != "" && !Contains(host + rawPath, "://") && IndexOf(host + rawPath, '/') == |host|
    ensures ParseRoute(urlPath, entry) == ParseTarget(urlPath, entry, VerbOf(word), host, rawPath)
  {
    var target := host + rawPath;
    assert target[..|host|] == host && target[|host|..] == rawPath;
    assert [] + [target] == [target];
  }

  lemma NoSpaceJoined(a: string, b: string)
    requires NoSpace(a) && NoSpace(b)
    ensures NoSpace(a + b)
  {
  }

  lemma StarHasNoSpace(prefix: bool)
    ensures NoSpace(Star(prefix))
  {
  }

  lemma HostNotEmpty(host: string)
    requires IsHostForm(host)
    ensures host != ""
  {
  }

  lemma PrintedWords(word: Option<string>, gap: string, target: string)
    requires (word.Some? ==> NoSpace(word.value)) && Blank(gap) && gap != "" && NoSpace(target) && target != ""
    ensures Words((if word.Some? then word.value + gap else "") + target)
         == (if word.Some? then [word.value] else []) + [target]
  {
    if word.Some? {
      TwoWords(word.value, gap, target);
    } else {
      OneWord(target);
      assert "" + target == target && [] + [target] == [target];
    }
  }

  /**
   * Every rule written as `METHOD host/path` or `METHOD host/path*`, in any case of the method, with `*` for it or
   * without it, and with any white space in between, is read back as that rule.
   */
  lemma RouteRoundTrip(urlPath: UrlPath, word: Option<string>, gap: string, host: string, path: string, prefix: bool)
    requires IsVerb(VerbOf(word)) && (word.Some? ==> NoSpace(word.value)) && Blank(gap) && gap != ""
    requires IsKept(host) && '/' !in host && NoSpace(host)
    requires "/" <= path && NoSpace(path) && '*' !in path && urlPath(path) == path
    requires !Contains(host + (path + Star(prefix)), "://")
    ensures var entry := Printed(word, gap, host, path, prefix);
            ParseRoute(urlPath, entry) == Ok(Rule(VerbOf(word), host, path, prefix, entry))
  {
    StarHasNoSpace(prefix);
    RouteOf(urlPath, Printed(word, gap, host, path, prefix), word, gap, host, path, prefix, Star(prefix));
  }

  lemma RouteOf(urlPath: UrlPath, entry: string, word: Option<string>, gap: string, host: string, path: string,
                prefix: bool, star: string)
    requires Blank(gap) && gap != ""
    requires IsVerb(VerbOf(word)) && (word.Some? ==> NoSpace(word.value)) && star == Star(prefix) && NoSpace(star)
    requires IsHostForm(host) && '/' !in host && NoSpace(host) && "/" <= path && NoSpace(path) && '*' !in path
    requires entry == (if word.Some? then word.value + gap else "") + (host + (path + star))
    requires !Contains(host + (path + star), "://")
    ensures ParseRoute(urlPath, entry)
         == Ok(Rule(VerbOf(word), DropDefaultPort(Lower(host)), urlPath(path), prefix, entry))
  {
    NoSpaceJoined(path, star);
    NoSpaceJoined(host, path + star);
    PrintedWords(word, gap, host + (path + star));
    HostNotEmpty(host);
    SlashIndex(host, path + star);
    WordsRead(urlPath, entry, word, host, path + star);
    TargetParses(urlPath, entry, VerbOf(word), host, path, prefix);
  }

  function PathPart(rawPath: string): string
    requires rawPath != ""
  {
    if EndsWith(rawPath, '*') then rawPath[..|rawPath| - 1] else rawPath
  }

  lemma TargetReads(urlPath: UrlPath, entry: string, verb: string, host: string, rawPath: string)
    requires rawPath != "" && ParseTarget(urlPath, entry, verb, host, rawPath).Ok?
    ensures var path := PathPart(rawPath);
            && '*' !in path && rawPath == path + Star(EndsWith(rawPath, '*')) && IsHostForm(host)
            && ParseTarget(urlPath, entry, verb, host, rawPath).value
                 == Rule(verb, DropDefaultPort(Lower(host)), urlPath(path), EndsWith(rawPath, '*'), entry)
  {
    assert rawPath == rawPath[..|rawPath| - 1] + [rawPath[|rawPath| - 1]];
  }

  /** An optional verb, a host form, a rooted path and a star for a prefix, and what they stand for. */
  ghost predicate WrittenAs(urlPath: UrlPath, entry: string, rule: Rule, word: Option<string>, host: string,
                            path: string)
  {
    && Words(entry) == (if word.Some? then [word.value] else []) + [host + (path + Star(rule.prefix))]
    && rule.verb == VerbOf(word) && IsVerb(rule.verb)
    && IsHostForm(host) && '/' !in host && rule.host == DropDefaultPort(Lower(host))
    && "/" <= path && '*' !in path && rule.path == urlPath(path)
    && !Contains(host + (path + Star(rule.prefix)), "://") && rule.source == entry
  }

  /** Exactly the routes written in that way are read, and as just that rule. */
  lemma RouteReads(urlPath: UrlPath, entry: string, rule: Rule)
    ensures ParseRoute(urlPath, entry) == Ok(rule)
       <==> exists word, host, path :: WrittenAs(urlPath, entry, rule, word, host, path)
  {
    if ParseRoute(urlPath, entry) == Ok(rule) {
      RouteRead(urlPath, entry);
    }
    if word, host, path :| WrittenAs(urlPath, entry, rule, word, host, path) {
      RouteWritten(urlPath, entry, rule, word, host, path, path + Star(rule.prefix));
    }
  }

  lemma RouteWritten(urlPath: UrlPath, entry: string, rule: Rule, word: Option<string>, host: string, path: string,
                     rawPath: string)
    requires WrittenAs(urlPath, entry, rule, word, host, path) && rawPath == path + Star(rule.prefix)
    ensures ParseRoute(urlPath, entry) == Ok(rule)
  {
    HostNotEmpty(host);
    SlashIndex(host, rawPath);
    WordsRead(urlPath, entry, word, host, rawPath);
    TargetParses(urlPath, entry, VerbOf(word), host, path, rule.prefix);
  }

  lemma RouteRead(urlPath: UrlPath, entry: string)
    requires ParseRoute(urlPath, entry).Ok?
    ensures exists word, host, path :: WrittenAs(urlPath, entry, ParseRoute(urlPath, entry).value, word, host, path)
  {
    var parts, rule := Words(entry), ParseRoute(urlPath, entry).value;
    var target := parts[|parts| - 1];
    var slash := IndexOf(target, '/');
    var host, rawPath := target[..slash], target[slash..];
    assert rawPath[0] == '/' && target == host + rawPath;
    TargetReads(urlPath, entry, rule.verb, host, rawPath);
    var word := if |parts| == 2 then Some(parts[0]) else None;
    assert parts == (if word.Some? then [word.value] else []) + [target];
    assert WrittenAs(urlPath, entry, rule, word, host, PathPart(rawPath));
  }

  /** A host entry stands for every method and path on that host, whichever default port it names. */
  lemma HostEntryCovers(entry: string, verb: string, url: Url)
    requires ParseHost(entry).Ok?
    ensures Matches(ParseHost(entry).value, verb, url) <==> Lower(url.host) == DropDefaultPort(Lower(entry))
    ensures '/' !in entry && IsHostForm(entry)
  {
  }

  /** A name or a bracketed address, without a port. */
  predicate IsPlainHost(s: string) { IsName(s) || IsBracketed(s) }

  lemma NameChars(host: string)
    requires IsName(host)
    ensures ':' !in host && '/' !in host && ':' !in Lower(host)
  {
    forall i | 0 <= i < |host| ensures host[i] != ':' && host[i] != '/' && Lower(host)[i] != ':' {
      assert IsDigit(host[i]) || 'a' <= LowerChar(host[i]) <= 'z' || host[i] == '.' || host[i] == '-';
    }
  }

  lemma BracketedChars(host: string)
    requires IsBracketed(host)
    ensures '/' !in host && Lower(host)[|host| - 1] == ']'
  {
  }

  lemma EndChars(s: string, t: string)
    requires EndsIn(s, t) && t != ""
    ensures s[|s| - 1] == t[|t| - 1] && t[0] in s
  {
    assert s[|s| - |t|..][|t| - 1] == t[|t| - 1] && s[|s| - |t|..][0] == t[0];
  }

  lemma NothingDropped(s: string)
    requires ':' !in s || (s != "" && s[|s| - 1] == ']')
    ensures DropDefaultPort(s) == s
  {
    if EndsIn(s, ":443") {
      EndChars(s, ":443");
    }
    if EndsIn(s, ":80") {
      EndChars(s, ":80");
    }
  }

  /** Without a port nothing is dropped. */
  lemma PlainKept(host: string)
    requires IsPlainHost(host)
    ensures '/' !in host && DropDefaultPort(Lower(host)) == Lower(host)
  {
    if IsName(host) {
      NameChars(host);
    } else {
      BracketedChars(host);
    }
    NothingDropped(Lower(host));
  }

  lemma PlainParsed(host: string)
    requires IsPlainHost(host)
    ensures ParseHost(host) == Ok(Rule("*", Lower(host), "/", true, host))
  {
    PlainKept(host);
    NoSlash(host);
  }

  lemma EndDropped(host: string, port: string)
    ensures EndsIn(host + port, port) && (host + port)[..|host|] == host
  {
    assert (host + port)[|host|..] == port;
  }

  lemma HttpsDropped(host: string)
    ensures DropDefaultPort(host + ":443") == host
  {
    EndDropped(host, ":443");
  }

  lemma HttpDropped(host: string)
    ensures DropDefaultPort(host + ":80") == host
  {
    EndDropped(host, ":80");
    if EndsIn(host + ":80", ":443") {
      EndChars(host + ":80", ":443");
    }
  }

  /** A port, with its colon, that a host entry loses. */
  predicate IsDefaultPort(port: string) { port == ":443" || port == ":80" }

  lemma PortForm(host: string, port: string)
    requires IsPlainHost(host) && port != "" && port[0] == ':' && IsPort(port[1..])
    ensures IsHostForm(host + port)
  {
    var s, n := host + port, |host|;
    assert s[n] == ':' && s[..n] == host && s[n + 1..] == port[1..];
  }

  /** Another port is kept. */
  lemma OtherPortKept(host: string, port: string)
    requires port != "" && port[0] == ':' && IsPort(port[1..]) && !IsDefaultPort(port)
    ensures DropDefaultPort(host + port) == host + port
  {
    var s := host + port;
    if EndsIn(s, ":443") {
      EndsAlike(host, port, ":443");
    }
    if EndsIn(s, ":80") {
      EndsAlike(host, port, ":80");
    }
  }

  lemma EndsAlike(host: string, port: string, t: string)
    requires port != "" && port[0] == ':' && IsPort(port[1..]) && EndsIn(host + port, t)
    requires t != "" && t[0] == ':' && IsPort(t[1..])
    ensures port == t
  {
    var s := host + port;
    assert forall i | 0 <= i < |t| :: t[i] == s[|s| - |t|..][i] == s[|s| - |t| + i];
    assert forall i | 1 <= i < |port| :: port[i] == port[1..][i - 1] && IsDigit(port[i]);
    assert forall i | 1 <= i < |t| :: t[i] == t[1..][i - 1] && IsDigit(t[i]);
    assert s[|host|] == ':';
  }

  lemma PortLower(host: string, port: string)
    requires port != "" && port[0] == ':' && IsPort(port[1..])
    ensures Lower(host + port) == Lower(host) + port && '/' !in port
  {
    assert forall i | 1 <= i < |port| :: port[i] == port[1..][i - 1] && LowerChar(port[i]) == port[i];
  }

  /** A host entry with a port keeps it, unless it is a default port of either protocol. */
  lemma PortParsed(host: string, port: string)
    requires IsPlainHost(host) && port != "" && port[0] == ':' && IsPort(port[1..])
    ensures ParseHost(host + port)
         == Ok(Rule("*", Lower(host) + (if IsDefaultPort(port) then "" else port), "/", true, host + port))
  {
    PlainKept(host);
    PortForm(host, port);
    PortLower(host, port);
    NoSlash(host + port);
    if IsDefaultPort(port) {
      HttpsDropped(Lower(host));
      HttpDropped(Lower(host));
      assert Lower(host) + "" == Lower(host);
    } else {
      OtherPortKept(Lower(host), port);
    }
  }

  /** So naming a default port changes nothing, for a name as for a bracketed address. */
  lemma DefaultPorts(host: string, port: string)
    requires IsPlainHost(host) && IsDefaultPort(port)
    ensures ParseHost(host).Ok? && ParseHost(host + port).Ok?
    ensures ParseHost(host + port).value.host == ParseHost(host).value.host == Lower(host)
  {
    PlainParsed(host);
    PortParsed(host, port);
  }

  // ---------------------------------------------------------------- the decision in terms of what is written

  /** Changing the case changes letters only, and to the same letter. */
  lemma CaseFolds(s: string)
    ensures Lower(Upper(s)) == Lower(s) && Upper(Lower(s)) == Upper(s)
    ensures forall i | 0 <= i < |s| ::
              !('A' <= Lower(s)[i] <= 'Z') && !('a' <= Upper(s)[i] <= 'z')
              && (!('A' <= s[i] <= 'Z') ==> Lower(s)[i] == s[i]) && (!('a' <= s[i] <= 'z') ==> Upper(s)[i] == s[i])
  {
    assert forall i | 0 <= i < |s| :: Upper(s)[i] == UpperChar(s[i]) && Lower(s)[i] == LowerChar(s[i]);
  }

  /** The verb is one of the five, or the star, written in any case. */
  lemma VerbAnyCase(word: string, verb: string)
    requires IsVerb(verb)
    ensures Upper(word) == verb <==> Lower(word) == Lower(verb)
  {
    CaseFolds(word);
    CaseFolds(verb);
    assert Upper(verb) == verb;
  }

  /** A slash or a backslash is written with a percent sign. */
  ghost predicate Encoded(pathname: string) {
    exists i | 0 <= i <= |pathname| - 3 :: pathname[i..][..3] in {"%2f", "%2F", "%5c", "%5C"}
  }

  lemma EncodedIff(pathname: string)
    ensures HasEncodedSlash(pathname) <==> Encoded(pathname)
  {
    forall i | 0 <= i < |pathname| - 2
      ensures EncodedAt(pathname, i) <==> pathname[i..][..3] in {"%2f", "%2F", "%5c", "%5C"}
    {
      assert pathname[i..][..3] == [pathname[i], pathname[i + 1], pathname[i + 2]];
    }
  }

  /** An entry of a list: what stands between two commas, without white space at the ends, unless nothing does. */
  ghost predicate EntryOf(raw: string, e: string) {
    e != "" && exists part :: part in Split(raw, ',') && Padded(part, e)
  }

  lemma {:induction false} KeptEntries(parts: seq<string>, e: string)
    ensures e in NonEmpty(parts) <==> e != "" && exists part :: part in parts && Trim(part) == e
  {
    if parts != [] {
      KeptEntries(parts[1..], e);
      assert forall part :: part in parts <==> part == parts[0] || part in parts[1..];
    }
  }

  lemma EntryIff(raw: string, e: string)
    ensures e in SplitList(raw) <==> EntryOf(raw, e)
  {
    KeptEntries(Split(raw, ','), e);
    forall part | part in Split(raw, ',') ensures Trim(part) == e <==> Padded(part, e) {
      TrimIff(part, e);
    }
  }

  predicate IsHostEntry(e: string) { IsHostForm(e) && '/' !in e }

  /** The host, the method and the path of the request are those of the rule. */
  ghost predicate Admits(rule: Rule, verb: string, url: Url) {
    rule.host == Lower(url.host) && (rule.verb == "*" || rule.verb == verb) && Covers(rule, url.pathname)
  }

  /** The entry is a route, read as the rule. */
  ghost predicate IsRoute(urlPath: UrlPath, e: string, rule: Rule) {
    exists word, host, path :: WrittenAs(urlPath, e, rule, word, host, path)
  }

  ghost predicate RouteListed(urlPath: UrlPath, e: string, verb: string, url: Url) {
    exists rule :: IsRoute(urlPath, e, rule) && Admits(rule, verb, url)
  }

  /** Some host entry names the host, or some route its host, method and path. */
  ghost predicate Listed(urlPath: UrlPath, hosts: string, routes: string, verb: string, url: Url) {
    || (exists e :: EntryOf(hosts, e) && Lower(url.host) == DropDefaultPort(Lower(e)))
    || (exists e :: EntryOf(routes, e) && RouteListed(urlPath, e, verb, url))
  }

  /** The URL parser makes rooted paths. */
  ghost predicate Rooted(urlPath: UrlPath) { forall p: string :: "/" <= urlPath(p) }

  lemma HostEntryIff(e: string)
    ensures ParseHost(e).Ok? <==> IsHostEntry(e)
  {
    if IsHostEntry(e) {
      NoSlash(e);
    }
  }

  lemma RouteAdmitsIff(urlPath: UrlPath, e: string, verb: string, url: Url)
    requires Rooted(urlPath) && "/" <= url.pathname
    ensures RouteAdmits(urlPath, e, verb, url) <==> RouteListed(urlPath, e, verb, url)
  {
    if RouteAdmits(urlPath, e, verb, url) {
      var rule := ParseRoute(urlPath, e).value;
      RouteReads(urlPath, e, rule);
      MatchesIffCovers(rule, url.pathname);
      assert IsRoute(urlPath, e, rule) && Admits(rule, verb, url);
    }
    if rule :| IsRoute(urlPath, e, rule) && Admits(rule, verb, url) {
      RouteReads(urlPath, e, rule);
      MatchesIffCovers(rule, url.pathname);
    }
  }

  lemma SomeHostIff(hosts: string, verb: string, url: Url)
    requires forall e | EntryOf(hosts, e) :: IsHostEntry(e)
    ensures (exists e | e in SplitList(hosts) :: HostEntryAdmits(e, verb, url))
       <==> exists e :: EntryOf(hosts, e) && Lower(url.host) == DropDefaultPort(Lower(e))
  {
    forall e ensures e in SplitList(hosts) <==> EntryOf(hosts, e) {
      EntryIff(hosts, e);
    }
    forall e | EntryOf(hosts, e)
      ensures HostEntryAdmits(e, verb, url) <==> Lower(url.host) == DropDefaultPort(Lower(e))
    {
      HostEntryIff(e);
      HostEntryCovers(e, verb, url);
    }
  }

  lemma SomeRouteIff(urlPath: UrlPath, routes: string, verb: string, url: Url)
    requires Rooted(urlPath) && "/" <= url.pathname
    ensures (exists e | e in SplitList(routes) :: RouteAdmits(urlPath, e, verb, url))
       <==> exists e :: EntryOf(routes, e) && RouteListed(urlPath, e, verb, url)
  {
    forall e ensures e in SplitList(routes) <==> EntryOf(routes, e) {
      EntryIff(routes, e);
    }
    forall e ensures RouteAdmits(urlPath, e, verb, url) <==> RouteListed(urlPath, e, verb, url) {
      RouteAdmitsIff(urlPath, e, verb, url);
    }
  }

  /** The policy stands exactly when every host entry has the form of a host and every route that of a route. */
  lemma StandsIff(urlPath: UrlPath, hosts: string, routes: string)
    ensures Policy(urlPath, hosts, routes).Ok? <==>
              && (forall e | EntryOf(hosts, e) :: IsHostEntry(e))
              && (forall e | EntryOf(routes, e) :: exists rule :: IsRoute(urlPath, e, rule))
  {
    HostRules(SplitList(hosts));
    RouteRules(urlPath, SplitList(routes));
    forall e ensures (e in SplitList(hosts) <==> EntryOf(hosts, e)) && (ParseHost(e).Ok? <==> IsHostEntry(e)) {
      EntryIff(hosts, e);
      HostEntryIff(e);
    }
    forall e
      ensures e in SplitList(routes) <==> EntryOf(routes, e)
      ensures ParseRoute(urlPath, e).Ok? <==> exists rule :: IsRoute(urlPath, e, rule)
    {
      EntryIff(routes, e);
      RouteIff(urlPath, e);
    }
  }

  lemma RouteIff(urlPath: UrlPath, e: string)
    ensures ParseRoute(urlPath, e).Ok? <==> exists rule :: IsRoute(urlPath, e, rule)
  {
    if ParseRoute(urlPath, e).Ok? {
      RouteReads(urlPath, e, ParseRoute(urlPath, e).value);
      assert IsRoute(urlPath, e, ParseRoute(urlPath, e).value);
    }
    if rule :| IsRoute(urlPath, e, rule) {
      RouteReads(urlPath, e, rule);
    }
  }

  // ---------------------------------------------------------------- what a host looks like

  /** Letters, digits, hyphens and dots, by their codes. */
  ghost predicate NameText(s: string) {
    s != "" && forall c | c in s ::
      48 <= c as int <= 57 || 65 <= c as int <= 90 || 97 <= c as int <= 122 || c as int == 45 || c as int == 46
  }

  /** Hexadecimal digits, colons and dots, by their codes. */
  ghost predicate AddressText(s: string) {
    s != "" && forall c | c in s ::
      48 <= c as int <= 58 || 65 <= c as int <= 70 || 97 <= c as int <= 102 || c as int == 46
  }

  /** Nothing, or a colon and one to five digits. */
  ghost predicate PortText(s: string) {
    s == "" || (2 <= |s| <= 6 && s[0] == ':' && forall c | c in s[1..] :: 48 <= c as int <= 57)
  }

  /** A name or an address in brackets, and then a port or nothing. */
  ghost predicate HostText(s: string) {
    exists host, port :: s == host + port && PortText(port) && (NameText(host) || InBrackets(host))
  }

  ghost predicate InBrackets(s: string) { exists t :: AddressText(t) && s == "[" + t + "]" }

  lemma NameIff(s: string)
    ensures IsName(s) <==> NameText(s)
  {
    if NameText(s) {
      assert forall i | 0 <= i < |s| :: s[i] in s;
    }
  }

  lemma BracketedIff(s: string)
    ensures IsBracketed(s) <==> InBrackets(s)
  {
    if IsBracketed(s) {
      var t := s[1..|s| - 1];
      assert s == "[" + t + "]";
      assert forall i | 0 <= i < |t| :: t[i] == s[i + 1];
    }
    if t :| AddressText(t) && s == "[" + t + "]" {
      assert forall i | 1 <= i < |s| - 1 :: s[i] == t[i - 1] && s[i] in t;
    }
  }

  lemma PortIff(s: string)
    requires s != ""
    ensures PortText(s) <==> s[0] == ':' && IsPort(s[1..])
  {
    if PortText(s) {
      assert forall i | 0 <= i < |s[1..]| :: s[1..][i] in s[1..];
    }
  }

  /** The host forms are exactly those. */
  lemma HostFormIff(s: string)
    ensures IsHostForm(s) <==> HostText(s)
  {
    if IsHostForm(s) {
      FormHasText(s);
    }
    if host, port :| s == host + port && PortText(port) && (NameText(host) || InBrackets(host)) {
      NameIff(host);
      BracketedIff(host);
      if port == "" {
        assert s == host;
      } else {
        PortIff(port);
        PortForm(host, port);
      }
    }
  }

  lemma PlainHasText(s: string)
    requires IsPlainHost(s)
    ensures HostText(s)
  {
    NameIff(s);
    BracketedIff(s);
    assert s == s + "" && PortText("");
  }

  lemma PortHasText(host: string, port: string)
    requires IsPlainHost(host) && port != "" && port[0] == ':' && IsPort(port[1..])
    ensures HostText(host + port)
  {
    NameIff(host);
    BracketedIff(host);
    PortIff(port);
  }

  lemma FormHasText(s: string)
    requires IsHostForm(s)
    ensures HostText(s)
  {
    if IsPlainHost(s) {
      PlainHasText(s);
    } else {
      var i :| 0 <= i < |s| && s[i] == ':' && IsPort(s[i + 1..]) && (IsName(s[..i]) || IsBracketed(s[..i]));
      assert s[i..][1..] == s[i + 1..] && s == s[..i] + s[i..];
      PortHasText(s[..i], s[i..]);
    }
  }

  // ---------------------------------------------------------------- what is wrong with an entry

  ghost predicate Mentions(s: string, t: string) { exists a, b :: s == a + t + b }

  lemma ContainsIff(s: string, t: string)
    ensures Contains(s, t) <==> Mentions(s, t)
  {
    if i :| 0 <= i <= |s| && StartsAt(s, i, t) {
      assert s == s[..i] + t + s[i + |t|..];
    }
    if a, b :| s == a + t + b {
      assert s[|a|..] == t + b && StartsAt(s, |a|, t);
    }
  }

  /** An entry that is no host is reported with the variable, the entry and the first thing wrong with it. */
  lemma HostFault(e: string)
    ensures !(HostText(e) && '/' !in e) ==> ParseHost(e) == Err(ConfigError("ALLOWED_TARGET_HOSTS", e,
      if Mentions(e, "://") then HasScheme else if '/' in e then HostsOnly else NotHostForm))
  {
    HostFormIff(e);
    ContainsIff(e, "://");
  }

  lemma SlashIs(target: string)
    ensures IndexOf(target, '/') == 0 <==> target == "" || "/" <= target
    ensures IndexOf(target, '/') == |target| <==> '/' !in target
  {
    var slash := IndexOf(target, '/');
    assert target == target[..slash] + target[slash..];
  }

  /** What is wrong with a target that is cut at its slash: its host, or else a star before its end. */
  lemma TargetFault(urlPath: UrlPath, e: string, verb: string, host: string, rawPath: string)
    requires '/' !in host && rawPath != "" && ParseTarget(urlPath, e, verb, host, rawPath).Err?
    ensures ParseTarget(urlPath, e, verb, host, rawPath).error
         == ConfigError("ALLOWED_ROUTES", e, if !HostText(host) then NotHostForm else StarInside)
  {
    HostFormIff(host);
    NoSlash(host);
  }

  /** Too many words, a verb that is none, or a scheme. */
  predicate EarlyFault(words: seq<string>, target: string) {
    |words| > 2 || (|words| == 2 && !IsVerb(Upper(words[0]))) || Contains(target, "://")
  }

  lemma Early(urlPath: UrlPath, e: string, words: seq<string>, target: string)
    requires words == Words(e) && target == words[|words| - 1] && EarlyFault(words, target)
    ensures ParseRoute(urlPath, e) == Err(ConfigError("ALLOWED_ROUTES", e,
      if |words| > 2 then TooManyWords
      else if |words| == 2 && !IsVerb(Upper(words[0])) then BadMethod
      else HasScheme))
  {
  }

  lemma Late(urlPath: UrlPath, e: string, words: seq<string>, target: string)
    requires words == Words(e) && target == words[|words| - 1] && !EarlyFault(words, target)
    ensures var slash := IndexOf(target, '/');
            ParseRoute(urlPath, e)
              == if slash == 0 || slash == |target| then Err(ConfigError("ALLOWED_ROUTES", e, NotHostPath))
                 else
                   ParseTarget(urlPath, e, if |words| == 2 then Upper(words[0]) else "*",
                     target[..slash], target[slash..])
  {
  }

  /** And so is one that is no route. */
  lemma RouteFault(urlPath: UrlPath, e: string)
    requires ParseRoute(urlPath, e).Err?
    ensures var words := Words(e);
            var target := words[|words| - 1];
            ParseRoute(urlPath, e).error == ConfigError("ALLOWED_ROUTES", e,
              if |words| > 2 then TooManyWords
              else if |words| == 2 && !IsVerb(Upper(words[0])) then BadMethod
              else if Mentions(target, "://") then HasScheme
              else if '/' !in target || "/" <= target then NotHostPath
              else if !HostText(target[..IndexOf(target, '/')]) then NotHostForm
              else StarInside)
  {
    var words := Words(e);
    var target := words[|words| - 1];
    var slash := IndexOf(target, '/');
    ContainsIff(target, "://");
    SlashIs(target);
    if EarlyFault(words, target) {
      Early(urlPath, e, words, target);
    } else {
      Late(urlPath, e, words, target);
      if 0 < slash < |target| {
        TargetFault(urlPath, e, if |words| == 2 then Upper(words[0]) else "*", target[..slash], target[slash..]);
      }
    }
  }

  /** The first entry that is not valid is the one reported, hosts before routes. */
  lemma {:induction false} FirstHost(entries: seq<string>, i: nat)
    requires i < |entries| && ParseHost(entries[i]).Err? && forall k | 0 <= k < i :: ParseHost(entries[k]).Ok?
    ensures ParseHosts(entries) == Err(ParseHost(entries[i]).error)
  {
    if i > 0 {
      FirstHost(entries[1..], i - 1);
    }
  }

  lemma FaultStays(urlPath: UrlPath, entries: seq<string>, rest: seq<string>)
    requires entries != [] && rest == entries[1..] && ParseRoute(urlPath, entries[0]).Ok?
    requires ParseRoutes(urlPath, rest).Err?
    ensures ParseRoutes(urlPath, entries) == ParseRoutes(urlPath, rest)
  {
  }

  lemma {:induction false} FirstRoute(urlPath: UrlPath, entries: seq<string>, i: nat)
    requires i < |entries| && ParseRoute(urlPath, entries[i]).Err?
    requires forall k | 0 <= k < i :: ParseRoute(urlPath, entries[k]).Ok?
    ensures ParseRoutes(urlPath, entries) == Err(ParseRoute(urlPath, entries[i]).error)
  {
    if i > 0 {
      FirstRoute(urlPath, entries[1..], i - 1);
      FaultStays(urlPath, entries, entries[1..]);
    }
  }

  lemma FirstFault(urlPath: UrlPath, hosts: string, routes: string, i: nat)
    ensures i < |SplitList(hosts)| && ParseHost(SplitList(hosts)[i]).Err?
            && (forall k | 0 <= k < i :: ParseHost(SplitList(hosts)[k]).Ok?) ==>
              Policy(urlPath, hosts, routes) == Err(ParseHost(SplitList(hosts)[i]).error)
    ensures (forall e | e in SplitList(hosts) :: ParseHost(e).Ok?)
            && i < |SplitList(routes)| && ParseRoute(urlPath, SplitList(routes)[i]).Err?
            && (forall k | 0 <= k < i :: ParseRoute(urlPath, SplitList(routes)[k]).Ok?) ==>
              Policy(urlPath, hosts, routes) == Err(ParseRoute(urlPath, SplitList(routes)[i]).error)
  {
    var h, r := SplitList(hosts), SplitList(routes);
    HostRules(h);
    if i < |h| && ParseHost(h[i]).Err? && forall k | 0 <= k < i :: ParseHost(h[k]).Ok? {
      FirstHost(h, i);
    }
    if i < |r| && ParseRoute(urlPath, r[i]).Err? && forall k | 0 <= k < i :: ParseRoute(urlPath, r[k]).Ok? {
      FirstRoute(urlPath, r, i);
    }
  }

  /**
   * What a policy decides, in terms of what is written: a path with an encoded slash is refused, and any other
   * request is allowed exactly when a host entry names its host or a route its host, method and path.
   */
  lemma AllowedIff(urlPath: UrlPath, hosts: string, routes: string, verb: string, url: Url)
    requires Rooted(urlPath) && "/" <= url.pathname && Policy(urlPath, hosts, routes).Ok?
    ensures Decide(Policy(urlPath, hosts, routes).value, verb, url) ==
              if Encoded(url.pathname) then EncodedSlash
              else if Listed(urlPath, hosts, routes, verb, url) then Allowed
              else NotListed
  {
    EncodedIff(url.pathname);
    PolicyAllows(urlPath, hosts, routes, verb, url);
    StandsIff(urlPath, hosts, routes);
    SomeHostIff(hosts, verb, url);
    SomeRouteIff(urlPath, routes, verb, url);
  }

  // ---------------------------------------------------------------- which ports an entry admits

  datatype Scheme = Http | Https

  function DefaultPort(scheme: Scheme): nat { if scheme.Https? then 443 else 80 }

  /** `URL.host`: the port is left out when it is the default of the URL's own scheme. */
  function UrlHost(scheme: Scheme, hostname: string, port: nat): string {
    hostname + if port == DefaultPort(scheme) then "" else ":" + Decimal(port)
  }

  /** A colon and digits, or nothing. */
  predicate IsTail(s: string) { s == "" || (s[0] == ':' && forall i | 1 <= i < |s| :: IsDigit(s[i])) }

  /** What goes on before the tail of another text is no host. */
  lemma PlainBoundary(a: string, b: string, p: string, q: string)
    requires IsTail(p) && a + p == b + q && |a| < |b|
    ensures !IsPlainHost(b)
  {
    var n := |b| - 1;
    assert b[|a|] == (b + q)[|a|] == (a + p)[|a|] == p[0] == ':';
    assert b[n] == (b + q)[n] == (a + p)[n] == p[n - |a|];
    assert n > |a| ==> IsDigit(p[n - |a|]);
  }

  /** Host and port can be told apart in what is written. */
  lemma HostAndPort(a: string, b: string, p: string, q: string)
    requires IsPlainHost(a) && IsPlainHost(b) && IsTail(p) && IsTail(q)
    ensures a + p == b + q <==> a == b && p == q
  {
    if a + p == b + q {
      if |a| < |b| {
        PlainBoundary(a, b, p, q);
      } else if |b| < |a| {
        PlainBoundary(b, a, q, p);
      }
      assert a == (a + p)[..|a|] == (b + q)[..|b|] == b;
      assert p == (a + p)[|a|..] == (b + q)[|b|..] == q;
    }
  }

  lemma LowerPlain(host: string)
    requires IsPlainHost(host)
    ensures IsPlainHost(Lower(host))
  {
  }

  lemma UrlTail(port: nat)
    ensures IsTail(":" + Decimal(port)) && Lower(":" + Decimal(port)) == ":" + Decimal(port)
  {
    DecimalText(port);
  }

  /**
   * An entry with a default port of either scheme, or with none, admits exactly the default port of each scheme:
   * `h:80` admits https on 443, and never https on 80. Any other port admits itself, written without leading
   * zeros, on the scheme it is not the default of.
   */
  lemma PortsAdmitted(host: string, tail: string, scheme: Scheme, hostname: string, port: nat, verb: string, url: Url)
    requires IsPlainHost(host) && (tail == "" || (tail[0] == ':' && IsPort(tail[1..])))
    requires IsPlainHost(hostname) && url.host == UrlHost(scheme, hostname, port)
    ensures HostEntryAdmits(host + tail, verb, url) <==>
              && Lower(hostname) == Lower(host)
              && if tail == "" || IsDefaultPort(tail) then port == DefaultPort(scheme)
                 else port != DefaultPort(scheme) && tail == ":" + Decimal(port)
  {
    var kept := if IsDefaultPort(tail) then "" else tail;
    var shown := if port == DefaultPort(scheme) then "" else ":" + Decimal(port);
    EntryHost(host, tail);
    UrlTail(port);
    assert Lower(url.host) == Lower(hostname) + shown;
    LowerPlain(host);
    LowerPlain(hostname);
    assert forall i | 1 <= i < |tail| :: tail[i] == tail[1..][i - 1] && IsDigit(tail[i]);
    HostAndPort(Lower(host), Lower(hostname), kept, shown);
  }

  lemma EntryHost(host: string, tail: string)
    requires IsPlainHost(host) && (tail == "" || (tail[0] == ':' && IsPort(tail[1..])))
    ensures ParseHost(host + tail)
         == Ok(Rule("*", Lower(host) + (if IsDefaultPort(tail) then "" else tail), "/", true, host + tail))
  {
    if tail == "" {
      PlainParsed(host);
      assert host + tail == host && Lower(host) + "" == Lower(host);
    } else {
      PortParsed(host, tail);
    }
  }
}
