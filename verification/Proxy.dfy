/**
 * src/common/payload.ts and the part of src/proxy/proxy.service.ts that decides what is sent upstream.
 */
module Proxy {
  import opened Prelude
  import opened Json
  import H = Headers
  import Replay
  import Text
  import Policy = TargetPolicy

  /** The request a client wants the gateway to make. */
  datatype Payload = Payload(
    accessPoint: string, verb: string, header: H.Header, body: Option<Json>, parameter: Option<Json>,
    freshness: Replay.Payload)

  /**
   * What is foreign to the gateway: `String(number)`, the size and depth limits, the URL parser (None when
   * it throws), `normalizeRequestBody` and reading a text `Parameter` (None when they throw).
   */
  datatype Env = Env(
    numberText: Number -> string,
    withinLimits: Json -> bool,
    parseUrl: string -> Option<Policy.Url>,
    normalizeBody: Json -> Option<Json>,
    parseParameter: string -> Option<Json>)

  // ---------------------------------------------------------------- narrowing the decrypted JSON

  /** `String(value)` of a scalar; other values are never read by the header code. */
  function ScalarOf(env: Env, j: Json): H.Scalar {
    match j
    case Str(s) => H.Str(s)
    case Num(n) => H.Other(env.numberText(n))
    case Bool(b) => H.Other(if b then "true" else "false")
    case _ => H.Other("")
  }

  function FieldsOf(env: Env, fields: seq<(string, Json)>): H.Fields {
    seq(|fields|, i requires 0 <= i < |fields| => (fields[i].0, ScalarOf(env, fields[i].1)))
  }

  function EntryOf(env: Env, j: Json): H.Entry {
    if j.Obj? then H.Object(FieldsOf(env, j.fields)) else H.NotObject
  }

  function HeaderOf(env: Env, j: Option<Json>): H.Header {
    match j
    case Some(Obj(fields)) => H.Map(FieldsOf(env, fields))
    case Some(Arr(items)) => H.List(seq(|items|, i requires 0 <= i < |items| => EntryOf(env, items[i])))
    case _ => H.Absent
  }

  predicate IsScalarMap(fields: seq<(string, Json)>) { forall i | 0 <= i < |fields| :: IsScalar(fields[i].1) }

  /** An entry of a header array: a record with a text Key and a scalar Value, or a map of scalars. */
  predicate IsEntry(j: Json) {
    && j.Obj?
    && if Get(j, "Key").Some? || Get(j, "Value").Some?
       then Get(j, "Key").Some? && Get(j, "Key").value.Str? && Get(j, "Value").Some? && IsScalar(Get(j, "Value").value)
       else IsScalarMap(j.fields)
  }

  predicate IsHeader(j: Json) {
    match j
    case Obj(fields) => IsScalarMap(fields)
    case Arr(items) => forall i | 0 <= i < |items| :: IsEntry(items[i])
    case _ => false
  }

  predicate IsPayload(env: Env, j: Json) {
    && j.Obj?
    && (var a := Get(j, "AccessPoint"); a.Some? && a.value.Str? && a.value.s != "")
    && (var m := Get(j, "Method"); Given(m) ==> m.value.Str?)
    && (var h := Get(j, "Header"); Given(h) ==> IsHeader(h.value))
    && (var p := Get(j, "Parameter"); Given(p) ==> p.value.Str? || p.value.Obj?)
    && (var n := Get(j, "Nonce"); Given(n) ==> n.value.Str?)
    && (var t := Get(j, "Timestamp"); Given(t) ==> t.value.Str? || t.value.Num?)
    && env.withinLimits(j)
  }

  function StampOf(j: Option<Json>): Replay.Stamp {
    match j
    case Some(Str(s)) => Replay.Text(s)
    case Some(Num(n)) => Replay.Num(n)
    case _ => Replay.NoStamp
  }

  function TextOf(j: Option<Json>): string { if j.Some? && j.value.Str? then j.value.s else "" }

  function NonceOf(j: Option<Json>): Option<string> {
    if j.Some? && j.value.Str? then Some(j.value.s) else None
  }

  /** The payload, or None when `parsePayload` throws. */
  function ParsePayload(env: Env, j: Json): Option<Payload> {
    if !IsPayload(env, j) then None
    else Some(Payload(
      TextOf(Get(j, "AccessPoint")), TextOf(Get(j, "Method")), HeaderOf(env, Get(j, "Header")),
      Get(j, "Body"), Get(j, "Parameter"),
      Replay.Payload(NonceOf(Get(j, "Nonce")), StampOf(Get(j, "Timestamp")))))
  }

  /** The scalar as a text: a text as it is, a number as `String` gives it, and true and false by their names. */
  ghost predicate IsText(env: Env, j: Json, v: H.Scalar) {
    match j
    case Str(s) => v == H.Str(s)
    case Num(n) => H.StringOf(v) == env.numberText(n)
    case Bool(b) => H.StringOf(v) == if b then "true" else "false"
    case _ => false
  }

  ghost predicate AreTexts(env: Env, fields: seq<(string, Json)>, texts: H.Fields) {
    |texts| == |fields|
    && forall i | 0 <= i < |fields| :: texts[i].0 == fields[i].0 && IsText(env, fields[i].1, texts[i].1)
  }

  /** The entry is an object of scalars; with a Key or a Value it has both, and the Key is a text. */
  ghost predicate IsEntryText(env: Env, j: Json, e: H.Entry) {
    && j.Obj? && e.Object? && |e.fields| == |j.fields|
    && if Get(j, "Key").Some? || Get(j, "Value").Some? then
         && Get(j, "Key").Some? && Get(j, "Key").value.Str? && Get(j, "Value").Some?
         && !Get(j, "Value").value.Null? && !Get(j, "Value").value.Arr? && !Get(j, "Value").value.Obj?
         && forall i | 0 <= i < |j.fields| :: e.fields[i].0 == j.fields[i].0
                && (IsScalar(j.fields[i].1) ==> IsText(env, j.fields[i].1, e.fields[i].1))
       else AreTexts(env, j.fields, e.fields)
  }

  ghost predicate IsHeaderText(env: Env, j: Option<Json>, h: H.Header) {
    match j
    case None => h == H.Absent
    case Some(Null) => h == H.Absent
    case Some(Obj(fields)) => h.Map? && AreTexts(env, fields, h.fields)
    case Some(Arr(items)) =>
      && h.List? && |h.entries| == |items|
      && forall i | 0 <= i < |items| :: IsEntryText(env, items[i], h.entries[i])
    case _ => false
  }

  /** What a decrypted request says, field by field; null counts as absent. */
  ghost predicate Says(env: Env, j: Json, p: Payload) {
    && Get(j, "AccessPoint") == Some(Str(p.accessPoint)) && p.accessPoint != ""
    && (Get(j, "Method") == Some(Str(p.verb)) || (!Given(Get(j, "Method")) && p.verb == ""))
    && IsHeaderText(env, Get(j, "Header"), p.header)
    && Get(j, "Body") == p.body && Get(j, "Parameter") == p.parameter
    && (p.parameter.None? || p.parameter.value.Null? || p.parameter.value.Str? || p.parameter.value.Obj?)
    && (match p.freshness.nonce
        case Some(nonce) => Get(j, "Nonce") == Some(Str(nonce))
        case None => !Given(Get(j, "Nonce")))
    && match p.freshness.stamp
       case Text(s) => Get(j, "Timestamp") == Some(Str(s))
       case Num(n) => Get(j, "Timestamp") == Some(Json.Num(n))
       case NoStamp => !Given(Get(j, "Timestamp"))
  }

  lemma FieldTexts(env: Env, fields: seq<(string, Json)>)
    ensures IsScalarMap(fields) ==> AreTexts(env, fields, FieldsOf(env, fields))
    ensures (exists texts :: AreTexts(env, fields, texts)) ==> IsScalarMap(fields)
  {
    if texts: H.Fields :| AreTexts(env, fields, texts) {
      assert forall i | 0 <= i < |fields| :: IsText(env, fields[i].1, texts[i].1);
    }
  }

  lemma EntryTexts(env: Env, j: Json)
    ensures IsEntry(j) ==> IsEntryText(env, j, EntryOf(env, j))
    ensures (exists e :: IsEntryText(env, j, e)) ==> IsEntry(j)
  {
    if j.Obj? {
      FieldTexts(env, j.fields);
    }
  }

  lemma HeaderTexts(env: Env, j: Option<Json>)
    ensures (Given(j) ==> IsHeader(j.value)) ==> IsHeaderText(env, j, HeaderOf(env, j))
    ensures (exists h :: IsHeaderText(env, j, h)) ==> (Given(j) ==> IsHeader(j.value))
  {
    match j
    case Some(Obj(fields)) => FieldTexts(env, fields);
    case Some(Arr(items)) =>
      forall i | 0 <= i < |items|
        ensures IsEntry(items[i]) ==> IsEntryText(env, items[i], EntryOf(env, items[i]))
        ensures (exists e :: IsEntryText(env, items[i], e)) ==> IsEntry(items[i])
      {
        EntryTexts(env, items[i]);
      }
    case _ =>
  }

  /** A decrypted object is taken for what it says, and refused exactly when it says nothing or is too large. */
  lemma ParsedIs(env: Env, j: Json)
    ensures ParsePayload(env, j).Some? ==> Says(env, j, ParsePayload(env, j).value) && env.withinLimits(j)
    ensures ParsePayload(env, j).None? ==> !env.withinLimits(j) || forall p :: !Says(env, j, p)
  {
    HeaderTexts(env, Get(j, "Header"));
  }

  // ---------------------------------------------------------------- what is sent upstream

  datatype Settings = Settings(rules: seq<Policy.Rule>, allowHttp: bool)

  datatype Upstream = Upstream(
    url: Policy.Url, verb: string, headers: map<string, string>, data: Option<Json>, params: Option<Json>)

  datatype Refusal =
    | BadMethod | BadUrl | BadProtocol | EncodedSlashes | NotAllowed | BadHeader(name: string) | BadBody | BadParameter

  function VerbOf(p: Payload): string { if p.verb == "" then "GET" else Policy.Upper(p.verb) }

  predicate ProtocolOk(s: Settings, url: Policy.Url) {
    url.protocol == "https:" || (s.allowHttp && url.protocol == "http:")
  }

  function DataOf(env: Env, verb: string, body: Option<Json>): Result<Option<Json>, Refusal> {
    if Given(body) && body.value != Str("") && verb != "GET" then
      match env.normalizeBody(body.value)
      case None => Err(BadBody)
      case Some(data) => Ok(Some(data))
    else Ok(None)
  }

  function ParamsOf(env: Env, parameter: Option<Json>): Result<Option<Json>, Refusal> {
    match parameter
    case Some(Str(s)) =>
      if s == "" then Ok(None)
      else
        (match env.parseParameter(s)
         case None => Err(BadParameter)
         case Some(params) => Ok(Some(params)))
    case Some(Obj(fields)) => Ok(Some(Obj(fields)))
    case _ => Ok(None)
  }

  /** The checks on method and target, in the source's order. */
  function Target(env: Env, s: Settings, p: Payload): Result<Policy.Url, Refusal> {
    if VerbOf(p) !in Policy.ALLOWED_METHODS then Err(BadMethod)
    else
      match env.parseUrl(p.accessPoint)
      case None => Err(BadUrl)
      case Some(url) =>
        if !ProtocolOk(s, url) then Err(BadProtocol)
        else
          match Policy.Decide(s.rules, VerbOf(p), url)
          case EncodedSlash => Err(EncodedSlashes)
          case NotListed => Err(NotAllowed)
          case Allowed => Ok(url)
  }

  /** What `forward` sends upstream, or why it refuses to. */
  function Prepare(env: Env, s: Settings, p: Payload): Result<Upstream, Refusal> {
    match Target(env, s, p)
    case Err(e) => Err(e)
    case Ok(url) =>
      match H.Normalize(p.header)
      case Err(name) => Err(BadHeader(name))
      case Ok(headers) =>
        match DataOf(env, VerbOf(p), p.body)
        case Err(e) => Err(e)
        case Ok(data) =>
          match ParamsOf(env, p.parameter)
          case Err(e) => Err(e)
          case Ok(params) => Ok(Upstream(url, VerbOf(p), headers, data, params))
  }

  // ---------------------------------------------------------------- field by field

  /** The method of the request in capitals, GET when there is none. */
  ghost predicate IsVerb(p: Payload, verb: string) {
    verb in Policy.ALLOWED_METHODS && if p.verb == "" then verb == "GET" else Text.Lower(p.verb) == Text.Lower(verb)
  }

  /** The headers that may be forwarded, each with its last value. */
  ghost predicate AreHeaders(h: H.Header, headers: map<string, string>) {
    && (forall i | 0 <= i < |H.Flat(h)| :: H.WellFormed(H.Flat(h)[i]))
    && (forall name :: name in headers <==> H.Forwardable(H.Flat(h), name) && exists i :: H.LastAt(H.Flat(h), name, i))
    && (forall name, i | name in headers && H.LastAt(H.Flat(h), name, i) :: headers[name] == H.Flat(h)[i].1)
  }

  /** A body is sent unless it is null, absent or empty, or the method is GET. */
  predicate HasBody(verb: string, body: Option<Json>) {
    verb != "GET" && body.Some? && body.value != Null && body.value != Str("")
  }

  ghost predicate IsData(env: Env, verb: string, body: Option<Json>, data: Option<Json>) {
    if HasBody(verb, body) then data.Some? && env.normalizeBody(body.value) == data else data == None
  }

  ghost predicate AreParams(env: Env, parameter: Option<Json>, params: Option<Json>) {
    if parameter.Some? && parameter.value.Str? && parameter.value.s != "" then
      params.Some? && env.parseParameter(parameter.value.s) == params
    else if parameter.Some? && parameter.value.Obj? then params == parameter
    else params == None
  }

  /** What is sent for a request, field by field. */
  ghost predicate Sends(env: Env, s: Settings, p: Payload, sent: Upstream) {
    && IsVerb(p, sent.verb)
    && env.parseUrl(p.accessPoint) == Some(sent.url)
    && (sent.url.protocol == "https:" || (s.allowHttp && sent.url.protocol == "http:"))
    && Policy.Decide(s.rules, sent.verb, sent.url) == Policy.Allowed
    && AreHeaders(p.header, sent.headers)
    && IsData(env, sent.verb, p.body, sent.data)
    && AreParams(env, p.parameter, sent.params)
  }

  lemma VerbIff(p: Payload, verb: string)
    ensures IsVerb(p, verb) <==> verb in Policy.ALLOWED_METHODS && VerbOf(p) == verb
  {
    if verb in Policy.ALLOWED_METHODS {
      Policy.VerbAnyCase(p.verb, verb);
    }
  }

  lemma SameHeader(h: H.Header, a: map<string, string>, b: map<string, string>, name: string)
    requires AreHeaders(h, a) && AreHeaders(h, b)
    ensures name in a <==> name in b
    ensures name in a ==> a[name] == b[name]
  {
    if name in a {
      var i :| H.LastAt(H.Flat(h), name, i);
    }
  }

  lemma SameHeaders(h: H.Header, a: map<string, string>, b: map<string, string>)
    requires AreHeaders(h, a) && AreHeaders(h, b)
    ensures a == b
  {
    forall name ensures (name in a <==> name in b) && (name in a ==> a[name] == b[name]) {
      SameHeader(h, a, b, name);
    }
    assert a.Keys == b.Keys;
  }

  lemma NormalizedAre(h: H.Header)
    ensures H.Normalize(h).Ok? ==> AreHeaders(h, H.Normalize(h).value)
    ensures H.Normalize(h).Err? ==> exists i | 0 <= i < |H.Flat(h)| :: !H.WellFormed(H.Flat(h)[i])
  {
    H.NormalizeIs(h);
    if H.Normalize(h).Err? {
      var i :| H.FirstInvalid(H.Flat(h), i);
      assert !H.WellFormed(H.Flat(h)[i]);
    }
  }

  lemma HeadersIff(h: H.Header, headers: map<string, string>)
    ensures H.Normalize(h) == Ok(headers) <==> AreHeaders(h, headers)
  {
    NormalizedAre(h);
    if H.Normalize(h).Ok? && AreHeaders(h, headers) {
      SameHeaders(h, headers, H.Normalize(h).value);
    }
  }

  lemma DataIff(env: Env, verb: string, body: Option<Json>, data: Option<Json>)
    ensures DataOf(env, verb, body) == Ok(data) <==> IsData(env, verb, body, data)
    ensures DataOf(env, verb, body).Err? <==> HasBody(verb, body) && env.normalizeBody(body.value) == None
  {
  }

  lemma ParamsIff(env: Env, parameter: Option<Json>, params: Option<Json>)
    ensures ParamsOf(env, parameter) == Ok(params) <==> AreParams(env, parameter, params)
    ensures ParamsOf(env, parameter).Err? <==>
              && parameter.Some? && parameter.value.Str? && parameter.value.s != ""
              && env.parseParameter(parameter.value.s) == None
  {
  }

  lemma TargetIff(env: Env, s: Settings, p: Payload, url: Policy.Url)
    ensures Target(env, s, p) == Ok(url) <==>
              && VerbOf(p) in Policy.ALLOWED_METHODS && env.parseUrl(p.accessPoint) == Some(url)
              && (url.protocol == "https:" || (s.allowHttp && url.protocol == "http:"))
              && Policy.Decide(s.rules, VerbOf(p), url) == Policy.Allowed
  {
  }

  lemma PreparedParts(env: Env, s: Settings, p: Payload, sent: Upstream)
    ensures Prepare(env, s, p) == Ok(sent) <==>
              && Target(env, s, p) == Ok(sent.url) && VerbOf(p) == sent.verb
              && H.Normalize(p.header) == Ok(sent.headers)
              && DataOf(env, VerbOf(p), p.body) == Ok(sent.data) && ParamsOf(env, p.parameter) == Ok(sent.params)
  {
  }

  /** A request is sent upstream with exactly these fields. */
  lemma SendsIff(env: Env, s: Settings, p: Payload, sent: Upstream)
    ensures Prepare(env, s, p) == Ok(sent) <==> Sends(env, s, p, sent)
  {
    PreparedParts(env, s, p, sent);
    TargetIff(env, s, p, sent.url);
    VerbIff(p, sent.verb);
    HeadersIff(p.header, sent.headers);
    DataIff(env, sent.verb, p.body, sent.data);
    ParamsIff(env, p.parameter, sent.params);
  }

  // ---------------------------------------------------------------- what is refused

  /** What is wrong with a request, for each reason to refuse it; a later one presupposes the earlier checks. */
  ghost predicate Wrong(env: Env, s: Settings, p: Payload, why: Refusal) {
    var url := env.parseUrl(p.accessPoint);
    match why
    case BadMethod => forall verb :: !IsVerb(p, verb)
    case BadUrl => url.None?
    case BadProtocol => url.Some? && url.value.protocol != "https:" && !(s.allowHttp && url.value.protocol == "http:")
    case EncodedSlashes => url.Some? && Policy.Encoded(url.value.pathname)
    case NotAllowed => url.Some? && forall verb | IsVerb(p, verb) :: Policy.Decide(s.rules, verb, url.value).NotListed?
    case BadHeader(name) => exists i :: H.FirstInvalid(H.Flat(p.header), i) && H.Flat(p.header)[i].0 == name
    case BadBody =>
      exists verb :: IsVerb(p, verb) && HasBody(verb, p.body) && env.normalizeBody(p.body.value) == None
    case BadParameter =>
      && p.parameter.Some? && p.parameter.value.Str? && p.parameter.value.s != ""
      && env.parseParameter(p.parameter.value.s) == None
  }

  function Rank(why: Refusal): nat {
    match why
    case BadMethod => 0 case BadUrl => 1 case BadProtocol => 2 case EncodedSlashes => 3
    case NotAllowed => 4 case BadHeader(_) => 5 case BadBody => 6 case BadParameter => 7
  }

  lemma MethodIff(p: Payload)
    ensures VerbOf(p) in Policy.ALLOWED_METHODS <==> exists verb :: IsVerb(p, verb)
    ensures forall verb | IsVerb(p, verb) :: verb == VerbOf(p)
  {
    VerbIff(p, VerbOf(p));
    forall verb | IsVerb(p, verb) ensures verb == VerbOf(p) {
      VerbIff(p, verb);
    }
  }

  lemma TargetWrong(env: Env, s: Settings, p: Payload)
    ensures Target(env, s, p).Err? ==>
              && Rank(Target(env, s, p).error) < 5 && Wrong(env, s, p, Target(env, s, p).error)
              && forall why | Rank(why) < Rank(Target(env, s, p).error) :: !Wrong(env, s, p, why)
    ensures Target(env, s, p).Ok? ==> forall why | Rank(why) < 5 :: !Wrong(env, s, p, why)
  {
    MethodIff(p);
    var url := env.parseUrl(p.accessPoint);
    if url.Some? {
      Policy.EncodedIff(url.value.pathname);
    }
  }

  lemma HeaderWrong(env: Env, s: Settings, p: Payload)
    ensures H.Normalize(p.header).Err? ==> Wrong(env, s, p, BadHeader(H.Normalize(p.header).error))
    ensures H.Normalize(p.header).Ok? ==> forall name :: !Wrong(env, s, p, BadHeader(name))
  {
    H.NormalizeIs(p.header);
  }

  lemma BodyWrong(env: Env, s: Settings, p: Payload)
    requires Target(env, s, p).Ok?
    ensures DataOf(env, VerbOf(p), p.body).Err? <==> Wrong(env, s, p, BadBody)
    ensures DataOf(env, VerbOf(p), p.body).Err? ==> DataOf(env, VerbOf(p), p.body).error == BadBody
  {
    MethodIff(p);
    VerbIff(p, VerbOf(p));
    DataIff(env, VerbOf(p), p.body, None);
  }

  lemma ParamsWrong(env: Env, s: Settings, p: Payload)
    ensures ParamsOf(env, p.parameter).Err? <==> Wrong(env, s, p, BadParameter)
    ensures ParamsOf(env, p.parameter).Err? ==> ParamsOf(env, p.parameter).error == BadParameter
  {
    ParamsIff(env, p.parameter, None);
  }

  /** A request that is not sent is refused for the first thing that is wrong with it. */
  lemma RefusedFor(env: Env, s: Settings, p: Payload)
    requires Prepare(env, s, p).Err?
    ensures Wrong(env, s, p, Prepare(env, s, p).error)
    ensures forall why | Rank(why) < Rank(Prepare(env, s, p).error) :: !Wrong(env, s, p, why)
  {
    TargetWrong(env, s, p);
    HeaderWrong(env, s, p);
    ParamsWrong(env, s, p);
    if Target(env, s, p).Ok? {
      BodyWrong(env, s, p);
      forall why | Rank(why) < Rank(Prepare(env, s, p).error) ensures !Wrong(env, s, p, why) {
        Ranked(why);
      }
    }
  }

  lemma Ranked(why: Refusal)
    ensures Rank(why) == 5 ==> why.BadHeader?
    ensures Rank(why) == 6 ==> why == BadBody
    ensures Rank(why) == 7 ==> why == BadParameter
    ensures Rank(why) <= 7
  {
  }

  // ---------------------------------------------------------------- what leaves the gateway

  /** The URL parser gives http and https URLs a rooted path. */
  ghost predicate RootedUrls(env: Env) {
    forall text | env.parseUrl(text).Some? && env.parseUrl(text).value.protocol in {"https:", "http:"} ::
      "/" <= env.parseUrl(text).value.pathname
  }

  /**
   * Under a policy read from its two lists, nothing leaves the gateway but an allowed method to a host that an entry
   * names or a host, method and path that a route names, without an encoded slash and over an allowed protocol,
   * with valid headers that the client may set; and with both lists empty nothing leaves.
   */
  lemma SentIsListed(env: Env, urlPath: Policy.UrlPath, hosts: string, routes: string, allowHttp: bool, p: Payload,
                     sent: Upstream)
    requires Policy.Policy(urlPath, hosts, routes).Ok? && Policy.Rooted(urlPath) && RootedUrls(env)
    requires Prepare(env, Settings(Policy.Policy(urlPath, hosts, routes).value, allowHttp), p) == Ok(sent)
    ensures IsVerb(p, sent.verb) && env.parseUrl(p.accessPoint) == Some(sent.url)
    ensures Policy.Listed(urlPath, hosts, routes, sent.verb, sent.url) && !Policy.Encoded(sent.url.pathname)
    ensures sent.url.protocol == "https:" || (allowHttp && sent.url.protocol == "http:")
    ensures AreHeaders(p.header, sent.headers)
    ensures exists e :: Policy.EntryOf(hosts, e) || Policy.EntryOf(routes, e)
  {
    SendsIff(env, Settings(Policy.Policy(urlPath, hosts, routes).value, allowHttp), p, sent);
    Policy.AllowedIff(urlPath, hosts, routes, sent.verb, sent.url);
  }
}
