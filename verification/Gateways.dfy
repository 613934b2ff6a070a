/**
 * src/proxy/proxy.controller.ts: one gateway request from envelope to response, and what the client of
 * clients/web/gatewayClient.js gets to see of it.
 */
module Gateways {
  import opened Prelude
  import opened Json
  import opened Envelope
  import opened WebClient
  import H = Headers
  import JsMaps
  import Proxy
  import Replay

  datatype Gateway = Gateway(
    codec: Codec, env: Proxy.Env, proxy: Proxy.Settings, replay: Replay.Config, dateParse: Replay.DateParse,
    encryptResponse: bool)

  /** How a request sent upstream ends; the response headers are those after filtering. */
  datatype Delivery = Answered(status: int, headers: Json, data: Option<Json>) | TimedOut | Unreachable

  type Upstream = Proxy.Upstream -> Delivery

  datatype Problem =
    | Decryption(e: DecryptError) | Freshness(v: Replay.Verdict) | Refused(why: Proxy.Refusal)
    | UpstreamTimeout | UpstreamFailed

  /** Decrypting and the freshness check; only the latter touches the cache. */
  function Admit(g: Gateway, keys: seq<ServerKey>, seen: Replay.Seen, dto: Dto, now: nat)
    : (Replay.Seen, Result<Opened, Problem>)
  {
    match Decrypted(g.codec, g.env, keys, dto)
    case Err(e) => (seen, Err(Decryption(e)))
    case Ok(found) =>
      var (seen', v) := Replay.Judge(g.replay, g.dateParse, seen, found.payload.freshness, now);
      (seen', if v == Replay.NotRequired || v == Replay.Accepted then Ok(found) else Err(Freshness(v)))
  }

  function ResultFields(d: Delivery): seq<(string, Json)>
    requires d.Answered?
  {
    [("StatusCode", Num(Finite(d.status as real))), ("Headers", d.headers)] + Maybe("Data", d.data)
  }

  function Respond(g: Gateway, found: Opened, upstream: Upstream, iv: Bytes): Result<Json, Problem> {
    match Proxy.Prepare(g.env, g.proxy, found.payload)
    case Err(why) => Err(Refused(why))
    case Ok(sent) =>
      match upstream(sent)
      case TimedOut => Err(UpstreamTimeout)
      case Unreachable => Err(UpstreamFailed)
      case Answered(status, headers, data) =>
        var fields := ResultFields(Answered(status, headers, data));
        Ok(if g.encryptResponse then EncryptResponse(g.codec, Obj(fields), found.aesKey, iv)
           else Obj([("Encrypted", Bool(false))] + fields))
  }

  function Handle(g: Gateway, keys: seq<ServerKey>, seen: Replay.Seen, dto: Dto, now: nat, upstream: Upstream,
                  iv: Bytes)
    : (Replay.Seen, Result<Json, Problem>)
  {
    var (seen', admitted) := Admit(g, keys, seen, dto, now);
    (seen', match admitted
            case Err(e) => Err(e)
            case Ok(found) => Respond(g, found, upstream, iv))
  }

  function StatusOf(e: Problem): int {
    match e
    case UpstreamTimeout => 504
    case UpstreamFailed => 502
    case _ => 400
  }

  function ReplyOf(r: Result<Json, Problem>): Reply {
    match r
    case Ok(json) => Success(json)
    case Err(e) => Failure(StatusOf(e))
  }

  class ProxyController {
    const encryption: EncryptionService
    const replayProtection: Replay.ReplayProtectionService
    const proxy: Proxy.Settings
    const encryptResponse: bool

    constructor (encryption: EncryptionService, replayProtection: Replay.ReplayProtectionService, proxy: Proxy.Settings,
                 encryptResponse: bool)
      ensures this.encryption == encryption && this.replayProtection == replayProtection
      ensures this.proxy == proxy && this.encryptResponse == encryptResponse
    {
      this.encryption, this.replayProtection, this.proxy, this.encryptResponse :=
        encryption, replayProtection, proxy, encryptResponse;
    }

    function Config(): Gateway {
      Gateway(encryption.codec, encryption.env, proxy, replayProtection.config, replayProtection.dateParse,
        encryptResponse)
    }

    /** `now`, the upstream and the IV of the response are the clock, the network and the random bytes. */
    method HandleGateway(dto: Dto, now: nat, upstream: Upstream, iv: Bytes) returns (r: Result<Json, Problem>)
      requires replayProtection.Valid()
      modifies replayProtection
      ensures replayProtection.Valid()
      ensures (replayProtection.seen, r)
        == Handle(Config(), encryption.keys, old(replayProtection.seen), dto, now, upstream, iv)
    {
      var found := encryption.Decrypt(dto);
      if found.Err? {
        return Err(Decryption(found.error));
      }
      var verdict := replayProtection.AssertFresh(found.value.payload.freshness, now);
      if verdict != Replay.NotRequired && verdict != Replay.Accepted {
        return Err(Freshness(verdict));
      }
      r := Respond(Config(), found.value, upstream, iv);
    }
  }

  // ---------------------------------------------------------------- the envelope is transparent

  /** The gateway accepts the key that the client uses, under the name the client gives it. */
  ghost predicate Trusts(keys: seq<ServerKey>, client: Client) {
    exists k | k in keys :: k.owner == client.serverKey
                         && (client.keyId.None? || client.keyId.value == "" || client.keyId.value == k.keyId)
  }

  /** The request is one that the gateway takes. */
  ghost predicate Takes(env: Proxy.Env, r: Request) {
    && r.accessPoint != "" && Proxy.IsScalarMap(r.headers)
    && (Given(r.parameter) ==> r.parameter.value.Str? || r.parameter.value.Obj?)
    && env.withinLimits(PayloadOf(r))
  }

  /** What the gateway makes of it: the application's own fields, and no nonce. */
  ghost function Intended(env: Proxy.Env, r: Request): Proxy.Payload {
    Proxy.Payload(
      r.accessPoint, if r.verb.Some? then r.verb.value else "GET",
      H.AsRecords(Proxy.FieldsOf(env, r.headers)), r.body, r.parameter,
      Replay.Payload(None, Replay.NoStamp))
  }

  /** The answer to a request handed to `forward` without any envelope. */
  ghost function Direct(g: Gateway, client: Client, r: Request, upstream: Upstream): Result<Answer, ClientError> {
    if !Takes(g.env, r) || g.replay.required then Err(GatewayError(400))
    else if sent :| Proxy.Sends(g.env, g.proxy, Intended(g.env, r), sent) then Seen(g, client, upstream(sent))
    else Err(GatewayError(400))
  }

  /** What the client sees of how the request sent upstream ends. */
  ghost function Seen(g: Gateway, client: Client, d: Delivery): Result<Answer, ClientError> {
    match d
    case TimedOut => Err(GatewayError(504))
    case Unreachable => Err(GatewayError(502))
    case Answered(status, headers, data) => Shown(g, client, status, headers, data)
  }

  /** What an answered request looks like to the client, in either response mode. */
  ghost function Shown(g: Gateway, client: Client, status: int, headers: Json, data: Option<Json>)
    : Result<Answer, ClientError>
  {
    if !g.encryptResponse && client.requireEncrypted then Err(EncryptedRequired)
    else if 100 <= status <= 599 && headers.Obj? && data.Some? then Ok(Answer(status, headers, data.value))
    else Err(InvalidResponse)
  }

  lemma KeyValueFields(name: string, value: Json)
    ensures Get(KeyValue(name, value), "Key") == Some(Str(name)) && Get(KeyValue(name, value), "Value") == Some(value)
  {
    FindTwo(KeyValue(name, value).fields, "Key");
    FindTwo(KeyValue(name, value).fields, "Value");
  }

  lemma RecordsAreHeader(headers: seq<(string, Json)>)
    ensures Proxy.IsHeader(Records(headers)) <==> Proxy.IsScalarMap(headers)
  {
    var items := Records(headers).items;
    forall i | 0 <= i < |headers| ensures Proxy.IsEntry(items[i]) <==> IsScalar(headers[i].1) {
      KeyValueFields(headers[i].0, headers[i].1);
    }
    if Proxy.IsScalarMap(headers) {
      assert forall i | 0 <= i < |items| :: Proxy.IsEntry(items[i]) <==> IsScalar(headers[i].1);
    } else {
      var i :| 0 <= i < |headers| && !IsScalar(headers[i].1);
      assert !Proxy.IsEntry(items[i]);
    }
  }

  lemma EntryArrives(env: Proxy.Env, name: string, value: Json)
    ensures Proxy.EntryOf(env, KeyValue(name, value)) == H.Object(H.Record(name, Proxy.ScalarOf(env, value)))
  {
    var fields := KeyValue(name, value).fields;
    assert Proxy.FieldsOf(env, fields) == [("Key", H.Str(name)), ("Value", Proxy.ScalarOf(env, value))];
  }

  lemma HeadersArrive(env: Proxy.Env, headers: seq<(string, Json)>)
    ensures Proxy.HeaderOf(env, Some(Records(headers))) == H.AsRecords(Proxy.FieldsOf(env, headers))
  {
    var items := Records(headers).items;
    forall i | 0 <= i < |headers|
      ensures Proxy.EntryOf(env, items[i]) == H.AsRecords(Proxy.FieldsOf(env, headers)).entries[i]
    {
      EntryArrives(env, headers[i].0, headers[i].1);
    }
    assert Proxy.HeaderOf(env, Some(Records(headers))).entries == H.AsRecords(Proxy.FieldsOf(env, headers)).entries;
  }

  lemma TakenIff(env: Proxy.Env, r: Request)
    ensures Proxy.IsPayload(env, PayloadOf(r)) <==> Takes(env, r)
  {
    RecordsAreHeader(r.headers);
    PayloadField(r, "AccessPoint");
    PayloadField(r, "Method");
    PayloadField(r, "Header");
    PayloadField(r, "Parameter");
    PayloadField(r, "Nonce");
    PayloadField(r, "Timestamp");
  }

  /** The request reaches the gateway field by field, with each header under its own name and in order. */
  lemma RequestArrives(env: Proxy.Env, r: Request)
    ensures Proxy.ParsePayload(env, PayloadOf(r)) == if Takes(env, r) then Some(Intended(env, r)) else None
  {
    TakenIff(env, r);
    HeadersArrive(env, r.headers);
    PayloadField(r, "AccessPoint");
    PayloadField(r, "Method");
    PayloadField(r, "Header");
    PayloadField(r, "Body");
    PayloadField(r, "Parameter");
    PayloadField(r, "Nonce");
    PayloadField(r, "Timestamp");
  }

  /** The headers that a request through the envelope is normalised from are the application's, whatever their names. */
  lemma HeadersForwarded(env: Proxy.Env, r: Request)
    ensures H.Flat(Intended(env, r).header) == H.Texts(Proxy.FieldsOf(env, r.headers))
  {
    H.FlatRecords(Proxy.FieldsOf(env, r.headers));
  }

  lemma Delivered(g: Gateway, keys: seq<ServerKey>, client: Client, r: Request, rawKey: Bytes, iv: Bytes)
    requires Base64(g.codec) && Reads(g.codec, PayloadOf(r)) && Trusts(keys, client)
    requires Length(rawKey) == AES_KEY_BYTES && Length(iv) == GCM_IV_BYTES
    ensures Decrypted(g.codec, g.env, keys, Send(g.codec, client, r, rawKey, iv))
         == if Takes(g.env, r) then Ok(Opened(Intended(g.env, r), rawKey)) else Err(BadPayload)
  {
    var dto := Send(g.codec, client, r, rawKey, iv);
    RequestArrives(g.env, r);
    CandidatesAre(keys, dto);
    OpenedByOwner(Candidates(keys, dto), g.codec.fromB64(dto.encryptedKey));
    var k :| k in keys && k.owner == client.serverKey
      && (client.keyId.None? || client.keyId.value == "" || client.keyId.value == k.keyId);
    assert k in Candidates(keys, dto);
  }

  lemma FieldsOfResult(d: Delivery, before: seq<(string, Json)>)
    requires d.Answered? && forall i | 0 <= i < |before| :: before[i].0 == "Encrypted"
    ensures forall name | name in {"StatusCode", "Headers", "Data"} ::
              Get(Obj(before + ResultFields(d)), name) == Get(Obj(ResultFields(d)), name)
    ensures Get(Obj(ResultFields(d)), "StatusCode") == Some(Num(Finite(d.status as real)))
    ensures Get(Obj(ResultFields(d)), "Headers") == Some(d.headers) && Get(Obj(ResultFields(d)), "Data") == d.data
    ensures Get(Obj(ResultFields(d)), "IV").None? && Get(Obj(ResultFields(d)), "Payload").None?
  {
    var two := [("StatusCode", Num(Finite(d.status as real))), ("Headers", d.headers)];
    forall name: string
      ensures Find(ResultFields(d), name) ==
                if name == "StatusCode" then Some(Num(Finite(d.status as real)))
                else if name == "Headers" then Some(d.headers) else if name == "Data" then d.data else None
    {
      FindTwo(two, name);
      FindConcat(two, Maybe("Data", d.data), name);
      FindMaybe("Data", d.data, name);
    }
    forall name | name in {"StatusCode", "Headers", "Data"}
      ensures Find(before + ResultFields(d), name) == Find(ResultFields(d), name)
    {
      FindOther(before, name);
      FindConcat(before, ResultFields(d), name);
    }
  }

  /** A sealed response, opened with the key it was sealed under, shows the result. */
  lemma SealedShown(g: Gateway, client: Client, rawKey: Bytes, d: Delivery, iv: Bytes)
    requires Base64(g.codec) && d.Answered? && g.encryptResponse && Reads(g.codec, Obj(ResultFields(d)))
    ensures Receive(g.codec, client, rawKey, Success(EncryptResponse(g.codec, Obj(ResultFields(d)), rawKey, iv)))
         == Shown(g, client, d.status, d.headers, d.data)
  {
    var json := EncryptResponse(g.codec, Obj(ResultFields(d)), rawKey, iv);
    FindThree(json.fields, "Encrypted");
    FindThree(json.fields, "IV");
    FindThree(json.fields, "Payload");
    ResultShown(Obj(ResultFields(d)), d);
  }

  lemma ResultShown(value: Json, d: Delivery)
    requires d.Answered? && forall name | name in {"StatusCode", "Headers", "Data"} ::
      Get(value, name) == Get(Obj(ResultFields(d)), name)
    ensures ResultOf(value) ==
              if 100 <= d.status <= 599 && d.headers.Obj? && d.data.Some? then
                Ok(Answer(d.status, d.headers, d.data.value))
              else Err(InvalidResponse)
  {
    FieldsOfResult(d, []);
    assert (d.status as real).Floor == d.status;
  }

  lemma PlainShown(g: Gateway, client: Client, rawKey: Bytes, d: Delivery)
    requires d.Answered? && !g.encryptResponse
    ensures Receive(g.codec, client, rawKey, Success(Obj([("Encrypted", Bool(false))] + ResultFields(d))))
         == Shown(g, client, d.status, d.headers, d.data)
  {
    var marker := [("Encrypted", Bool(false))];
    var json := Obj(marker + ResultFields(d));
    FieldsOfResult(d, marker);
    FindConcat(marker, ResultFields(d), "Encrypted");
    FindConcat(marker, ResultFields(d), "IV");
    FindConcat(marker, ResultFields(d), "Payload");
    FindOne(marker, "Encrypted");
    FindOne(marker, "IV");
    FindOne(marker, "Payload");
    ResultShown(json, d);
  }

  /** The exact exchange of a client with the gateway. */
  ghost function Exchange(
      g: Gateway, keys: seq<ServerKey>, seen: Replay.Seen, client: Client, r: Request, rawKey: Bytes, iv: Bytes,
      now: nat,
      upstream: Upstream, responseIv: Bytes)
    : Result<Answer, ClientError>
  {
    var reply := ReplyOf(Handle(g, keys, seen, Send(g.codec, client, r, rawKey, iv), now, upstream, responseIv).1);
    Receive(g.codec, client, rawKey, reply)
  }

  /** If the upstream is asked and answers, and the response is sealed, JSON gives the result back. */
  ghost predicate ResultReads(g: Gateway, p: Proxy.Payload, upstream: Upstream) {
    g.encryptResponse && Proxy.Prepare(g.env, g.proxy, p).Ok? ==>
      var d := upstream(Proxy.Prepare(g.env, g.proxy, p).value);
      d.Answered? ==> Reads(g.codec, Obj(ResultFields(d)))
  }

  lemma RespondShown(g: Gateway, client: Client, p: Proxy.Payload, rawKey: Bytes, upstream: Upstream, iv: Bytes)
    requires Base64(g.codec) && ResultReads(g, p, upstream)
    ensures Receive(g.codec, client, rawKey, ReplyOf(Respond(g, Opened(p, rawKey), upstream, iv)))
         == match Proxy.Prepare(g.env, g.proxy, p)
            case Err(_) => Err(GatewayError(400))
            case Ok(sent) => Seen(g, client, upstream(sent))
  {
    if Proxy.Prepare(g.env, g.proxy, p).Ok? {
      var d := upstream(Proxy.Prepare(g.env, g.proxy, p).value);
      if d.Answered? {
        if g.encryptResponse {
          SealedShown(g, client, rawKey, d, iv);
        } else {
          PlainShown(g, client, rawKey, d);
        }
      }
    }
  }

  /**
   * The round trip: for every request, key list holding the client's key, upstream and response mode, the
   * client sees exactly what handing the request to `forward` directly would have shown.
   */
  lemma RoundTrip(
      g: Gateway, keys: seq<ServerKey>, seen: Replay.Seen, client: Client, r: Request, rawKey: Bytes, iv: Bytes,
      now: nat,
      upstream: Upstream, responseIv: Bytes)
    requires Base64(g.codec) && Trusts(keys, client) && Length(rawKey) == AES_KEY_BYTES && Length(iv) == GCM_IV_BYTES
    requires Reads(g.codec, PayloadOf(r)) && ResultReads(g, Intended(g.env, r), upstream)
    ensures Exchange(g, keys, seen, client, r, rawKey, iv, now, upstream, responseIv) == Direct(g, client, r, upstream)
  {
    Delivered(g, keys, client, r, rawKey, iv);
    if Takes(g.env, r) && !g.replay.required {
      RespondShown(g, client, Intended(g.env, r), rawKey, upstream, responseIv);
      DirectIs(g, client, r, upstream);
    }
  }

  lemma DirectIs(g: Gateway, client: Client, r: Request, upstream: Upstream)
    requires Takes(g.env, r) && !g.replay.required
    ensures Direct(g, client, r, upstream)
         == match Proxy.Prepare(g.env, g.proxy, Intended(g.env, r))
            case Err(_) => Err(GatewayError(400))
            case Ok(sent) => Seen(g, client, upstream(sent))
  {
    forall sent {
      Proxy.SendsIff(g.env, g.proxy, Intended(g.env, r), sent);
    }
  }

  /** The gateway without replay protection. */
  ghost function Unprotected(g: Gateway): Gateway {
    g.(replay := Replay.Settings(false, g.replay.maxSkewMs, g.replay.maxEntries))
  }

  lemma AdmitUnprotected(g: Gateway, keys: seq<ServerKey>, seen: Replay.Seen, dto: Dto, now: nat)
    requires g.replay.required
    ensures var verdict := Replay.Judge(g.replay, g.dateParse, seen, FreshnessOf(g, keys, dto), now).1;
            Admit(g, keys, seen, dto, now).1
              == if Decrypted(g.codec, g.env, keys, dto).Err? || verdict == Replay.Accepted then
                   Admit(Unprotected(g), keys, seen, dto, now).1
                 else Err(Freshness(verdict))
  {
  }

  /**
   * Replay protection only ever takes requests away: one that is judged fresh is answered as it would be without,
   * any other is refused and reaches no upstream, and one that does not decrypt is refused alike.
   */
  lemma FreshIsAnswered(g: Gateway, keys: seq<ServerKey>, seen: Replay.Seen, dto: Dto, now: nat, upstream: Upstream,
                        iv: Bytes)
    requires g.replay.required
    ensures var open := Handle(Unprotected(g), keys, seen, dto, now, upstream, iv).1;
            var verdict := Replay.Judge(g.replay, g.dateParse, seen, FreshnessOf(g, keys, dto), now).1;
            Handle(g, keys, seen, dto, now, upstream, iv).1
              == if Decrypted(g.codec, g.env, keys, dto).Err? || verdict == Replay.Accepted then open
                 else Err(Freshness(verdict))
  {
    AdmitUnprotected(g, keys, seen, dto, now);
  }

  /**
   * The marker of a response follows the gateway's setting alone, and a sealed one is sealed under the key
   * that the request wrapped.
   */
  lemma ModeIsServers(g: Gateway, keys: seq<ServerKey>, seen: Replay.Seen, dto: Dto, now: nat, upstream: Upstream,
                      iv: Bytes)
    requires Base64(g.codec) && Handle(g, keys, seen, dto, now, upstream, iv).1.Ok?
    ensures var json := Handle(g, keys, seen, dto, now, upstream, iv).1.value;
            && Get(json, "Encrypted") == Some(Bool(g.encryptResponse))
            && (g.encryptResponse ==>
                  var wrapped, sealed := g.codec.fromB64(dto.encryptedKey), Get(json, "Payload");
                  wrapped.Oaep? && IsText(sealed) && g.codec.fromB64(sealed.value.s).Gcm?
                  && g.codec.fromB64(sealed.value.s).key == wrapped.content)
  {
    var found := Admit(g, keys, seen, dto, now).1.value;
    DecryptIff(g.codec, g.env, keys, dto, found);
    var json := Handle(g, keys, seen, dto, now, upstream, iv).1.value;
    if g.encryptResponse {
      FindThree(json.fields, "Encrypted");
      FindThree(json.fields, "Payload");
    }
  }

  // ---------------------------------------------------------------- runs: resent requests

  datatype Hit = Hit(dto: Dto, now: nat)

  /** What a request asks of the replay cache; one that does not decrypt asks nothing, like one without a nonce. */
  ghost function FreshnessOf(g: Gateway, keys: seq<ServerKey>, dto: Dto): Replay.Payload {
    match Decrypted(g.codec, g.env, keys, dto)
    case Err(_) => Replay.Payload(None, Replay.NoStamp)
    case Ok(found) => found.payload.freshness
  }

  ghost function CallOf(g: Gateway, keys: seq<ServerKey>, hit: Hit): Replay.Call {
    Replay.Call(FreshnessOf(g, keys, hit.dto), hit.now)
  }

  ghost function Calls(g: Gateway, keys: seq<ServerKey>, hits: seq<Hit>): (calls: seq<Replay.Call>)
    ensures |calls| == |hits|
  {
    seq(|hits|, i requires 0 <= i < |hits| => CallOf(g, keys, hits[i]))
  }

  /** The cache after a run of requests, and which of them got through to `forward`. */
  ghost function Run(g: Gateway, keys: seq<ServerKey>, hits: seq<Hit>): (r: (Replay.Seen, seq<bool>))
    ensures |r.1| == |hits|
  {
    if hits == [] then (JsMaps.EmptyMap(), [])
    else
      var (seen, through) := Run(g, keys, hits[..|hits| - 1]);
      var hit := hits[|hits| - 1];
      var (seen', admitted) := Admit(g, keys, seen, hit.dto, hit.now);
      (seen', through + [admitted.Ok?])
  }

  lemma AdmitIsJudge(g: Gateway, keys: seq<ServerKey>, seen: Replay.Seen, hit: Hit)
    requires g.replay.required
    ensures var (seen', v) := Replay.Judge(g.replay, g.dateParse, seen, FreshnessOf(g, keys, hit.dto), hit.now);
            Admit(g, keys, seen, hit.dto, hit.now).0 == seen'
            && (Admit(g, keys, seen, hit.dto, hit.now).1.Ok? <==> v == Replay.Accepted)
  {
  }

  lemma LastHit(g: Gateway, keys: seq<ServerKey>, hits: seq<Hit>)
    requires g.replay.required && hits != []
    ensures var n := |hits| - 1;
            var (seen, v) := Replay.Judge(g.replay, g.dateParse, Run(g, keys, hits[..n]).0,
              FreshnessOf(g, keys, hits[n].dto), hits[n].now);
            && Run(g, keys, hits).0 == seen && Run(g, keys, hits).1[..n] == Run(g, keys, hits[..n]).1
            && (Run(g, keys, hits).1[n] <==> v == Replay.Accepted)
  {
    var n := |hits| - 1;
    AdmitIsJudge(g, keys, Run(g, keys, hits[..n]).0, hits[n]);
  }

  /** With replay protection on, the gateway's runs are runs of the replay cache. */
  lemma {:induction false} RunIsReplay(g: Gateway, keys: seq<ServerKey>, hits: seq<Hit>)
    requires g.replay.required
    ensures var h := Replay.Run(g.replay, g.dateParse, Calls(g, keys, hits));
            Run(g, keys, hits).0 == h.seen
            && forall i | 0 <= i < |hits| :: Run(g, keys, hits).1[i] <==> h.verdicts[i] == Replay.Accepted
  {
    if hits != [] {
      var n, calls := |hits| - 1, Calls(g, keys, hits);
      RunIsReplay(g, keys, hits[..n]);
      assert calls[..n] == Calls(g, keys, hits[..n]);
      Replay.LastVerdict(g.replay, g.dateParse, calls);
      LastHit(g, keys, hits);
      var through, v := Run(g, keys, hits).1, Replay.Run(g.replay, g.dateParse, calls).verdicts;
      forall i | 0 <= i < |hits| ensures through[i] <==> v[i] == Replay.Accepted {
        assert i < n ==> through[i] == through[..n][i] && v[i] == v[..n][i];
      }
    }
  }

  /** The requests with one nonce and one timestamp that got through. */
  ghost function ThroughWith(g: Gateway, keys: seq<ServerKey>, hits: seq<Hit>, nonce: string, stamp: Replay.Stamp)
    : set<nat>
  {
    set i: nat | i < |hits| && Run(g, keys, hits).1[i]
      && FreshnessOf(g, keys, hits[i].dto) == Replay.Payload(Some(nonce), stamp)
  }

  /**
   * With replay protection on, requests carrying one nonce and one timestamp, however they are sealed and
   * under whichever accepted key, get through at most three times in a run that is quiet for the nonce.
   */
  lemma ForwardedAtMostThree(g: Gateway, keys: seq<ServerKey>, hits: seq<Hit>, nonce: string, stamp: Replay.Stamp)
    requires g.replay.required
    requires Replay.Timely(Calls(g, keys, hits)) && Replay.QuietFor(g.replay, g.dateParse, Calls(g, keys, hits), nonce)
    ensures |ThroughWith(g, keys, hits, nonce, stamp)| <= 3
  {
    var calls := Calls(g, keys, hits);
    RunIsReplay(g, keys, hits);
    Replay.AtMostThree(g.replay, g.dateParse, calls, nonce, stamp);
    var all := Replay.AcceptancesOf(g.replay, g.dateParse, calls, nonce, stamp);
    forall i | i in ThroughWith(g, keys, hits, nonce, stamp) ensures i in all {
      assert calls[i] == CallOf(g, keys, hits[i]);
    }
    SubsetSize(ThroughWith(g, keys, hits, nonce, stamp), all);
  }

  /**
   * A request that got through is refused when sent again within maxSkewMs, while little else is accepted in
   * between.
   */
  lemma ResentIsRefused(g: Gateway, keys: seq<ServerKey>, hits: seq<Hit>, i: nat, j: nat)
    requires g.replay.required && i < j < |hits| && hits[j].dto == hits[i].dto && Run(g, keys, hits).1[i]
    requires Replay.Timely(Calls(g, keys, hits)) && hits[j].now < hits[i].now + g.replay.maxSkewMs
    requires Replay.Quiet(g.replay, g.dateParse, Calls(g, keys, hits), i, j)
    ensures !Run(g, keys, hits).1[j]
  {
    var calls := Calls(g, keys, hits);
    RunIsReplay(g, keys, hits);
    assert calls[i] == CallOf(g, keys, hits[i]) && calls[j] == CallOf(g, keys, hits[j]);
    Replay.Retention(g.replay, g.dateParse, calls, i, j);
  }
}
