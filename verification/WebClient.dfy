/** clients/web/gatewayClient.js: sealing a request for the gateway, and reading its reply. */
module WebClient {
  import opened Prelude
  import opened Json
  import opened Envelope
  import Attacker

  datatype Client = Client(serverKey: nat, keyId: Option<string>, requireEncrypted: bool)

  /** What the application asks for; a method of None is the default. */
  datatype Request = Request(
    verb: Option<string>, accessPoint: string, headers: seq<(string, Json)>, body: Option<Json>,
    parameter: Option<Json>)

  function KeyValue(name: string, value: Json): Json { Obj([("Key", Str(name)), ("Value", value)]) }

  function Records(headers: seq<(string, Json)>): Json {
    Arr(seq(|headers|, i requires 0 <= i < |headers| => KeyValue(headers[i].0, headers[i].1)))
  }

  function PayloadOf(r: Request): Json {
    Obj([("Method", Str(if r.verb.Some? then r.verb.value else "GET")), ("AccessPoint", Str(r.accessPoint)),
         ("Header", Records(r.headers))] + Maybe("Body", r.body) + Maybe("Parameter", r.parameter))
  }

  /** The envelope of a request under a fresh AES key and IV. */
  function Send(c: Codec, client: Client, r: Request, rawKey: Bytes, iv: Bytes): Dto {
    Dto(client.keyId, c.toB64(Oaep(client.serverKey, rawKey)), c.toB64(iv),
      c.toB64(Gcm(rawKey, iv, c.stringify(PayloadOf(r)))))
  }

  /** What arrives: the JSON of a successful reply, or a failure status. */
  datatype Reply = Success(json: Json) | Failure(status: int)

  datatype Answer = Answer(status: int, headers: Json, data: Json)

  datatype ClientError = GatewayError(status: int) | EncryptedRequired | InvalidResponse | Undecryptable | BadJson

  predicate IsInteger(j: Option<Json>) {
    j.Some? && j.value.Num? && j.value.n.Finite? && j.value.n.value.Floor as real == j.value.n.value
  }

  /** The normalised result of a response value. */
  function ResultOf(value: Json): Result<Answer, ClientError> {
    var status, headers, data := Get(value, "StatusCode"), Get(value, "Headers"), Get(value, "Data");
    if !IsInteger(status) then Err(InvalidResponse)
    else if status.value.n.value.Floor < 100 || status.value.n.value.Floor > 599 then Err(InvalidResponse)
    else if headers.None? || !headers.value.Obj? || data.None? then Err(InvalidResponse)
    else Ok(Answer(status.value.n.value.Floor, headers.value, data.value))
  }

  predicate IsText(j: Option<Json>) { j.Some? && j.value.Str? }

  function ReceiveSealed(c: Codec, rawKey: Bytes, json: Json): Result<Answer, ClientError> {
    var encrypted, iv, payload := Get(json, "Encrypted"), Get(json, "IV"), Get(json, "Payload");
    if (encrypted != Some(Bool(true)) && encrypted != None) || !IsText(iv) || !IsText(payload) then Err(InvalidResponse)
    else
      match Open(c.fromB64(payload.value.s), rawKey, c.fromB64(iv.value.s))
      case None => Err(Undecryptable)
      case Some(text) =>
        match c.parse(text)
        case None => Err(BadJson)
        case Some(value) => ResultOf(value)
  }

  function Receive(c: Codec, client: Client, rawKey: Bytes, reply: Reply): Result<Answer, ClientError> {
    match reply
    case Failure(status) => Err(GatewayError(status))
    case Success(json) =>
      if Get(json, "Encrypted") == Some(Bool(false)) then
        if client.requireEncrypted then Err(EncryptedRequired)
        else if Get(json, "IV").Some? || Get(json, "Payload").Some? then Err(InvalidResponse)
        else ResultOf(json)
      else ReceiveSealed(c, rawKey, json)
  }

  // ---------------------------------------------------------------- what the client accepts

  lemma PayloadField(r: Request, name: string)
    ensures Get(PayloadOf(r), name) ==
              if name == "Method" then Some(Str(if r.verb.Some? then r.verb.value else "GET"))
              else if name == "AccessPoint" then Some(Str(r.accessPoint))
              else if name == "Header" then Some(Records(r.headers))
              else if name == "Body" then r.body
              else if name == "Parameter" then r.parameter
              else None
  {
    var three := [("Method", Str(if r.verb.Some? then r.verb.value else "GET")), ("AccessPoint", Str(r.accessPoint)),
                  ("Header", Records(r.headers))];
    FindConcat(three + Maybe("Body", r.body), Maybe("Parameter", r.parameter), name);
    FindConcat(three, Maybe("Body", r.body), name);
    FindThree(three, name);
    FindMaybe("Body", r.body, name);
    FindMaybe("Parameter", r.parameter, name);
  }

  /** A request, read as a reply, is no result: it carries no status. */
  lemma RequestIsNoResult(r: Request)
    ensures ResultOf(PayloadOf(r)) == Err(InvalidResponse)
  {
    PayloadField(r, "StatusCode");
  }

  /** A response sealed by the gateway: the IV it drew and what it sealed. */
  datatype Sealing = Sealing(iv: Bytes, json: Json)

  /**
   * What an attacker has seen: the request, every response the gateway sealed under its key, one for each time
   * the request was sent again, and anything else.
   */
  ghost function Wire(c: Codec, client: Client, r: Request, rawKey: Bytes, iv: Bytes, replies: set<Sealing>,
                      others: set<Bytes>): set<Bytes>
  {
    {Oaep(client.serverKey, rawKey), iv, Gcm(rawKey, iv, c.stringify(PayloadOf(r)))}
    + (set x | x in replies :: x.iv) + (set x | x in replies :: Gcm(rawKey, x.iv, c.stringify(x.json))) + others
  }

  /** Whoever sends the reply made its payload from what was on the wire. */
  ghost predicate MadeFromWire(c: Codec, reply: Reply, wire: set<Bytes>, owned: set<nat>, rawKey: Bytes) {
    reply.Success? && IsText(Get(reply.json, "Payload")) ==>
      Attacker.CanMake(c.fromB64(Get(reply.json, "Payload").value.s), wire, owned, rawKey)
  }

  predicate IsIv(iv: Bytes) { iv.Raw? && Length(iv) == GCM_IV_BYTES }

  /**
   * A client that requires encryption accepts nothing but results the gateway sealed for this request from whoever
   * controls the reply: an attacker with any keys but the gateway's, all that was on the wire, the responses to as
   * many copies of the request as it likes to send, and anything else that does not contain this request's key. Not
   * even the request itself, sent back, is accepted.
   */
  lemma OnlyGenuine(c: Codec, client: Client, r: Request, rawKey: Bytes, iv: Bytes, replies: set<Sealing>,
                    others: set<Bytes>, owned: set<nat>, reply: Reply, answer: Answer)
    requires Reads(c, PayloadOf(r)) && client.requireEncrypted && client.serverKey !in owned
    requires rawKey.Raw? && Length(rawKey) == AES_KEY_BYTES && IsIv(iv)
    requires forall x | x in replies :: IsIv(x.iv) && Reads(c, x.json)
    requires forall b | b in others :: !Attacker.Mentions(b, rawKey)
    requires MadeFromWire(c, reply, Wire(c, client, r, rawKey, iv, replies, others), owned, rawKey)
    requires Receive(c, client, rawKey, reply) == Ok(answer)
    ensures exists x | x in replies :: ResultOf(x.json) == Ok(answer)
  {
    var payload := c.fromB64(Get(reply.json, "Payload").value.s);
    WireIsSafe(c, client, r, rawKey, iv, replies, others, owned);
    Attacker.NothingForged(payload, Wire(c, client, r, rawKey, iv, replies, others), owned, rawKey);
    if payload.text == c.stringify(PayloadOf(r)) {
      RequestIsNoResult(r);
      assert false;
    }
    var x := SealedOnWire(c, client, r, rawKey, iv, replies, others, payload);
    assert ResultOf(x.json) == Ok(answer);
  }

  lemma SealedOnWire(c: Codec, client: Client, r: Request, rawKey: Bytes, iv: Bytes, replies: set<Sealing>,
                     others: set<Bytes>, b: Bytes) returns (x: Sealing)
    requires iv.Raw? && forall x | x in replies :: IsIv(x.iv)
    requires forall b | b in others :: !Attacker.Mentions(b, rawKey)
    requires b in Wire(c, client, r, rawKey, iv, replies, others) && b.Gcm? && b.key == rawKey
    requires b.text != c.stringify(PayloadOf(r))
    ensures x in replies && b.text == c.stringify(x.json)
  {
    Attacker.SealedMentions(b, rawKey);
    x :| x in replies && b == Gcm(rawKey, x.iv, c.stringify(x.json));
  }

  lemma WireIsSafe(c: Codec, client: Client, r: Request, rawKey: Bytes, iv: Bytes, replies: set<Sealing>,
                   others: set<Bytes>, owned: set<nat>)
    requires client.serverKey !in owned && rawKey.Raw? && Length(rawKey) == AES_KEY_BYTES && IsIv(iv)
    requires forall x | x in replies :: IsIv(x.iv)
    requires forall b | b in others :: !Attacker.Mentions(b, rawKey)
    ensures var wire := Wire(c, client, r, rawKey, iv, replies, others);
            forall b | b in wire :: Attacker.Safe(b, wire, owned, rawKey)
  {
    var wire := Wire(c, client, r, rawKey, iv, replies, others);
    forall b | b in others ensures Attacker.Safe(b, wire, owned, rawKey) {
      Attacker.UnmentionedIsSafe(b, wire, owned, rawKey);
    }
  }

  // ---------------------------------------------------------------- base64 in chunks

  const CHUNK := 0x8000

  /** The characters of a byte string, one for each byte. */
  function Latin1(bytes: seq<nat>): (s: string)
    requires forall i | 0 <= i < |bytes| :: bytes[i] < 256
    ensures |s| == |bytes| && forall i | 0 <= i < |s| :: s[i] as int == bytes[i]
  {
    seq(|bytes|, i requires 0 <= i < |bytes| => bytes[i] as char)
  }

  lemma Latin1Longer(bytes: seq<nat>, i: nat, end: nat)
    requires i <= end <= |bytes| && forall k | 0 <= k < |bytes| :: bytes[k] < 256
    ensures Latin1(bytes[..i]) + Latin1(bytes[i..end]) == Latin1(bytes[..end])
  {
  }

  /** However many chunks it takes, every byte becomes its character, in order. */
  method ToB64(bytes: seq<nat>, btoa: string -> string) returns (r: string)
    requires forall i | 0 <= i < |bytes| :: bytes[i] < 256
    ensures r == btoa(Latin1(bytes))
  {
    var bin := "";
    var i := 0;
    while i < |bytes|
      invariant 0 <= i && bin == Latin1(bytes[..if i < |bytes| then i else |bytes|])
    {
      var end := if i + CHUNK < |bytes| then i + CHUNK else |bytes|;
      Latin1Longer(bytes, i, end);
      bin := bin + Latin1(bytes[i..end]);
      i := i + CHUNK;
    }
    assert bytes[..|bytes|] == bytes;
    r := btoa(bin);
  }
}
