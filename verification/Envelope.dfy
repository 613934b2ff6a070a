/**
 * src/encryption/encryption.service.ts: opening a request sealed for one of several accepted keys, and
 * sealing the response under the client's own key. RSA-OAEP and AES-GCM are symbolic.
 */
module Envelope {
  import opened Prelude
  import opened Json
  import Proxy

  /** Byte strings: plain ones, a text wrapped for the owner of a private key, a text sealed under a key and IV. */
  datatype Bytes =
    | Raw(data: seq<nat>)
    | Oaep(owner: nat, content: Bytes)
    | Gcm(key: Bytes, iv: Bytes, text: string)

  const AES_KEY_BYTES := 32
  const GCM_IV_BYTES := 12
  const GCM_TAG_BYTES := 16

  function Length(b: Bytes): nat {
    match b
    case Raw(data) => |data|
    case Oaep(_, _) => 256
    case Gcm(_, _, text) => |text| + GCM_TAG_BYTES
  }

  /** Only the owner opens a wrapped text. */
  function DecryptOaep(b: Bytes, owner: nat): Option<Bytes> {
    if b.Oaep? && b.owner == owner then Some(b.content) else None
  }

  /** Only the key and IV of the seal open it. */
  function Open(b: Bytes, key: Bytes, iv: Bytes): Option<string> {
    if b.Gcm? && b.key == key && b.iv == iv then Some(b.text) else None
  }

  /** JSON texts and base64. */
  datatype Codec = Codec(
    stringify: Json -> string, parse: string -> Option<Json>, toB64: Bytes -> string, fromB64: string -> Bytes)

  /** Base64 gives back every byte string. */
  ghost predicate Base64(c: Codec) { forall b :: c.fromB64(c.toB64(b)) == b }

  /** JSON gives back this value, as it does when names are distinct and numbers representable. */
  ghost predicate Reads(c: Codec, j: Json) { c.parse(c.stringify(j)) == Some(j) }

  datatype Dto = Dto(keyId: Option<string>, encryptedKey: string, iv: string, payload: string)

  datatype ServerKey = ServerKey(keyId: string, owner: nat)

  datatype DecryptError = UnknownKeyId | WrongKey | BadLengths | NotAuthentic | NotJson | BadPayload

  datatype Opened = Opened(payload: Proxy.Payload, aesKey: Bytes)

  // ---------------------------------------------------------------- the specification

  /** The request names the key, or names none. */
  predicate Named(dto: Dto, key: ServerKey) { dto.keyId.None? || dto.keyId.value == "" || key.keyId == dto.keyId.value }

  function Candidates(keys: seq<ServerKey>, dto: Dto): seq<ServerKey> {
    if keys == [] then []
    else (if Named(dto, keys[0]) then [keys[0]] else []) + Candidates(keys[1..], dto)
  }

  function FirstOpened(candidates: seq<ServerKey>, wrapped: Bytes): Option<Bytes> {
    if candidates == [] then None
    else if DecryptOaep(wrapped, candidates[0].owner).Some? then DecryptOaep(wrapped, candidates[0].owner)
    else FirstOpened(candidates[1..], wrapped)
  }

  /** Opening the payload, once the AES key is known. */
  function OpenPayload(c: Codec, env: Proxy.Env, aesKey: Bytes, iv: Bytes, sealed: Bytes)
    : Result<Opened, DecryptError>
  {
    if Length(aesKey) != AES_KEY_BYTES || Length(iv) != GCM_IV_BYTES || Length(sealed) < GCM_TAG_BYTES then
      Err(BadLengths)
    else
      match Open(sealed, aesKey, iv)
      case None => Err(NotAuthentic)
      case Some(text) =>
        match c.parse(text)
        case None => Err(NotJson)
        case Some(j) =>
          match Proxy.ParsePayload(env, j)
          case None => Err(BadPayload)
          case Some(payload) => Ok(Opened(payload, aesKey))
  }

  function Decrypted(c: Codec, env: Proxy.Env, keys: seq<ServerKey>, dto: Dto): Result<Opened, DecryptError> {
    var candidates := Candidates(keys, dto);
    if candidates == [] then Err(UnknownKeyId)
    else
      match FirstOpened(candidates, c.fromB64(dto.encryptedKey))
      case None => Err(WrongKey)
      case Some(aesKey) => OpenPayload(c, env, aesKey, c.fromB64(dto.iv), c.fromB64(dto.payload))
  }

  function EncryptResponse(c: Codec, payload: Json, aesKey: Bytes, iv: Bytes): Json {
    Obj([("Encrypted", Bool(true)), ("IV", Str(c.toB64(iv))),
         ("Payload", Str(c.toB64(Gcm(aesKey, iv, c.stringify(payload)))))])
  }

  // ---------------------------------------------------------------- what decrypts, and under which keys

  /** Some accepted key, of the name the request gives if it gives one, owns the wrapped AES key. */
  ghost predicate Owned(keys: seq<ServerKey>, dto: Dto, wrapped: Bytes) {
    wrapped.Oaep? && exists k | k in keys :: Named(dto, k) && k.owner == wrapped.owner
  }

  lemma {:induction false} CandidatesAre(keys: seq<ServerKey>, dto: Dto)
    ensures forall k :: k in Candidates(keys, dto) <==> k in keys && Named(dto, k)
  {
    if keys != [] {
      CandidatesAre(keys[1..], dto);
      assert forall k :: k in keys <==> k == keys[0] || k in keys[1..];
    }
  }

  lemma {:induction false} OpenedByOwner(candidates: seq<ServerKey>, wrapped: Bytes)
    ensures FirstOpened(candidates, wrapped)
         == if wrapped.Oaep? && exists k :: k in candidates && k.owner == wrapped.owner then Some(wrapped.content)
            else None
  {
    if candidates != [] {
      OpenedByOwner(candidates[1..], wrapped);
      assert forall k :: k in candidates <==> k == candidates[0] || k in candidates[1..];
    }
  }

  /** The contents of a request: what its AES key, IV and payload hold when they have the right lengths and form. */
  ghost predicate Contains(c: Codec, env: Proxy.Env, dto: Dto, found: Opened) {
    var wrapped, sealed := c.fromB64(dto.encryptedKey), c.fromB64(dto.payload);
    && wrapped.Oaep? && wrapped.content == found.aesKey && Length(found.aesKey) == AES_KEY_BYTES
    && Length(c.fromB64(dto.iv)) == GCM_IV_BYTES
    && sealed.Gcm? && sealed.key == found.aesKey && sealed.iv == c.fromB64(dto.iv)
    && c.parse(sealed.text).Some? && Proxy.ParsePayload(env, c.parse(sealed.text).value) == Some(found.payload)
  }

  /** A request decrypts exactly when an accepted key of the given name owns it, and then to what it contains. */
  lemma DecryptIff(c: Codec, env: Proxy.Env, keys: seq<ServerKey>, dto: Dto, found: Opened)
    ensures Decrypted(c, env, keys, dto) == Ok(found) <==>
              Owned(keys, dto, c.fromB64(dto.encryptedKey)) && Contains(c, env, dto, found)
  {
    CandidatesAre(keys, dto);
    OpenedByOwner(Candidates(keys, dto), c.fromB64(dto.encryptedKey));
  }

  /** Which failure: first the name, then the key, and only then what is inside. */
  lemma DecryptFails(c: Codec, env: Proxy.Env, keys: seq<ServerKey>, dto: Dto)
    ensures Decrypted(c, env, keys, dto) == Err(UnknownKeyId) <==> forall k | k in keys :: !Named(dto, k)
    ensures Decrypted(c, env, keys, dto) == Err(WrongKey) <==>
              (exists k | k in keys :: Named(dto, k)) && !Owned(keys, dto, c.fromB64(dto.encryptedKey))
  {
    CandidatesAre(keys, dto);
    OpenedByOwner(Candidates(keys, dto), c.fromB64(dto.encryptedKey));
    if Candidates(keys, dto) != [] {
      assert Candidates(keys, dto)[0] in Candidates(keys, dto);
    }
  }

  /** Adding keys anywhere, in any order and number, never changes how a request decrypts that decrypted before. */
  lemma RotationKeeps(c: Codec, env: Proxy.Env, keys: seq<ServerKey>, keys': seq<ServerKey>, dto: Dto)
    requires forall k | k in keys :: k in keys'
    requires Decrypted(c, env, keys, dto).Ok?
    ensures Decrypted(c, env, keys', dto) == Decrypted(c, env, keys, dto)
  {
    var found := Decrypted(c, env, keys, dto).value;
    DecryptIff(c, env, keys, dto, found);
    DecryptIff(c, env, keys', dto, found);
  }

  /** Removing the keys that own a request makes it undecryptable. */
  lemma RetiredKeyFails(c: Codec, env: Proxy.Env, keys: seq<ServerKey>, dto: Dto)
    requires var wrapped := c.fromB64(dto.encryptedKey);
             wrapped.Oaep? ==> forall k | k in keys :: k.owner != wrapped.owner
    ensures Decrypted(c, env, keys, dto) in {Err(UnknownKeyId), Err(WrongKey)}
  {
    DecryptFails(c, env, keys, dto);
  }

  // ---------------------------------------------------------------- the service

  lemma FirstOpenedFrom(candidates: seq<ServerKey>, i: nat, wrapped: Bytes)
    requires i < |candidates|
    ensures FirstOpened(candidates[i..], wrapped)
         == if DecryptOaep(wrapped, candidates[i].owner).Some? then DecryptOaep(wrapped, candidates[i].owner)
            else FirstOpened(candidates[i + 1..], wrapped)
  {
    assert candidates[i..][1..] == candidates[i + 1..];
  }

  /** Wrapped for a loaded key, and naming no key or that one. */
  ghost predicate SealedFor(loaded: seq<nat>, keyIdOf: nat -> string, dto: Dto, wrapped: Bytes) {
    && wrapped.Oaep? && wrapped.owner in loaded
    && (dto.keyId.None? || dto.keyId.value == "" || dto.keyId.value == keyIdOf(wrapped.owner))
  }

  lemma OwnedByLoaded(keys: seq<ServerKey>, loaded: seq<nat>, keyIdOf: nat -> string, dto: Dto, wrapped: Bytes)
    requires |keys| == |loaded| && forall i | 0 <= i < |loaded| :: keys[i] == ServerKey(keyIdOf(loaded[i]), loaded[i])
    ensures Owned(keys, dto, wrapped) <==> SealedFor(loaded, keyIdOf, dto, wrapped)
  {
    if SealedFor(loaded, keyIdOf, dto, wrapped) {
      var i :| 0 <= i < |loaded| && loaded[i] == wrapped.owner;
      assert keys[i] in keys;
    }
  }

  class EncryptionService {
    const codec: Codec
    const env: Proxy.Env
    var keys: seq<ServerKey>

    constructor (codec: Codec, env: Proxy.Env)
      ensures this.codec == codec && this.env == env && keys == []
    {
      this.codec, this.env := codec, env;
      keys := [];
    }

    /**
     * Describes the loaded private keys, primary first. From then on exactly the requests sealed for one of
     * them decrypt, if they name no key or name that one.
     */
    method OnModuleInit(loaded: seq<nat>, keyIdOf: nat -> string)
      modifies this
      ensures |keys| == |loaded| && forall i | 0 <= i < |loaded| :: keys[i] == ServerKey(keyIdOf(loaded[i]), loaded[i])
      ensures forall dto, found :: Decrypted(codec, env, keys, dto) == Ok(found) <==>
                SealedFor(loaded, keyIdOf, dto, codec.fromB64(dto.encryptedKey)) && Contains(codec, env, dto, found)
    {
      keys := seq(|loaded|, i requires 0 <= i < |loaded| => ServerKey(keyIdOf(loaded[i]), loaded[i]));
      forall dto, found
        ensures Decrypted(codec, env, keys, dto) == Ok(found) <==>
                SealedFor(loaded, keyIdOf, dto, codec.fromB64(dto.encryptedKey)) && Contains(codec, env, dto, found)
      {
        DecryptIff(codec, env, keys, dto, found);
        OwnedByLoaded(keys, loaded, keyIdOf, dto, codec.fromB64(dto.encryptedKey));
      }
    }

    /** The payload and the AES key, which is reused for the response. */
    method Decrypt(dto: Dto) returns (r: Result<Opened, DecryptError>)
      ensures r == Decrypted(codec, env, keys, dto)
    {
      var candidates := Candidates(keys, dto);
      if |candidates| == 0 {
        return Err(UnknownKeyId);
      }
      var ciphertext := codec.fromB64(dto.encryptedKey);
      var aesKey: Option<Bytes> := None;
      var i := 0;
      assert candidates[0..] == candidates;
      while i < |candidates|
        invariant 0 <= i <= |candidates| && aesKey.None?
        invariant FirstOpened(candidates, ciphertext) == FirstOpened(candidates[i..], ciphertext)
      {
        FirstOpenedFrom(candidates, i, ciphertext);
        aesKey := DecryptOaep(ciphertext, candidates[i].owner);
        if aesKey.Some? {
          break;
        }
        i := i + 1;
      }
      if aesKey.None? {
        return Err(WrongKey);
      }
      var iv, sealed := codec.fromB64(dto.iv), codec.fromB64(dto.payload);
      if Length(aesKey.value) != AES_KEY_BYTES || Length(iv) != GCM_IV_BYTES || Length(sealed) < GCM_TAG_BYTES {
        return Err(BadLengths);
      }
      var text := Open(sealed, aesKey.value, iv);
      if text.None? {
        return Err(NotAuthentic);
      }
      var json := codec.parse(text.value);
      if json.None? {
        return Err(NotJson);
      }
      var payload := Proxy.ParsePayload(env, json.value);
      if payload.None? {
        return Err(BadPayload);
      }
      return Ok(Opened(payload.value, aesKey.value));
    }
  }
}
