/**
 * The attestation classes as they run: the challenge store and the device registry over one key/value
 * store, and the server that advances each request from one await to the next. Each method makes the
 * corresponding step of `Protocol.Next`.
 */
module Server {
  import opened Prelude
  import opened Attestation
  import opened Protocol
  import JsMaps
  import K = KvStore

  class ChallengeStore {
    const kv: K.MemoryKvStore<Stored>

    constructor (kv: K.MemoryKvStore<Stored>)
      ensures this.kv == kv
    {
      this.kv := kv;
    }

    /** The random id and nonce are parameters. */
    method Issue(id: string, nonce: Bytes, purpose: string, now: nat)
      requires kv.Valid()
      modifies kv
      ensures kv.Valid()
      ensures kv.entries == K.Apply(old(kv.entries), kv.maxEntries, now,
                K.Put(ChallengeKey(id), ChallengeRecord(nonce, purpose), Some(CHALLENGE_TTL_MS))).0
    {
      kv.Set(ChallengeKey(id), ChallengeRecord(nonce, purpose), Some(CHALLENGE_TTL_MS), now);
    }

    method Consume(id: string, purpose: string, now: nat) returns (c: Consumption)
      requires kv.Valid()
      modifies kv
      ensures kv.Valid()
      ensures var (table, out) := K.Apply(old(kv.entries), kv.maxEntries, now, K.Take(ChallengeKey(id)));
              kv.entries == table && out.Value? && c == Opened(out.value, purpose)
    {
      var raw := kv.GetDelete(ChallengeKey(id), now);
      match raw
      case None => c := Null;
      case Some(ChallengeRecord(nonce, stored)) => c := if stored == purpose then Handed(nonce) else Null;
      case Some(DeviceRecord(_)) => c := Thrown;
      case Some(Unreadable) => c := Null;
    }
  }

  class DeviceRegistry {
    const kv: K.MemoryKvStore<Stored>

    constructor (kv: K.MemoryKvStore<Stored>)
      ensures this.kv == kv
    {
      this.kv := kv;
    }

    method Get(deviceId: string, now: nat) returns (device: Option<Device>)
      requires kv.Valid()
      modifies kv
      ensures kv.Valid()
      ensures var (table, out) := K.Apply(old(kv.entries), kv.maxEntries, now, K.Get(DeviceKey(deviceId)));
              kv.entries == table && out.Value? && device == Found(out.value)
    {
      var raw := kv.Get(DeviceKey(deviceId), now);
      device := Found(raw);
    }

    method Enrol(deviceId: string, device: Device, now: nat) returns (enrolled: bool)
      requires kv.Valid()
      modifies kv
      ensures kv.Valid()
      ensures (kv.entries, K.Flag(enrolled))
           == K.Apply(old(kv.entries), kv.maxEntries, now,
             K.PutIfAbsent(DeviceKey(deviceId), DeviceRecord(device), None))
    {
      enrolled := kv.SetIfAbsent(DeviceKey(deviceId), DeviceRecord(device), None, now);
    }

    method Has(deviceId: string, now: nat) returns (present: bool)
      requires kv.Valid()
      modifies kv
      ensures kv.Valid()
      ensures var (table, out) := K.Apply(old(kv.entries), kv.maxEntries, now, K.Get(DeviceKey(deviceId)));
              kv.entries == table && out.Value? && present == out.value.Some?
    {
      var raw := kv.Get(DeviceKey(deviceId), now);
      present := raw.Some?;
    }

    method Delete(deviceId: string, now: nat) returns (removed: bool)
      requires kv.Valid()
      modifies kv
      ensures kv.Valid()
      ensures (kv.entries, K.Flag(removed))
        == K.Apply(old(kv.entries), kv.maxEntries, now, K.Remove(DeviceKey(deviceId)))
    {
      removed := kv.Delete(DeviceKey(deviceId), now);
    }
  }

  /** The controller and the signature guard, with the requests that wait at an await. */
  class AttestationServer {
    const env: Env
    const kv: K.MemoryKvStore<Stored>
    const challenges: ChallengeStore
    const devices: DeviceRegistry
    var inFlight: map<nat, Phase>

    ghost predicate Valid()
      reads this, kv
    {
      challenges.kv == kv && devices.kv == kv && kv.Valid() && kv.maxEntries == env.maxEntries
    }

    ghost function Now(): World
      reads this, kv
    {
      World(kv.entries, inFlight)
    }

    constructor (env: Env)
      ensures Valid() && Now() == START.world && this.env == env && fresh(kv)
    {
      this.env := env;
      var store := new K.MemoryKvStore(env.maxEntries);
      kv := store;
      var c := new ChallengeStore(store);
      var d := new DeviceRegistry(store);
      challenges, devices := c, d;
      inFlight := map[];
    }

    method Challenge(id: string, nonce: Bytes, purpose: Option<string>, now: nat)
      requires Valid()
      modifies this, kv
      ensures Valid() && Now() == Next(env, old(Now()), Issue(now, id, nonce, purpose))
    {
      challenges.Issue(id, nonce, PurposeOr(purpose), now);
    }

    method DeleteDevice(deviceId: string, now: nat)
      requires Valid()
      modifies this, kv
      ensures Valid() && Now() == Next(env, old(Now()), Protocol.Delete(now, deviceId))
    {
      var removed := devices.Delete(deviceId, now);
    }

    /** A request runs up to the await on `consume`, or is answered at once. */
    method Arrive(r: nat, req: Request, now: nat)
      requires Valid()
      modifies this, kv
      ensures Valid() && Now() == Next(env, old(Now()), Protocol.Arrive(now, r, req))
    {
      var refusal := Refusal(env, req);
      if refusal.Some? {
        inFlight := inFlight[r := Done(req, refusal.value)];
        return;
      }
      var c := challenges.Consume(req.Challenge(), req.Purpose(), now);
      inFlight := inFlight[r := match c
        case Null => Consumed(req, None)
        case Handed(nonce) => Consumed(req, Some(nonce))
        case Thrown => Done(req, Crashed)];
    }

    /** A waiting request runs on to its next await or to its answer. */
    method Resume(r: nat, now: nat)
      requires Valid() && r in inFlight
      modifies this, kv
      ensures Valid() && Now() == Next(env, old(Now()), Protocol.Resume(now, r))
    {
      var phase := inFlight[r];
      match phase {
      case Consumed(req, nonce) =>
        if req.Enroll? {
          phase := AfterConsumeEnroll(req, nonce, now);
        } else if req.Guarded? && nonce.None? {
          phase := Done(req, Judge(env, Context(false, Some(ChallengeInvalid))));
        } else {
          var device := devices.Get(req.DeviceId(), now);
          phase := Looked(req, nonce, device);
        }
      case Enrolling(req, attested, stored) =>
        phase := Done(req, if stored then Enrolled(attested.level) else AlreadyEnrolled);
      case Looked(req, nonce, device) =>
        var signed := nonce.Some? && device.Some? && env.signed(device.value.publicKey, nonce.value, req.Signature());
        if req.Guarded? {
          var reason := if nonce.None? || device.None? then NotEnrolled else SignatureInvalid;
          phase := Done(req, Judge(env, Context(signed, if signed then None else Some(reason))));
        } else if nonce.None? || device.None? {
          phase := Done(req, UnknownChallengeOrDevice);
        } else {
          phase := Done(req, if signed then Verified else InvalidSignature);
        }
      case Done(_, _) =>
      }
      inFlight := inFlight[r := phase];
    }

    method AfterConsumeEnroll(req: Request, nonce: Option<Bytes>, now: nat) returns (phase: Phase)
      requires Valid() && req.Enroll?
      modifies kv
      ensures Valid()
      ensures var op := PhaseCall(env, now, Consumed(req, nonce));
              if op.None? then
                kv.entries == old(kv.entries) && phase == NextPhase(env, now, Consumed(req, nonce), K.Flag(false))
              else
                var (table, out) := K.Apply(old(kv.entries), env.maxEntries, now, op.value);
                kv.entries == table && phase == NextPhase(env, now, Consumed(req, nonce), out)
    {
      if nonce.None? {
        return Done(req, UnknownChallenge);
      }
      match Attestation.Verify(env.policy, env.verifies, req.chain, nonce.value, now)
      case Err(code) => phase := Done(req, ChainRejected(code));
      case Ok(a) =>
        var stored := devices.Enrol(req.deviceId, Device(a.publicKey, a.level, now), now);
        phase := Enrolling(req, a, stored);
    }
  }
}
