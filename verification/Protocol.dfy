/**
 * The attestation protocol over the shared store: challenges, enrolment, signature verification and the
 * signature guard. Every request is a program counter that advances one await at a time; between two
 * awaits it makes at most one call to the store, and requests interleave freely.
 */
module Protocol {
  import opened Prelude
  import opened Attestation
  import opened Recency
  import K = KvStore
  import JsMaps

  const CHALLENGE_TTL_MS: nat := 60000

  datatype Device = Device(publicKey: Key, level: int, enrolledAt: nat)

  /** The two kinds of value in the store, and a text that reads as neither. */
  datatype Stored = ChallengeRecord(nonce: Bytes, purpose: string) | DeviceRecord(device: Device) | Unreadable

  function ChallengeKey(id: string): string { "attestation:challenge:" + id }

  function DeviceKey(id: string): string { "attestation:device:" + id }

  /** The two namespaces are apart, and a key determines its id. */
  lemma KeysApart(a: string, b: string)
    ensures ChallengeKey(a) != DeviceKey(b)
    ensures ChallengeKey(a) == ChallengeKey(b) ==> a == b
    ensures DeviceKey(a) == DeviceKey(b) ==> a == b
  {
    assert ChallengeKey(a)[12] == 'c' && DeviceKey(b)[12] == 'd';
    assert ChallengeKey(a)[22..] == a && ChallengeKey(b)[22..] == b;
    assert DeviceKey(a)[19..] == a && DeviceKey(b)[19..] == b;
  }

  /** Configuration, and the two foreign checks: certificate and device signatures. */
  datatype Env = Env(maxEntries: nat, configured: bool, policy: Policy, verifies: Verifies,
                     signed: (Key, Bytes, Bytes) -> bool, deviceRequired: bool)

  datatype Request =
    | Enroll(challengeId: string, deviceId: string, chain: seq<Der>)
    | Verify(challengeId: string, deviceId: string, signature: Bytes)
    | Guarded(device: Option<string>, challenge: Option<string>, sig: Option<Bytes>, purpose: string)
  {
    predicate HeadersMissing() {
      Guarded? && (device in {None, Some("")} || challenge in {None, Some("")} || sig in {None, Some("")})
    }

    function Challenge(): string { if Guarded? then (if challenge.Some? then challenge.value else "") else challengeId }

    function DeviceId(): string { if Guarded? then (if device.Some? then device.value else "") else deviceId }

    function Signature(): Bytes {
      if Guarded? then (if sig.Some? then sig.value else "") else if Verify? then signature else ""
    }

    function Purpose(): string {
      match this
      case Enroll(_, _, _) => "enroll"
      case Verify(_, _, _) => "verify"
      case _ => purpose
    }
  }

  datatype Reason = SignatureMissing | ChallengeInvalid | NotEnrolled | SignatureInvalid

  datatype Context = Context(verified: bool, reason: Option<Reason>)

  datatype Outcome = Unconfigured | UnknownChallenge | ChainRejected(code: Code) | AlreadyEnrolled
                   | Enrolled(level: int) | UnknownChallengeOrDevice | InvalidSignature | Verified
                   | Judged(context: Context, admitted: bool) | Crashed

  /** Where a request stands: after `consume`, after `enrol`, after `get`, or answered. */
  datatype Phase =
    | Consumed(req: Request, nonce: Option<Bytes>)
    | Enrolling(req: Request, attested: Attested, stored: bool)
    | Looked(req: Request, nonce: Option<Bytes>, found: Option<Device>)
    | Done(req: Request, outcome: Outcome)

  datatype World = World(table: K.Table<Stored>, inFlight: map<nat, Phase>)

  datatype Label =
    | Issue(now: nat, id: string, nonce: Bytes, purpose: Option<string>)
    | Arrive(now: nat, r: nat, req: Request)
    | Resume(now: nat, r: nat)
    | Delete(now: nat, deviceId: string)

  function PurposeOr(purpose: Option<string>): string { if purpose.Some? then purpose.value else "enroll" }

  function Judge(env: Env, c: Context): Outcome { Judged(c, c.verified || !env.deviceRequired) }

  /** What a request is answered without touching the store. */
  function Refusal(env: Env, req: Request): Option<Outcome> {
    if !req.Guarded? && !env.configured then Some(Unconfigured)
    else if req.HeadersMissing() then Some(Judge(env, Context(false, Some(SignatureMissing))))
    else None
  }

  // ---------------------------------------------------------------- one step

  /** The one store call of a step, if it makes any. */
  function StoreCall(env: Env, w: World, l: Label): Option<K.Op<Stored>> {
    match l
    case Issue(_, id, nonce, purpose) =>
      Some(K.Put(ChallengeKey(id), ChallengeRecord(nonce, PurposeOr(purpose)), Some(CHALLENGE_TTL_MS)))
    case Arrive(_, _, req) =>
      if Refusal(env, req).Some? then None else Some(K.Take(ChallengeKey(req.Challenge())))
    case Resume(now, r) => if r in w.inFlight then PhaseCall(env, now, w.inFlight[r]) else None
    case Delete(_, deviceId) => Some(K.Remove(DeviceKey(deviceId)))
  }

  function PhaseCall(env: Env, now: nat, ph: Phase): Option<K.Op<Stored>> {
    match ph
    case Consumed(req, nonce) =>
      if req.Enroll? then
        if nonce.None? then None
        else
          match Attestation.Verify(env.policy, env.verifies, req.chain, nonce.value, now)
          case Err(_) => None
          case Ok(a) => Some(K.PutIfAbsent(DeviceKey(req.deviceId), DeviceRecord(Device(a.publicKey, a.level, now)),
            None))
      else if req.Guarded? && nonce.None? then None
      else Some(K.Get(DeviceKey(req.DeviceId())))
    case _ => None
  }

  /** What `consume` makes of a stored value: null, the nonce, or an exception when there is no purpose to compare. */
  datatype Consumption = Null | Handed(nonce: Bytes) | Thrown

  function Opened(raw: Option<Stored>, purpose: string): Consumption {
    match raw
    case None => Null
    case Some(ChallengeRecord(nonce, stored)) => if stored == purpose then Handed(nonce) else Null
    case Some(DeviceRecord(_)) => Thrown
    case Some(Unreadable) => Null
  }

  function AfterTake(req: Request, raw: Option<Stored>): Phase {
    match Opened(raw, req.Purpose())
    case Null => Consumed(req, None)
    case Handed(nonce) => Consumed(req, Some(nonce))
    case Thrown => Done(req, Crashed)
  }

  function Found(raw: Option<Stored>): Option<Device> {
    if raw.Some? && raw.value.DeviceRecord? then Some(raw.value.device) else None
  }

  /** The phase a resumed request reaches, given the answer of its store call. */
  function NextPhase(env: Env, now: nat, ph: Phase, out: K.Output<Stored>): Phase {
    match ph
    case Consumed(req, nonce) =>
      if req.Enroll? then
        if nonce.None? then Done(req, UnknownChallenge)
        else
          match Attestation.Verify(env.policy, env.verifies, req.chain, nonce.value, now)
          case Err(code) => Done(req, ChainRejected(code))
          case Ok(a) => Enrolling(req, a, out == K.Flag(true))
      else if req.Guarded? && nonce.None? then Done(req, Judge(env, Context(false, Some(ChallengeInvalid))))
      else Looked(req, nonce, Found(if out.Value? then out.value else None))
    case Enrolling(req, a, stored) => Done(req, if stored then Enrolled(a.level) else AlreadyEnrolled)
    case Looked(req, nonce, found) =>
      if req.Guarded? then
        Done(req, Judge(env,
          if found.None? || nonce.None? then Context(false, Some(NotEnrolled))
          else if !env.signed(found.value.publicKey, nonce.value, req.Signature())
            then Context(false, Some(SignatureInvalid))
          else Context(true, None)))
      else if nonce.None? || found.None? then Done(req, UnknownChallengeOrDevice)
      else if !env.signed(found.value.publicKey, nonce.value, req.Signature()) then Done(req, InvalidSignature)
      else Done(req, Verified)
    case Done(_, _) => ph
  }

  function CallStore(env: Env, w: World, l: Label): (K.Table<Stored>, K.Output<Stored>) {
    var op := StoreCall(env, w, l);
    if op.None? then (w.table, K.Flag(false)) else K.Apply(w.table, env.maxEntries, l.now, op.value)
  }

  function ArrivalPhase(env: Env, req: Request, out: K.Output<Stored>): Phase {
    var refusal := Refusal(env, req);
    if refusal.Some? then Done(req, refusal.value) else AfterTake(req, if out.Value? then out.value else None)
  }

  function Next(env: Env, w: World, l: Label): World {
    var (table, out) := CallStore(env, w, l);
    World(table,
      match l
      case Arrive(_, r, req) => w.inFlight[r := ArrivalPhase(env, req, out)]
      case Resume(now, r) =>
        if r in w.inFlight then w.inFlight[r := NextPhase(env, now, w.inFlight[r], out)] else w.inFlight
      case _ => w.inFlight)
  }

  // ---------------------------------------------------------------- what happened

  datatype Event =
    | Quiet
    | Issued(id: string, nonce: Bytes, purpose: string, at: nat)
    | Taken(r: nat, id: string, purpose: string, got: Option<Bytes>, at: nat)
    | EnrolTried(r: nat, deviceId: string, device: Device, ok: bool)
    | LookedUp(r: nat, deviceId: string, found: Option<Device>)
    | Rejected(r: nat, code: Code, at: nat)
    | Deleted(deviceId: string)

  function EventOf(env: Env, w: World, l: Label): Event {
    var w' := Next(env, w, l);
    match l
    case Issue(now, id, nonce, purpose) => Issued(id, nonce, PurposeOr(purpose), now)
    case Arrive(now, r, req) =>
      if Refusal(env, req).Some? then Quiet
      else
        var got := if w'.inFlight[r].Consumed? then w'.inFlight[r].nonce else None;
        Taken(r, req.Challenge(), req.Purpose(), got, now)
    case Resume(now, r) =>
      if r !in w.inFlight || w.inFlight[r].Done? then Quiet
      else
        var ph' := w'.inFlight[r];
        if ph'.Enrolling? then
          EnrolTried(r, ph'.req.DeviceId(), Device(ph'.attested.publicKey, ph'.attested.level, now), ph'.stored)
        else if ph'.Looked? then LookedUp(r, ph'.req.DeviceId(), ph'.found)
        else if ph'.Done? && ph'.outcome.ChainRejected? then Rejected(r, ph'.outcome.code, now)
        else Quiet
    case Delete(_, deviceId) => Deleted(deviceId)
  }

  datatype State = State(world: World, past: K.Past<Stored>, events: seq<Event>)

  const START := State(World(JsMaps.EmptyMap(), map[]), K.NoPast(), [])

  ghost function Advance(env: Env, s: State, l: Label): State {
    var op, out := StoreCall(env, s.world, l), CallStore(env, s.world, l).1;
    State(Next(env, s.world, l),
          if op.None? then s.past else K.Recall(s.past, env.maxEntries, l.now, op.value, out),
          s.events + [EventOf(env, s.world, l)])
  }

  ghost predicate IssuedIn(events: seq<Event>, id: string) {
    exists i | 0 <= i < |events| :: events[i].Issued? && events[i].id == id
  }

  /** Challenge ids are fresh, and so are the numbers of arriving requests. */
  ghost predicate Enabled(s: State, l: Label) {
    && (l.Issue? ==> !IssuedIn(s.events, l.id))
    && (l.Arrive? ==> l.r !in s.world.inFlight)
  }

  ghost function LastTime(labels: seq<Label>): nat {
    if labels == [] then 0 else labels[|labels| - 1].now
  }

  ghost function Run(env: Env, labels: seq<Label>): (s: State)
    ensures |s.events| == |labels|
  {
    if labels == [] then START
    else Advance(env, Run(env, labels[..|labels| - 1]), labels[|labels| - 1])
  }

  /** A possible run: time does not go back, and every step is enabled. */
  ghost predicate Legal(env: Env, labels: seq<Label>) {
    labels != [] ==>
      var before, l := labels[..|labels| - 1], labels[|labels| - 1];
      Legal(env, before) && LastTime(before) <= l.now && Enabled(Run(env, before), l)
  }

  // ---------------------------------------------------------------- the invariant

  /** A challenge key holds the challenge that was issued under its id, for 60000 ms from then. */
  ghost predicate ChallengesIssued(last: map<string, K.Entry<Stored>>, events: seq<Event>, now: nat) {
    forall id | ChallengeKey(id) in last :: ChallengeIssued(last[ChallengeKey(id)], events, id, now)
  }

  ghost predicate ChallengeIssued(e: K.Entry<Stored>, events: seq<Event>, id: string, now: nat) {
    && e.value.ChallengeRecord?
    && e.expiresAt.At? && CHALLENGE_TTL_MS <= e.expiresAt.ms <= now + CHALLENGE_TTL_MS
    && Issued(id, e.value.nonce, e.value.purpose, e.expiresAt.ms - CHALLENGE_TTL_MS) in events
  }

  predicate Enrols(e: Event, d: string, device: Device) {
    e.EnrolTried? && e.ok && e.deviceId == d && e.device == device
  }

  /** No enrolment or deletion of the device after the i-th event. */
  ghost predicate Untouched(events: seq<Event>, i: int, d: string) {
    forall m | i < m < |events| && 0 <= m ::
      events[m] != Deleted(d) && !(events[m].EnrolTried? && events[m].ok && events[m].deviceId == d)
  }

  /** The device was enrolled under the id, and has not been deleted or replaced since. */
  ghost predicate EnrolledIn(events: seq<Event>, d: string, device: Device) {
    exists i | 0 <= i < |events| :: Enrols(events[i], d, device) && Untouched(events, i, d)
  }

  /** A device key holds the device that is enrolled under its id, for ever. */
  ghost predicate DevicesBound(last: map<string, K.Entry<Stored>>, events: seq<Event>) {
    forall d | DeviceKey(d) in last :: DeviceBound(last[DeviceKey(d)], events, d)
  }

  ghost predicate DeviceBound(e: K.Entry<Stored>, events: seq<Event>, d: string) {
    e.value.DeviceRecord? && e.expiresAt.Never? && EnrolledIn(events, d, e.value.device)
  }

  /** Nonces were handed out at times not after now. */
  ghost predicate TakenBefore(events: seq<Event>, now: nat) { forall e | e in events && e.Taken? :: e.at <= now }

  /** A challenge that yielded its nonce is gone. */
  ghost predicate Spent(last: map<string, K.Entry<Stored>>, events: seq<Event>) {
    forall e | e in events && e.Taken? && e.got.Some? :: ChallengeKey(e.id) !in last && IssuedIn(events, e.id)
  }

  /** What the last writes owe to the events. */
  ghost predicate Ledger(last: map<string, K.Entry<Stored>>, events: seq<Event>, now: nat) {
    ChallengesIssued(last, events, now) && DevicesBound(last, events) && Spent(last, events) && TakenBefore(events, now)
  }

  /** A nonce was handed to request r for a challenge issued, for the same purpose, at most 60000 ms before. */
  ghost predicate Yielded(events: seq<Event>, r: nat, id: string, purpose: string, nonce: Bytes, t0: nat, at: nat) {
    && Taken(r, id, purpose, Some(nonce), at) in events
    && Issued(id, nonce, purpose, t0) in events
    && t0 <= at <= t0 + CHALLENGE_TTL_MS
  }

  ghost predicate Holds(events: seq<Event>, r: nat, req: Request, nonce: Bytes) {
    !req.HeadersMissing() && exists t0, at :: Yielded(events, r, req.Challenge(), req.Purpose(), nonce, t0, at)
  }

  /**
   * Request r itself tried to enrol the attested key: at that instant, and not before the request took its
   * nonce, the chain was accepted for that nonce.
   */
  ghost predicate Tried(env: Env, events: seq<Event>, r: nat, req: Request, a: Attested, ok: bool) {
    req.Enroll? && exists nonce, t0: nat, at: nat, t: nat ::
      && Yielded(events, r, req.Challenge(), req.Purpose(), nonce, t0, at) && at <= t
      && VerifiedAt(env, req, nonce, t, Ok(a))
      && EnrolTried(r, req.DeviceId(), Device(a.publicKey, a.level, t), ok) in events
  }

  ghost predicate VerifiedAt(env: Env, req: Request, nonce: Bytes, t: nat, result: Result<Attested, Code>)
    requires req.Enroll?
  {
    Attestation.Verify(env.policy, env.verifies, req.chain, nonce, t) == result
  }

  /** Request r asked for its device and got that answer: the device enrolled at that moment, or none. */
  ghost predicate Looking(events: seq<Event>, r: nat, d: string, found: Option<Device>) {
    exists j | 0 <= j < |events| :: LookedAt(events, j, r, d, found)
  }

  ghost predicate LookedAt(events: seq<Event>, j: int, r: nat, d: string, found: Option<Device>)
    requires 0 <= j < |events|
  {
    events[j] == LookedUp(r, d, found) && (found.Some? ==> EnrolledIn(events[..j], d, found.value))
  }

  /** Request r holds a nonce that the key enrolled for its device id, when looked up, signed. */
  ghost predicate Signed(env: Env, events: seq<Event>, r: nat, req: Request) {
    exists nonce, device ::
      && Holds(events, r, req, nonce)
      && Looking(events, r, req.DeviceId(), Some(device))
      && env.signed(device.publicKey, nonce, req.Signature())
  }

  /** Request r asked for its challenge and got nothing. */
  ghost predicate TookNothing(events: seq<Event>, r: nat, req: Request) {
    exists at :: Taken(r, req.Challenge(), req.Purpose(), None, at) in events
  }

  /** Request r asked for its device and found none. */
  ghost predicate FoundNothing(events: seq<Event>, r: nat, req: Request) { Looking(events, r, req.DeviceId(), None) }

  /** Request r was refused an id under which a device was enrolled at that moment. */
  ghost predicate Occupied(events: seq<Event>, r: nat, req: Request) {
    exists j | 0 <= j < |events| :: OccupiedAt(events, j, r, req.DeviceId())
  }

  ghost predicate OccupiedAt(events: seq<Event>, j: int, r: nat, d: string)
    requires 0 <= j < |events|
  {
    && events[j].EnrolTried? && events[j].r == r && events[j].deviceId == d && !events[j].ok
    && exists device :: EnrolledIn(events[..j], d, device)
  }

  /** At the instant the chain was rejected, not before request r took its nonce, it had that fault. */
  ghost predicate Refused(env: Env, events: seq<Event>, r: nat, req: Request, code: Code) {
    req.Enroll? && exists nonce, t0: nat, at: nat, t: nat ::
      && Yielded(events, r, req.Challenge(), req.Purpose(), nonce, t0, at) && at <= t
      && VerifiedAt(env, req, nonce, t, Err(code))
      && Rejected(r, code, t) in events
  }

  /** Request r holds a nonce that the key enrolled for its device id, when looked up, did not sign. */
  ghost predicate Missigned(env: Env, events: seq<Event>, r: nat, req: Request) {
    exists nonce, device ::
      && Holds(events, r, req, nonce)
      && Looking(events, r, req.DeviceId(), Some(device))
      && !env.signed(device.publicKey, nonce, req.Signature())
  }

  ghost predicate NonceOk(events: seq<Event>, r: nat, req: Request, nonce: Option<Bytes>) {
    if nonce.Some? then Holds(events, r, req, nonce.value) else TookNothing(events, r, req)
  }

  ghost predicate PhaseOk(env: Env, events: seq<Event>, r: nat, ph: Phase) {
    match ph
    case Consumed(req, nonce) => NonceOk(events, r, req, nonce)
    case Enrolling(req, a, stored) =>
      Tried(env, events, r, req, a, stored) && (stored || Occupied(events, r, req))
    case Looked(req, nonce, found) =>
      && !req.Enroll? && (req.Guarded? ==> nonce.Some?)
      && NonceOk(events, r, req, nonce)
      && Looking(events, r, req.DeviceId(), found)
    case Done(req, outcome) => OutcomeOk(env, events, r, req, outcome)
  }

  /** Every answer, good or bad, has its reason among the events. */
  ghost predicate OutcomeOk(env: Env, events: seq<Event>, r: nat, req: Request, outcome: Outcome) {
    match outcome
    case Unconfigured => !env.configured && !req.Guarded?
    case UnknownChallenge => req.Enroll? && TookNothing(events, r, req)
    case ChainRejected(code) => Refused(env, events, r, req, code)
    case AlreadyEnrolled => Occupied(events, r, req) && exists a: Attested :: Tried(env, events, r, req, a, false)
    case Enrolled(level) => exists a: Attested :: a.level == level && Tried(env, events, r, req, a, true)
    case UnknownChallengeOrDevice => req.Verify? && (TookNothing(events, r, req) || FoundNothing(events, r, req))
    case InvalidSignature => req.Verify? && Missigned(env, events, r, req)
    case Verified => req.Verify? && Signed(env, events, r, req)
    case Judged(context, admitted) =>
      req.Guarded? && admitted == (context.verified || !env.deviceRequired) && ContextOk(env, events, r, req, context)
    case Crashed => false
  }

  ghost predicate ContextOk(env: Env, events: seq<Event>, r: nat, req: Request, context: Context) {
    match context
    case Context(true, reason) => reason.None? && Signed(env, events, r, req)
    case Context(false, None) => false
    case Context(false, Some(SignatureMissing)) => req.HeadersMissing()
    case Context(false, Some(ChallengeInvalid)) => TookNothing(events, r, req)
    case Context(false, Some(NotEnrolled)) => FoundNothing(events, r, req)
    case Context(false, Some(SignatureInvalid)) => Missigned(env, events, r, req)
  }

  ghost predicate Inv(env: Env, s: State, now: nat) {
    && K.Faithful(s.world.table, env.maxEntries, s.past, now)
    && Ledger(s.past.last, s.events, now)
    && (forall r | r in s.world.inFlight :: PhaseOk(env, s.events, r, s.world.inFlight[r]))
  }

  // ---------------------------------------------------------------- what lasts as events accumulate

  lemma HoldsLonger(events: seq<Event>, e: Event, r: nat, req: Request, nonce: Bytes)
    requires Holds(events, r, req, nonce)
    ensures Holds(events + [e], r, req, nonce)
  {
    var t0, at :| Yielded(events, r, req.Challenge(), req.Purpose(), nonce, t0, at);
    assert Yielded(events + [e], r, req.Challenge(), req.Purpose(), nonce, t0, at);
  }

  lemma EnrolledLonger(events: seq<Event>, e: Event, d: string, device: Device)
    requires EnrolledIn(events, d, device) && e != Deleted(d) && !(e.EnrolTried? && e.ok && e.deviceId == d)
    ensures EnrolledIn(events + [e], d, device)
  {
    var i :| 0 <= i < |events| && Enrols(events[i], d, device) && Untouched(events, i, d);
    assert (events + [e])[i] == events[i] && Untouched(events + [e], i, d);
  }

  lemma EnrolledNow(events: seq<Event>, e: Event, d: string, device: Device)
    requires Enrols(e, d, device)
    ensures EnrolledIn(events + [e], d, device)
  {
    assert (events + [e])[|events|] == e && Untouched(events + [e], |events|, d);
  }

  lemma TriedLonger(env: Env, events: seq<Event>, e: Event, r: nat, req: Request, a: Attested, ok: bool)
    requires Tried(env, events, r, req, a, ok)
    ensures Tried(env, events + [e], r, req, a, ok)
  {
    var nonce, t0: nat, at: nat, t: nat :| Yielded(events, r, req.Challenge(), req.Purpose(), nonce, t0, at) && at <= t
      && VerifiedAt(env, req, nonce, t, Ok(a))
        && EnrolTried(r, req.DeviceId(), Device(a.publicKey, a.level, t), ok) in events;
    assert Yielded(events + [e], r, req.Challenge(), req.Purpose(), nonce, t0, at);
    assert EnrolTried(r, req.DeviceId(), Device(a.publicKey, a.level, t), ok) in events + [e];
  }

  lemma LookingLonger(events: seq<Event>, e: Event, r: nat, d: string, found: Option<Device>)
    requires Looking(events, r, d, found)
    ensures Looking(events + [e], r, d, found)
  {
    var j :| 0 <= j < |events| && LookedAt(events, j, r, d, found);
    assert (events + [e])[..j] == events[..j] && LookedAt(events + [e], j, r, d, found);
  }

  lemma SignedLonger(env: Env, events: seq<Event>, e: Event, r: nat, req: Request)
    requires Signed(env, events, r, req)
    ensures Signed(env, events + [e], r, req)
  {
    var nonce, device :| Holds(events, r, req, nonce) && Looking(events, r, req.DeviceId(), Some(device))
      && env.signed(device.publicKey, nonce, req.Signature());
    HoldsLonger(events, e, r, req, nonce);
    LookingLonger(events, e, r, req.DeviceId(), Some(device));
  }

  lemma TookNothingLonger(events: seq<Event>, e: Event, r: nat, req: Request)
    requires TookNothing(events, r, req)
    ensures TookNothing(events + [e], r, req)
  {
    var at :| Taken(r, req.Challenge(), req.Purpose(), None, at) in events;
    assert Taken(r, req.Challenge(), req.Purpose(), None, at) in events + [e];
  }

  lemma OccupiedLonger(events: seq<Event>, e: Event, r: nat, req: Request)
    requires Occupied(events, r, req)
    ensures Occupied(events + [e], r, req)
  {
    var j :| 0 <= j < |events| && OccupiedAt(events, j, r, req.DeviceId());
    assert (events + [e])[..j] == events[..j] && OccupiedAt(events + [e], j, r, req.DeviceId());
  }

  lemma RefusedLonger(env: Env, events: seq<Event>, e: Event, r: nat, req: Request, code: Code)
    requires Refused(env, events, r, req, code)
    ensures Refused(env, events + [e], r, req, code)
  {
    var nonce, t0: nat, at: nat, t: nat :| Yielded(events, r, req.Challenge(), req.Purpose(), nonce, t0, at) && at <= t
      && VerifiedAt(env, req, nonce, t, Err(code)) && Rejected(r, code, t) in events;
    assert Yielded(events + [e], r, req.Challenge(), req.Purpose(), nonce, t0, at);
    assert Rejected(r, code, t) in events + [e];
  }

  lemma MissignedLonger(env: Env, events: seq<Event>, e: Event, r: nat, req: Request)
    requires Missigned(env, events, r, req)
    ensures Missigned(env, events + [e], r, req)
  {
    var nonce, device :| Holds(events, r, req, nonce) && Looking(events, r, req.DeviceId(), Some(device))
      && !env.signed(device.publicKey, nonce, req.Signature());
    HoldsLonger(events, e, r, req, nonce);
    LookingLonger(events, e, r, req.DeviceId(), Some(device));
  }

  lemma NonceLonger(events: seq<Event>, e: Event, r: nat, req: Request, nonce: Option<Bytes>)
    requires NonceOk(events, r, req, nonce)
    ensures NonceOk(events + [e], r, req, nonce)
  {
    if nonce.Some? {
      HoldsLonger(events, e, r, req, nonce.value);
    } else {
      TookNothingLonger(events, e, r, req);
    }
  }

  lemma PhaseLonger(env: Env, events: seq<Event>, e: Event, r: nat, ph: Phase)
    requires PhaseOk(env, events, r, ph)
    ensures PhaseOk(env, events + [e], r, ph)
  {
    match ph
    case Consumed(req, nonce) => NonceLonger(events, e, r, req, nonce);
    case Enrolling(req, a, stored) =>
      TriedLonger(env, events, e, r, req, a, stored);
      if !stored { OccupiedLonger(events, e, r, req); }
    case Looked(req, nonce, found) =>
      NonceLonger(events, e, r, req, nonce);
      LookingLonger(events, e, r, req.DeviceId(), found);
    case Done(req, outcome) => OutcomeLonger(env, events, e, r, req, outcome);
  }

  lemma OutcomeLonger(env: Env, events: seq<Event>, e: Event, r: nat, req: Request, outcome: Outcome)
    requires OutcomeOk(env, events, r, req, outcome)
    ensures OutcomeOk(env, events + [e], r, req, outcome)
  {
    match outcome
    case Unconfigured =>
    case UnknownChallenge => TookNothingLonger(events, e, r, req);
    case ChainRejected(code) => RefusedLonger(env, events, e, r, req, code);
    case AlreadyEnrolled =>
      var a: Attested :| Tried(env, events, r, req, a, false);
      TriedLonger(env, events, e, r, req, a, false);
      OccupiedLonger(events, e, r, req);
    case Enrolled(level) =>
      var a: Attested :| a.level == level && Tried(env, events, r, req, a, true);
      TriedLonger(env, events, e, r, req, a, true);
    case UnknownChallengeOrDevice =>
      if TookNothing(events, r, req) {
        TookNothingLonger(events, e, r, req);
      } else {
        LookingLonger(events, e, r, req.DeviceId(), None);
      }
    case InvalidSignature => MissignedLonger(env, events, e, r, req);
    case Verified => SignedLonger(env, events, e, r, req);
    case Judged(context, _) => ContextLonger(env, events, e, r, req, context);
  }

  lemma ContextLonger(env: Env, events: seq<Event>, e: Event, r: nat, req: Request, context: Context)
    requires ContextOk(env, events, r, req, context)
    ensures ContextOk(env, events + [e], r, req, context)
  {
    match context
    case Context(true, _) => SignedLonger(env, events, e, r, req);
    case Context(false, Some(SignatureMissing)) =>
    case Context(false, Some(ChallengeInvalid)) => TookNothingLonger(events, e, r, req);
    case Context(false, Some(NotEnrolled)) => LookingLonger(events, e, r, req.DeviceId(), None);
    case Context(false, Some(SignatureInvalid)) => MissignedLonger(env, events, e, r, req);
  }

  // ---------------------------------------------------------------- each store call keeps the ledger

  lemma IssuedLonger(events: seq<Event>, e: Event, id: string)
    requires IssuedIn(events, id)
    ensures IssuedIn(events + [e], id)
  {
    var i :| 0 <= i < |events| && events[i].Issued? && events[i].id == id;
    assert (events + [e])[i] == events[i];
  }

  /** The event leaves alone every device whose key is kept, and a nonce it hands out belongs to no kept key. */
  ghost predicate Harmless(e: Event, events: seq<Event>, less: map<string, K.Entry<Stored>>, now: nat) {
    && (e.Taken? ==> e.at <= now && (e.got.Some? ==> ChallengeKey(e.id) !in less && IssuedIn(events, e.id)))
    && (e.Deleted? || (e.EnrolTried? && e.ok) ==> DeviceKey(e.deviceId) !in less)
  }

  /** Forgetting keys and remembering one more event. */
  lemma LedgerLonger(last: map<string, K.Entry<Stored>>, events: seq<Event>, before: nat, now: nat, e: Event,
                     less: map<string, K.Entry<Stored>>)
    requires Ledger(last, events, before) && before <= now
    requires forall k | k in less :: k in last && less[k] == last[k]
    requires Harmless(e, events, less, now)
    ensures Ledger(less, events + [e], now)
  {
    forall id | ChallengeKey(id) in less ensures ChallengeIssued(less[ChallengeKey(id)], events + [e], id, now) {
      assert ChallengeIssued(last[ChallengeKey(id)], events, id, before);
    }
    forall d | DeviceKey(d) in less ensures DeviceBound(less[DeviceKey(d)], events + [e], d) {
      assert DeviceBound(last[DeviceKey(d)], events, d);
      EnrolledLonger(events, e, d, last[DeviceKey(d)].value.device);
    }
    SpentLonger(last, events, e, less);
  }

  lemma SpentLonger(last: map<string, K.Entry<Stored>>, events: seq<Event>, e: Event,
                    less: map<string, K.Entry<Stored>>)
    requires Spent(last, events) && forall k | k in less :: k in last
    requires e.Taken? && e.got.Some? ==> ChallengeKey(e.id) !in less && IssuedIn(events, e.id)
    ensures Spent(less, events + [e])
  {
    forall x | x in events + [e] && x.Taken? && x.got.Some?
      ensures ChallengeKey(x.id) !in less && IssuedIn(events + [e], x.id)
    {
      IssuedLonger(events, e, x.id);
    }
  }

  lemma LedgerIssue(last: map<string, K.Entry<Stored>>, events: seq<Event>, before: nat, now: nat, id: string,
                    nonce: Bytes, purpose: string)
    requires Ledger(last, events, before) && before <= now && !IssuedIn(events, id)
    ensures Ledger(last[ChallengeKey(id) := K.Entry(ChallengeRecord(nonce, purpose), K.At(now + CHALLENGE_TTL_MS))],
                   events + [Issued(id, nonce, purpose, now)], now)
  {
    var e, k := Issued(id, nonce, purpose, now), ChallengeKey(id);
    var last' := last[k := K.Entry(ChallengeRecord(nonce, purpose), K.At(now + CHALLENGE_TTL_MS))];
    LedgerLonger(last, events, before, now, e, last);
    forall x | ChallengeKey(x) in last' ensures ChallengeIssued(last'[ChallengeKey(x)], events + [e], x, now) {
      KeysApart(x, id);
      assert ChallengeKey(x) != k ==> ChallengeIssued(last[ChallengeKey(x)], events + [e], x, now);
    }
    forall d | DeviceKey(d) in last' ensures DeviceBound(last'[DeviceKey(d)], events + [e], d) {
      KeysApart(id, d);
      assert DeviceBound(last[DeviceKey(d)], events + [e], d);
    }
    forall x | x in events + [e] && x.Taken? && x.got.Some? ensures ChallengeKey(x.id) !in last' {
      KeysApart(x.id, id);
    }
  }

  lemma LedgerEnrol(last: map<string, K.Entry<Stored>>, events: seq<Event>, before: nat, now: nat, r: nat, d: string,
                    device: Device)
    requires Ledger(last, events, before) && before <= now
    ensures Ledger(last[DeviceKey(d) := K.Entry(DeviceRecord(device), K.Never)],
                   events + [EnrolTried(r, d, device, true)], now)
  {
    var e, k := EnrolTried(r, d, device, true), DeviceKey(d);
    var less, last' := last - {k}, last[k := K.Entry(DeviceRecord(device), K.Never)];
    LedgerLonger(last, events, before, now, e, less);
    EnrolledNow(events, e, d, device);
    forall x | ChallengeKey(x) in last' ensures ChallengeIssued(last'[ChallengeKey(x)], events + [e], x, now) {
      KeysApart(x, d);
      assert ChallengeIssued(less[ChallengeKey(x)], events + [e], x, now);
    }
    forall x | DeviceKey(x) in last' ensures DeviceBound(last'[DeviceKey(x)], events + [e], x) {
      KeysApart(x, d);
      KeysApart(d, x);
      assert DeviceKey(x) != k ==> DeviceBound(less[DeviceKey(x)], events + [e], x);
    }
    forall x | x in events + [e] && x.Taken? && x.got.Some? ensures ChallengeKey(x.id) !in last' {
      KeysApart(x.id, d);
    }
  }

  // ---------------------------------------------------------------- each step keeps the invariant

  /** Lookups and enrolments report the answer of their store call. */
  lemma EventCall(env: Env, w: World, l: Label)
    ensures var e, op, out := EventOf(env, w, l), StoreCall(env, w, l), CallStore(env, w, l).1;
            && (e.LookedUp? ==>
                  op == Some(K.Get(DeviceKey(e.deviceId))) && e.found == Found(if out.Value? then out.value else None))
            && (e.EnrolTried? ==> op.Some? && op.value.PutIfAbsent? && op.value.key == DeviceKey(e.deviceId)
                                  && e.ok == (out == K.Flag(true)))
            && (l.Resume? && !e.EnrolTried? ==> op.None? || op.value.Get?)
  {
  }

  /** The store stays faithful, and its answer is right. */
  lemma StoreFaithful(env: Env, s: State, before: nat, l: Label)
    requires K.Faithful(s.world.table, env.maxEntries, s.past, before) && before <= l.now && env.maxEntries >= 1
    ensures var s' := Advance(env, s, l); K.Faithful(s'.world.table, env.maxEntries, s'.past, l.now)
    ensures var op := StoreCall(env, s.world, l);
            op.Some? ==> K.Right(s.past, l.now, op.value, CallStore(env, s.world, l).1)
  {
    var op := StoreCall(env, s.world, l);
    if op.Some? {
      K.ApplyKeeps(s.world.table, env.maxEntries, s.past, before, l.now, op.value);
    }
  }

  /** A step and the phases of the other requests. */
  lemma OthersKeep(env: Env, s: State, l: Label, now: nat)
    requires forall r | r in s.world.inFlight :: PhaseOk(env, s.events, r, s.world.inFlight[r])
    ensures var s' := Advance(env, s, l);
            forall r | r in s.world.inFlight && !((l.Arrive? || l.Resume?) && r == l.r) ::
              r in s'.world.inFlight && PhaseOk(env, s'.events, r, s'.world.inFlight[r])
  {
    var e := EventOf(env, s.world, l);
    forall r | r in s.world.inFlight ensures PhaseOk(env, s.events + [e], r, s.world.inFlight[r]) {
      PhaseLonger(env, s.events, e, r, s.world.inFlight[r]);
    }
  }

  lemma IssueKeeps(env: Env, s: State, before: nat, l: Label)
    requires Inv(env, s, before) && before <= l.now && env.maxEntries >= 1 && l.Issue? && Enabled(s, l)
    ensures Inv(env, Advance(env, s, l), l.now)
  {
    StoreFaithful(env, s, before, l);
    OthersKeep(env, s, l, l.now);
    IssueLedger(env, s, before, l);
  }

  lemma IssueLedger(env: Env, s: State, before: nat, l: Label)
    requires Ledger(s.past.last, s.events, before) && before <= l.now && l.Issue? && Enabled(s, l)
    ensures Ledger(Advance(env, s, l).past.last, Advance(env, s, l).events, l.now)
  {
    LedgerIssue(s.past.last, s.events, before, l.now, l.id, l.nonce, PurposeOr(l.purpose));
  }

  lemma DeleteKeeps(env: Env, s: State, before: nat, l: Label)
    requires Inv(env, s, before) && before <= l.now && env.maxEntries >= 1 && l.Delete?
    ensures Inv(env, Advance(env, s, l), l.now)
  {
    StoreFaithful(env, s, before, l);
    OthersKeep(env, s, l, l.now);
    LedgerLonger(s.past.last, s.events, before, l.now, Deleted(l.deviceId), s.past.last - {DeviceKey(l.deviceId)});
  }

  /** What `getDelete` on a challenge key may return. */
  lemma TakeYields(s: State, before: nat, now: nat, id: string, out: K.Output<Stored>)
    requires Ledger(s.past.last, s.events, before) && before <= now
    requires K.Right(s.past, now, K.Take(ChallengeKey(id)), out)
    ensures out.Value?
    ensures out.value.Some? ==>
              && out.value.value.ChallengeRecord? && IssuedIn(s.events, id)
              && exists t0: nat :: t0 <= now <= t0 + CHALLENGE_TTL_MS
                   && Issued(id, out.value.value.nonce, out.value.value.purpose, t0) in s.events
  {
    if out.value.Some? {
      var e := s.past.last[ChallengeKey(id)];
      assert ChallengeIssued(e, s.events, id, before);
      var t0: nat := e.expiresAt.ms - CHALLENGE_TTL_MS;
      var i :| 0 <= i < |s.events| && s.events[i] == Issued(id, e.value.nonce, e.value.purpose, t0);
    }
  }

  lemma {:induction false} ArriveKeeps(env: Env, s: State, before: nat, l: Label)
    requires Inv(env, s, before) && before <= l.now && env.maxEntries >= 1 && l.Arrive? && Enabled(s, l)
    ensures Inv(env, Advance(env, s, l), l.now)
  {
    StoreFaithful(env, s, before, l);
    if Refusal(env, l.req).Some? {
      ArriveRefused(env, s, before, l);
    } else {
      ArriveLedger(env, s, before, l);
    }
    OthersKeep(env, s, l, l.now);
    ArrivePhases(env, s, l);
  }

  lemma {:induction false} ArriveRefused(env: Env, s: State, before: nat, l: Label)
    requires Ledger(s.past.last, s.events, before) && before <= l.now && l.Arrive? && Refusal(env, l.req).Some?
    ensures var s' := Advance(env, s, l);
            && Ledger(s'.past.last, s'.events, l.now) && PhaseOk(env, s'.events, l.r, s'.world.inFlight[l.r])
            && s'.world.table == s.world.table && s'.past == s.past
  {
    LedgerLonger(s.past.last, s.events, before, l.now, EventOf(env, s.world, l), s.past.last);
  }

  lemma {:induction false} ArrivePhases(env: Env, s: State, l: Label)
    requires l.Arrive? && Enabled(s, l)
    requires var s' := Advance(env, s, l);
             && (forall r | r in s.world.inFlight && r != l.r ::
                   r in s'.world.inFlight && PhaseOk(env, s'.events, r, s'.world.inFlight[r]))
             && PhaseOk(env, s'.events, l.r, s'.world.inFlight[l.r])
    ensures var s' := Advance(env, s, l);
            forall r | r in s'.world.inFlight :: PhaseOk(env, s'.events, r, s'.world.inFlight[r])
  {
  }

  lemma ArriveLedger(env: Env, s: State, before: nat, l: Label)
    requires Ledger(s.past.last, s.events, before) && before <= l.now && l.Arrive? && Refusal(env, l.req).None?
    requires K.Right(s.past, l.now, StoreCall(env, s.world, l).value, CallStore(env, s.world, l).1)
    ensures var s' := Advance(env, s, l);
            Ledger(s'.past.last, s'.events, l.now) && PhaseOk(env, s'.events, l.r, s'.world.inFlight[l.r])
  {
    var id, out := l.req.Challenge(), CallStore(env, s.world, l).1;
    TakeYields(s, before, l.now, id, out);
    LedgerLonger(s.past.last, s.events, before, l.now, EventOf(env, s.world, l), s.past.last - {ChallengeKey(id)});
    ArrivalOk(env, s, l, out);
  }

  lemma ArrivalOk(env: Env, s: State, l: Label, out: K.Output<Stored>)
    requires l.Arrive? && Refusal(env, l.req).None? && out == CallStore(env, s.world, l).1 && out.Value?
    requires out.value.Some? ==>
      && out.value.value.ChallengeRecord?
      && exists t0: nat :: t0 <= l.now <= t0 + CHALLENGE_TTL_MS
           && Issued(l.req.Challenge(), out.value.value.nonce, out.value.value.purpose, t0) in s.events
    ensures PhaseOk(env, Advance(env, s, l).events, l.r, Advance(env, s, l).world.inFlight[l.r])
  {
    var events' := Advance(env, s, l).events;
    var ph := AfterTake(l.req, out.value);
    assert events'[|s.events|] == Taken(l.r, l.req.Challenge(), l.req.Purpose(), ph.nonce, l.now);
    if ph.nonce.Some? {
      var t0: nat :| t0 <= l.now <= t0 + CHALLENGE_TTL_MS
        && Issued(l.req.Challenge(), ph.nonce.value, l.req.Purpose(), t0) in s.events;
      assert Yielded(events', l.r, l.req.Challenge(), l.req.Purpose(), ph.nonce.value, t0, l.now);
    }
  }

  lemma {:induction false} ResumeLocalKeeps(env: Env, s: State, before: nat, l: Label)
    requires Inv(env, s, before) && before <= l.now && l.Resume? && StoreCall(env, s.world, l).None?
    ensures Inv(env, Advance(env, s, l), l.now)
  {
    var e := EventOf(env, s.world, l);
    OthersKeep(env, s, l, l.now);
    LedgerLonger(s.past.last, s.events, before, l.now, e, s.past.last);
    if l.r in s.world.inFlight {
      var ph := s.world.inFlight[l.r];
      PhaseLonger(env, s.events, e, l.r, ph);
      assert e in s.events + [e];
      LocalPhase(env, s.events + [e], l.r, ph, l.now);
    }
  }

  /** A phase reached without the store is as well founded as the one before. */
  lemma LocalPhase(env: Env, events: seq<Event>, r: nat, ph: Phase, now: nat)
    requires PhaseOk(env, events, r, ph) && PhaseCall(env, now, ph).None? && TakenBefore(events, now)
    requires var ph' := NextPhase(env, now, ph, K.Flag(false));
             ph.Consumed? && ph'.outcome.ChainRejected? ==> Rejected(r, ph'.outcome.code, now) in events
    ensures PhaseOk(env, events, r, NextPhase(env, now, ph, K.Flag(false)))
  {
    match ph
    case Consumed(req, nonce) =>
      if req.Enroll? && nonce.Some? {
        var code := Attestation.Verify(env.policy, env.verifies, req.chain, nonce.value, now).error;
        RefusedNow(env, events, r, req, nonce.value, now, code);
      }
    case Enrolling(req, a, stored) =>
    case Looked(req, nonce, found) => LookedPhase(env, events, r, ph, now);
    case Done(_, _) =>
  }

  lemma RefusedNow(env: Env, events: seq<Event>, r: nat, req: Request, nonce: Bytes, now: nat, code: Code)
    requires req.Enroll? && Holds(events, r, req, nonce) && TakenBefore(events, now)
    requires VerifiedAt(env, req, nonce, now, Err(code)) && Rejected(r, code, now) in events
    ensures Refused(env, events, r, req, code)
  {
    var t0, at :| Yielded(events, r, req.Challenge(), req.Purpose(), nonce, t0, at);
  }

  lemma TriedNow(env: Env, events: seq<Event>, r: nat, req: Request, nonce: Bytes, now: nat, a: Attested, ok: bool)
    requires req.Enroll? && Holds(events, r, req, nonce) && TakenBefore(events, now)
    requires VerifiedAt(env, req, nonce, now, Ok(a))
    requires EnrolTried(r, req.DeviceId(), Device(a.publicKey, a.level, now), ok) in events
    ensures Tried(env, events, r, req, a, ok)
  {
    var t0, at :| Yielded(events, r, req.Challenge(), req.Purpose(), nonce, t0, at);
  }

  lemma LookedPhase(env: Env, events: seq<Event>, r: nat, ph: Phase, now: nat)
    requires ph.Looked? && PhaseOk(env, events, r, ph)
    ensures PhaseOk(env, events, r, NextPhase(env, now, ph, K.Flag(false)))
  {
    if ph.nonce.Some? && ph.found.Some? {
      if env.signed(ph.found.value.publicKey, ph.nonce.value, ph.req.Signature()) {
        assert Signed(env, events, r, ph.req);
      } else {
        assert Missigned(env, events, r, ph.req);
      }
    }
  }

  lemma ResumeLookKeeps(env: Env, s: State, before: nat, l: Label)
    requires Inv(env, s, before) && before <= l.now && env.maxEntries >= 1
    requires l.Resume? && StoreCall(env, s.world, l).Some? && StoreCall(env, s.world, l).value.Get?
    ensures Inv(env, Advance(env, s, l), l.now)
  {
    StoreFaithful(env, s, before, l);
    OthersKeep(env, s, l, l.now);
    LedgerLonger(s.past.last, s.events, before, l.now, EventOf(env, s.world, l), s.past.last);
    LookedOk(env, s, l);
  }

  lemma LookedOk(env: Env, s: State, l: Label)
    requires l.Resume? && StoreCall(env, s.world, l).Some? && StoreCall(env, s.world, l).value.Get?
    requires PhaseOk(env, s.events, l.r, s.world.inFlight[l.r]) && DevicesBound(s.past.last, s.events)
    requires K.Right(s.past, l.now, StoreCall(env, s.world, l).value, CallStore(env, s.world, l).1)
    ensures var s' := Advance(env, s, l); PhaseOk(env, s'.events, l.r, s'.world.inFlight[l.r])
  {
    var e, out := EventOf(env, s.world, l), CallStore(env, s.world, l).1;
    var ph := s.world.inFlight[l.r];
    var d := ph.req.DeviceId();
    NonceLonger(s.events, e, l.r, ph.req, ph.nonce);
    if Found(out.value).Some? {
      assert DeviceBound(s.past.last[DeviceKey(d)], s.events, d);
    }
    assert (s.events + [e])[..|s.events|] == s.events;
    assert LookedAt(s.events + [e], |s.events|, l.r, d, Found(out.value));
  }

  lemma ResumeEnrolKeeps(env: Env, s: State, before: nat, l: Label)
    requires Inv(env, s, before) && before <= l.now && env.maxEntries >= 1
    requires l.Resume? && StoreCall(env, s.world, l).Some? && StoreCall(env, s.world, l).value.PutIfAbsent?
    ensures Inv(env, Advance(env, s, l), l.now)
  {
    StoreFaithful(env, s, before, l);
    OthersKeep(env, s, l, l.now);
    EnrolLedger(env, s, before, l);
    EnrollingOk(env, s, l);
  }

  lemma EnrolLedger(env: Env, s: State, before: nat, l: Label)
    requires Ledger(s.past.last, s.events, before) && before <= l.now
    requires l.Resume? && StoreCall(env, s.world, l).Some? && StoreCall(env, s.world, l).value.PutIfAbsent?
    ensures Ledger(Advance(env, s, l).past.last, Advance(env, s, l).events, l.now)
  {
    var e := EventOf(env, s.world, l);
    EventCall(env, s.world, l);
    if e.ok {
      LedgerEnrol(s.past.last, s.events, before, l.now, l.r, e.deviceId, e.device);
    } else {
      LedgerLonger(s.past.last, s.events, before, l.now, e, s.past.last);
    }
  }

  lemma EnrollingOk(env: Env, s: State, l: Label)
    requires l.Resume? && StoreCall(env, s.world, l).Some? && StoreCall(env, s.world, l).value.PutIfAbsent?
    requires PhaseOk(env, s.events, l.r, s.world.inFlight[l.r]) && DevicesBound(s.past.last, s.events)
    requires TakenBefore(s.events, l.now)
    requires K.Right(s.past, l.now, StoreCall(env, s.world, l).value, CallStore(env, s.world, l).1)
    ensures var s' := Advance(env, s, l); PhaseOk(env, s'.events, l.r, s'.world.inFlight[l.r])
  {
    var e, ph := EventOf(env, s.world, l), s.world.inFlight[l.r];
    var d, events' := ph.req.DeviceId(), s.events + [e];
    if !e.ok {
      assert DeviceBound(s.past.last[DeviceKey(d)], s.events, d);
      assert events'[..|s.events|] == s.events && OccupiedAt(events', |s.events|, l.r, d);
    }
    var a := Attestation.Verify(env.policy, env.verifies, ph.req.chain, ph.nonce.value, l.now).value;
    HoldsLonger(s.events, e, l.r, ph.req, ph.nonce.value);
    assert e in events';
    TriedNow(env, events', l.r, ph.req, ph.nonce.value, l.now, a, e.ok);
  }

  lemma ResumeKeeps(env: Env, s: State, before: nat, l: Label)
    requires Inv(env, s, before) && before <= l.now && env.maxEntries >= 1 && l.Resume?
    ensures Inv(env, Advance(env, s, l), l.now)
  {
    var op := StoreCall(env, s.world, l);
    if op.None? {
      ResumeLocalKeeps(env, s, before, l);
    } else if op.value.Get? {
      ResumeLookKeeps(env, s, before, l);
    } else {
      ResumeEnrolKeeps(env, s, before, l);
    }
  }

  /** The invariant holds in every reachable state. */
  lemma {:induction false} RunKeeps(env: Env, labels: seq<Label>)
    requires env.maxEntries >= 1 && Legal(env, labels)
    ensures Inv(env, Run(env, labels), LastTime(labels))
  {
    if labels != [] {
      var rest, l := labels[..|labels| - 1], labels[|labels| - 1];
      RunKeeps(env, rest);
      match l
      case Issue(_, _, _, _) => IssueKeeps(env, Run(env, rest), LastTime(rest), l);
      case Arrive(_, _, _) => ArriveKeeps(env, Run(env, rest), LastTime(rest), l);
      case Resume(_, _) => ResumeKeeps(env, Run(env, rest), LastTime(rest), l);
      case Delete(_, _) => DeleteKeeps(env, Run(env, rest), LastTime(rest), l);
    }
  }

  // ---------------------------------------------------------------- outcomes

  /** Every answer in every run is justified by the events; no request fails on a value of the wrong kind. */
  lemma OutcomesTraced(env: Env, labels: seq<Label>, r: nat)
    requires env.maxEntries >= 1 && Legal(env, labels)
    requires r in Run(env, labels).world.inFlight && Run(env, labels).world.inFlight[r].Done?
    ensures var ph := Run(env, labels).world.inFlight[r];
            ph.outcome != Crashed && OutcomeOk(env, Run(env, labels).events, r, ph.req, ph.outcome)
  {
    RunKeeps(env, labels);
  }

  /**
   * An enrolled answer stands on this request's own enrolment of the attested key: at the very instant kept as
   * enrolledAt the chain was accepted, for a nonce issued to enrol and taken by this request before, at most
   * 60000 ms after it was issued.
   */
  lemma EnrolledTraced(env: Env, labels: seq<Label>, r: nat, req: Request, level: int)
    requires env.maxEntries >= 1 && Legal(env, labels)
    requires r in Run(env, labels).world.inFlight && Run(env, labels).world.inFlight[r] == Done(req, Enrolled(level))
    ensures req.Enroll? && exists nonce, t0: nat, at: nat, device: Device ::
              EnrolledBy(env, Run(env, labels).events, r, req, nonce, t0, at, device) && device.level == level
  {
    OutcomesTraced(env, labels, r);
    EnrolledOutcome(env, Run(env, labels).events, r, req, level);
  }

  ghost predicate EnrolledBy(env: Env, events: seq<Event>, r: nat, req: Request, nonce: Bytes, t0: nat, at: nat,
                             device: Device)
    requires req.Enroll?
  {
    EnrolTried(r, req.deviceId, device, true) in events && AttestedBy(env, events, r, req, nonce, t0, at, device)
  }

  /** At the instant kept as enrolledAt the chain was accepted for a nonce the request had taken to enrol. */
  ghost predicate AttestedBy(env: Env, events: seq<Event>, r: nat, req: Request, nonce: Bytes, t0: nat, at: nat,
                             device: Device)
    requires req.Enroll?
  {
    && Yielded(events, r, req.challengeId, "enroll", nonce, t0, at) && at <= device.enrolledAt
    && VerifiedAt(env, req, nonce, device.enrolledAt, Ok(Attested(device.publicKey, device.level)))
  }

  lemma EnrolledOutcome(env: Env, events: seq<Event>, r: nat, req: Request, level: int)
    requires OutcomeOk(env, events, r, req, Enrolled(level))
    ensures req.Enroll? && exists nonce, t0: nat, at: nat, device: Device ::
              EnrolledBy(env, events, r, req, nonce, t0, at, device) && device.level == level
  {
    var a: Attested :| a.level == level && Tried(env, events, r, req, a, true);
    var nonce, t0: nat, at: nat, t: nat :| Yielded(events, r, req.Challenge(), req.Purpose(), nonce, t0, at) && at <= t
      && VerifiedAt(env, req, nonce, t, Ok(a))
        && EnrolTried(r, req.DeviceId(), Device(a.publicKey, a.level, t), true) in events;
    assert EnrolledBy(env, events, r, req, nonce, t0, at, Device(a.publicKey, a.level, t));
  }

  lemma {:induction false} LegalPrefix(env: Env, labels: seq<Label>, n: nat)
    requires Legal(env, labels) && n <= |labels|
    ensures Legal(env, labels[..n])
    ensures Run(env, labels).events[..n] == Run(env, labels[..n]).events
  {
    if n == |labels| {
      assert labels[..n] == labels;
    } else {
      LegalPrefix(env, labels[..|labels| - 1], n);
      assert labels[..|labels| - 1][..n] == labels[..n];
    }
  }

  lemma {:induction false} TimeOrder(env: Env, labels: seq<Label>, j: nat)
    requires Legal(env, labels) && j < |labels|
    ensures LastTime(labels[..j]) <= labels[j].now <= LastTime(labels)
  {
    if j < |labels| - 1 {
      TimeOrder(env, labels[..|labels| - 1], j);
      assert labels[..|labels| - 1][..j] == labels[..j];
    }
  }

  /** The last step of a run. */
  lemma {:induction false} RunStep(env: Env, labels: seq<Label>)
    requires Legal(env, labels) && labels != []
    ensures var n := |labels| - 1;
            var s, l := Run(env, labels[..n]), labels[n];
            && Legal(env, labels[..n]) && Enabled(s, l) && Run(env, labels) == Advance(env, s, l)
            && Run(env, labels).events == s.events + [EventOf(env, s.world, l)]
  {
  }

  lemma {:induction false} RunEarlier(env: Env, labels: seq<Label>)
    requires Legal(env, labels) && labels != []
    ensures var n := |labels| - 1;
            Legal(env, labels[..n]) && Run(env, labels).events[..n] == Run(env, labels[..n]).events
  {
  }

  /** What the j-th step does to the state reached before it. */
  ghost function EventAt(env: Env, labels: seq<Label>, j: nat): Event
    requires j < |labels|
  {
    EventOf(env, Run(env, labels[..j]).world, labels[j])
  }

  lemma {:induction false} LastEvent(env: Env, labels: seq<Label>)
    requires Legal(env, labels) && labels != []
    ensures Run(env, labels).events[|labels| - 1] == EventAt(env, labels, |labels| - 1)
  {
  }

  lemma {:induction false} EventBefore(env: Env, labels: seq<Label>, j: nat)
    requires Legal(env, labels) && j < |labels| - 1
    ensures var before := labels[..|labels| - 1];
            && Legal(env, before) && EventAt(env, before, j) == EventAt(env, labels, j)
            && Run(env, before).events[j] == Run(env, labels).events[j]
  {
    var before := labels[..|labels| - 1];
    RunEarlier(env, labels);
    assert before[..j] == labels[..j] && before[j] == labels[j];
    assert Run(env, labels).events[..|labels| - 1][j] == Run(env, labels).events[j];
  }

  /** The j-th event of a run is just that. */
  lemma {:induction false} EventIs(env: Env, labels: seq<Label>, j: nat)
    requires Legal(env, labels) && j < |labels|
    ensures Run(env, labels).events[j] == EventAt(env, labels, j)
  {
    if j == |labels| - 1 {
      LastEvent(env, labels);
    } else {
      EventBefore(env, labels, j);
      EventIs(env, labels[..|labels| - 1], j);
    }
  }

  /** Before that step the invariant holds, and the events are those before the j-th. */
  lemma {:induction false} StateBefore(env: Env, labels: seq<Label>, j: nat)
    requires env.maxEntries >= 1 && Legal(env, labels) && j < |labels|
    ensures Run(env, labels).events[..j] == Run(env, labels[..j]).events
    ensures Inv(env, Run(env, labels[..j]), LastTime(labels[..j])) && LastTime(labels[..j]) <= labels[j].now
  {
    LegalPrefix(env, labels, j);
    RunKeeps(env, labels[..j]);
    TimeOrder(env, labels, j);
  }

  /** A step that hands out a nonce finds its challenge unspent. */
  lemma TakenNext(env: Env, s: State, before: nat, l: Label)
    requires Inv(env, s, before) && before <= l.now && env.maxEntries >= 1
    requires var e := EventOf(env, s.world, l); e.Taken? && e.got.Some?
    ensures var e := EventOf(env, s.world, l);
            && ChallengeKey(e.id) in s.past.last
            && exists t0: nat ::
                 t0 <= e.at <= t0 + CHALLENGE_TTL_MS && Issued(e.id, e.got.value, e.purpose, t0) in s.events
  {
    var op := K.Take(ChallengeKey(l.req.Challenge()));
    K.ApplyKeeps(s.world.table, env.maxEntries, s.past, before, l.now, op);
    TakeYields(s, before, l.now, l.req.Challenge(), CallStore(env, s.world, l).1);
  }

  /** A challenge id yields its nonce to at most one request, however the requests interleave. */
  lemma SingleUse(env: Env, labels: seq<Label>, i: nat, j: nat)
    requires env.maxEntries >= 1 && Legal(env, labels) && i < j < |labels|
    requires var x, y := Run(env, labels).events[i], Run(env, labels).events[j];
             x.Taken? && x.got.Some? && y.Taken? && y.got.Some?
    ensures Run(env, labels).events[i].id != Run(env, labels).events[j].id
  {
    EventIs(env, labels, j);
    StateBefore(env, labels, j);
    var s := Run(env, labels[..j]);
    TakenNext(env, s, LastTime(labels[..j]), labels[j]);
    assert s.events[i] == Run(env, labels).events[i];
  }

  /** The challenge taken was issued, for the same purpose and with the same nonce, at most 60000 ms earlier. */
  ghost predicate IssueOf(x: Event, y: Event) {
    && x.Issued? && y.Taken? && x.id == y.id && x.purpose == y.purpose && y.got == Some(x.nonce)
    && x.at <= y.at <= x.at + CHALLENGE_TTL_MS
  }

  /** A nonce handed out was issued earlier in the run, for that purpose, at most 60000 ms before. */
  lemma {:induction false} TakenAfterIssue(env: Env, labels: seq<Label>, j: nat)
    requires env.maxEntries >= 1 && Legal(env, labels) && j < |labels|
    requires Run(env, labels).events[j].Taken? && Run(env, labels).events[j].got.Some?
    ensures exists i :: 0 <= i < j && IssueOf(Run(env, labels).events[i], Run(env, labels).events[j])
  {
    EventIs(env, labels, j);
    StateBefore(env, labels, j);
    var s, e := Run(env, labels[..j]), Run(env, labels).events[j];
    TakenNext(env, s, LastTime(labels[..j]), labels[j]);
    IssueBefore(s.events, e);
    var i :| 0 <= i < j && IssueOf(s.events[i], e);
    assert Run(env, labels).events[i] == s.events[i];
  }

  lemma IssueBefore(events: seq<Event>, e: Event)
    requires e.Taken? && e.got.Some?
    requires exists t0: nat :: t0 <= e.at <= t0 + CHALLENGE_TTL_MS && Issued(e.id, e.got.value, e.purpose, t0) in events
    ensures exists i :: 0 <= i < |events| && IssueOf(events[i], e)
  {
    var t0: nat :| t0 <= e.at <= t0 + CHALLENGE_TTL_MS && Issued(e.id, e.got.value, e.purpose, t0) in events;
    var i :| 0 <= i < |events| && events[i] == Issued(e.id, e.got.value, e.purpose, t0);
    assert IssueOf(events[i], e);
  }

  // ---------------------------------------------------------------- only attested devices

  /** Request r had asked to enrol the device under the id, and its chain attested it. */
  ghost predicate AttestedFor(env: Env, events: seq<Event>, r: nat, d: string, device: Device) {
    exists req: Request, nonce, t0: nat, at: nat ::
      req.Enroll? && req.deviceId == d && AttestedBy(env, events, r, req, nonce, t0, at, device)
  }

  /** What a step that tries to enrol knows of its request. */
  lemma TriesWith(env: Env, w: World, l: Label) returns (req: Request, nonce: Bytes)
    requires EventOf(env, w, l).EnrolTried?
    ensures var e := EventOf(env, w, l);
            && l.Resume? && l.r == e.r && e.r in w.inFlight && w.inFlight[e.r] == Consumed(req, Some(nonce))
            && req.Enroll? && req.deviceId == e.deviceId && e.device.enrolledAt == l.now
            && VerifiedAt(env, req, nonce, l.now, Ok(Attested(e.device.publicKey, e.device.level)))
  {
    req, nonce := w.inFlight[l.r].req, w.inFlight[l.r].nonce.value;
  }

  lemma TryIsAttested(env: Env, s: State, before: nat, l: Label)
    requires Inv(env, s, before) && before <= l.now && EventOf(env, s.world, l).EnrolTried?
    ensures var e := EventOf(env, s.world, l); AttestedFor(env, s.events, e.r, e.deviceId, e.device)
  {
    var e := EventOf(env, s.world, l);
    var req, nonce := TriesWith(env, s.world, l);
    assert PhaseOk(env, s.events, e.r, s.world.inFlight[e.r]);
    var t0, at :| Yielded(s.events, e.r, req.Challenge(), req.Purpose(), nonce, t0, at);
    assert AttestedBy(env, s.events, e.r, req, nonce, t0, at, e.device);
  }

  /** Whatever is enrolled was attested before: no step enrols a key that no accepted chain vouches for. */
  lemma {:induction false} EnrolmentAttested(env: Env, labels: seq<Label>, j: nat)
    requires env.maxEntries >= 1 && Legal(env, labels) && j < |labels| && Run(env, labels).events[j].EnrolTried?
    ensures var events := Run(env, labels).events;
            AttestedFor(env, events[..j], events[j].r, events[j].deviceId, events[j].device)
  {
    EventIs(env, labels, j);
    StateBefore(env, labels, j);
    TryIsAttested(env, Run(env, labels[..j]), LastTime(labels[..j]), labels[j]);
  }

  /** The device enrolled under the id by event m, which its chain attested, is still there at event k. */
  ghost predicate AttestedAt(env: Env, events: seq<Event>, m: int, k: int, d: string, device: Device) {
    && 0 <= m < k <= |events| && Enrols(events[m], d, device) && Untouched(events[..k], m, d)
    && AttestedFor(env, events[..m], events[m].r, d, device)
  }

  /** Request r looked its device up at event k and found one that was attested when it was enrolled. */
  ghost predicate LooksUpAttested(env: Env, events: seq<Event>, r: nat, d: string, device: Device) {
    exists k, m ::
      0 <= k < |events| && events[k] == LookedUp(r, d, Some(device)) && AttestedAt(env, events, m, k, d, device)
  }

  lemma {:induction false} LookupAttested(env: Env, labels: seq<Label>, r: nat, d: string, device: Device)
    requires env.maxEntries >= 1 && Legal(env, labels) && Looking(Run(env, labels).events, r, d, Some(device))
    ensures LooksUpAttested(env, Run(env, labels).events, r, d, device)
  {
    var events := Run(env, labels).events;
    var k :| 0 <= k < |events| && LookedAt(events, k, r, d, Some(device));
    var m :| 0 <= m < |events[..k]| && Enrols(events[..k][m], d, device) && Untouched(events[..k], m, d);
    assert events[..k][m] == events[m];
    EnrolmentAttested(env, labels, m);
    assert AttestedAt(env, events, m, k, d, device);
  }

  /**
   * Request r signed the nonce it took for that challenge and purpose, in time, with the key of an attested device:
   * enrolled under the id on an accepted chain, and neither deleted nor replaced when this request looked it up.
   */
  ghost predicate SignedFor(env: Env, events: seq<Event>, r: nat, id: string, purpose: string, d: string, sig: Bytes) {
    exists nonce, t0, at, device ::
      && Yielded(events, r, id, purpose, nonce, t0, at)
      && LooksUpAttested(env, events, r, d, device)
      && env.signed(device.publicKey, nonce, sig)
  }

  /** A verification is signed for a challenge to verify, a guarded request for one of the route's own purpose. */
  ghost predicate SignedAttested(env: Env, events: seq<Event>, r: nat, req: Request) {
    match req
    case Enroll(_, _, _) => false
    case Verify(id, d, sig) => SignedFor(env, events, r, id, "verify", d, sig)
    case Guarded(device, challenge, sig, purpose) =>
      && device.Some? && challenge.Some? && sig.Some?
      && SignedFor(env, events, r, challenge.value, purpose, device.value, sig.value)
  }

  /** A verified answer stands on such a signature. */
  lemma {:induction false} VerifiedTraced(env: Env, labels: seq<Label>, r: nat, req: Request)
    requires env.maxEntries >= 1 && Legal(env, labels) && r in Run(env, labels).world.inFlight
    requires var ph := Run(env, labels).world.inFlight[r];
             ph == Done(req, Verified)
               || (ph.Done? && ph.req == req && ph.outcome.Judged? && ph.outcome.context.verified)
    ensures SignedAttested(env, Run(env, labels).events, r, req)
  {
    OutcomesTraced(env, labels, r);
    SignatureAttested(env, labels, r, req);
  }

  lemma {:induction false} SignatureAttested(env: Env, labels: seq<Label>, r: nat, req: Request)
    requires env.maxEntries >= 1 && Legal(env, labels) && !req.Enroll? && Signed(env, Run(env, labels).events, r, req)
    ensures SignedAttested(env, Run(env, labels).events, r, req)
  {
    var events := Run(env, labels).events;
    var nonce, device :| Holds(events, r, req, nonce) && Looking(events, r, req.DeviceId(), Some(device))
      && env.signed(device.publicKey, nonce, req.Signature());
    var t0, at :| Yielded(events, r, req.Challenge(), req.Purpose(), nonce, t0, at);
    LookupAttested(env, labels, r, req.DeviceId(), device);
    assert SignedFor(env, events, r, req.Challenge(), req.Purpose(), req.DeviceId(), req.Signature());
  }

  /** Under the `required` policy only attested devices get past the guard. */
  lemma {:induction false} GuardAdmits(env: Env, labels: seq<Label>, r: nat, req: Request, context: Context)
    requires env.maxEntries >= 1 && Legal(env, labels) && r in Run(env, labels).world.inFlight
    requires Run(env, labels).world.inFlight[r] == Done(req, Judged(context, true)) && env.deviceRequired
    ensures context.verified && SignedAttested(env, Run(env, labels).events, r, req)
  {
    OutcomesTraced(env, labels, r);
    VerifiedTraced(env, labels, r, req);
  }

  // ---------------------------------------------------------------- one key per device

  /** The store key a step wrote, if it wrote one. */
  ghost function Written(e: Event): set<string> {
    match e
    case Issued(id, _, _, _) => {ChallengeKey(id)}
    case EnrolTried(_, d, _, true) => {DeviceKey(d)}
    case _ => {}
  }

  /** The other keys written since the i-th event. */
  ghost function OtherWrites(events: seq<Event>, i: int, key: string): set<string> {
    if events == [] || |events| - 1 <= i then {}
    else OtherWrites(events[..|events| - 1], i, key) + (Written(events[|events| - 1]) - {key})
  }

  /** What the store was told last about a key, written by the i-th event. */
  ghost predicate Kept(s: State, i: int, key: string, entry: K.Entry<Stored>) {
    && key in s.past.last && s.past.last[key] == entry
    && Since(s.past.log, key) == OtherWrites(s.events, i, key)
  }

  ghost predicate Binding(s: State, i: int, d: string, device: Device) {
    Kept(s, i, DeviceKey(d), K.Entry(DeviceRecord(device), K.Never))
  }

  lemma AdvanceBinds(env: Env, s: State, l: Label, d: string)
    requires var e := EventOf(env, s.world, l); e.EnrolTried? && e.ok && e.deviceId == d
    ensures Binding(Advance(env, s, l), |s.events|, d, EventOf(env, s.world, l).device)
  {
    SinceLonger(s.past.log, DeviceKey(d), DeviceKey(d));
  }

  lemma AdvanceKeepsBinding(env: Env, s: State, l: Label, i: nat, d: string, device: Device)
    requires Binding(s, i, d, device) && i < |s.events|
    requires var e := EventOf(env, s.world, l); e != Deleted(d) && !(e.EnrolTried? && e.ok && e.deviceId == d)
    ensures Binding(Advance(env, s, l), i, d, device)
  {
    var e, s' := EventOf(env, s.world, l), Advance(env, s, l);
    assert s'.events[..|s.events|] == s.events;
    if l.Resume? {
      ResumeKeepsBinding(env, s, l, d);
    } else {
      OtherStepKeepsBinding(env, s, l, d);
    }
  }

  /** A resumed request writes at most the key of the device it enrols. */
  lemma ResumeKeepsBinding(env: Env, s: State, l: Label, d: string)
    requires l.Resume? && DeviceKey(d) in s.past.last
    requires var e := EventOf(env, s.world, l); !(e.EnrolTried? && e.ok && e.deviceId == d)
    ensures var p, e := Advance(env, s, l).past, EventOf(env, s.world, l);
            && DeviceKey(d) in p.last && p.last[DeviceKey(d)] == s.past.last[DeviceKey(d)]
            && Since(p.log, DeviceKey(d)) == Since(s.past.log, DeviceKey(d)) + (Written(e) - {DeviceKey(d)})
  {
    var e := EventOf(env, s.world, l);
    EventCall(env, s.world, l);
    if e.EnrolTried? {
      var op, out := StoreCall(env, s.world, l).value, CallStore(env, s.world, l).1;
      EnrolPast(s.past, env.maxEntries, l.now, op, out, e.deviceId, d);
    }
  }

  lemma EnrolPast(p: K.Past<Stored>, maxEntries: nat, now: nat, op: K.Op<Stored>, out: K.Output<Stored>, x: string,
                  d: string)
    requires op.PutIfAbsent? && op.key == DeviceKey(x) && DeviceKey(d) in p.last
    requires out == K.Flag(true) ==> x != d
    ensures var p' := K.Recall(p, maxEntries, now, op, out);
            && DeviceKey(d) in p'.last && p'.last[DeviceKey(d)] == p.last[DeviceKey(d)]
            && Since(p'.log, DeviceKey(d))
               == Since(p.log, DeviceKey(d)) + if out == K.Flag(true) then {DeviceKey(x)} else {}
  {
    KeysApart(x, d);
    SinceLonger(p.log, DeviceKey(x), DeviceKey(d));
  }

  lemma OtherStepKeepsBinding(env: Env, s: State, l: Label, d: string)
    requires !l.Resume? && DeviceKey(d) in s.past.last && EventOf(env, s.world, l) != Deleted(d)
    ensures var p, e := Advance(env, s, l).past, EventOf(env, s.world, l);
            && DeviceKey(d) in p.last && p.last[DeviceKey(d)] == s.past.last[DeviceKey(d)]
            && Since(p.log, DeviceKey(d)) == Since(s.past.log, DeviceKey(d)) + (Written(e) - {DeviceKey(d)})
  {
    match l
    case Issue(_, id, _, _) =>
      KeysApart(id, d);
      SinceLonger(s.past.log, ChallengeKey(id), DeviceKey(d));
    case Arrive(_, _, req) => KeysApart(req.Challenge(), d);
    case Delete(_, x) =>
      KeysApart(x, d);
      KeysApart(d, x);
  }

  lemma {:induction false} BindingFirst(env: Env, labels: seq<Label>, d: string, device: Device)
    requires Legal(env, labels) && labels != [] && Enrols(Run(env, labels).events[|labels| - 1], d, device)
    ensures Binding(Run(env, labels), |labels| - 1, d, device)
  {
    RunStep(env, labels);
    AdvanceBinds(env, Run(env, labels[..|labels| - 1]), labels[|labels| - 1], d);
  }

  lemma {:induction false} BindingStep(env: Env, s: State, l: Label, i: nat, d: string, device: Device)
    requires Binding(s, i, d, device) && i < |s.events| && Untouched(s.events + [EventOf(env, s.world, l)], i, d)
    ensures Binding(Advance(env, s, l), i, d, device)
  {
    StillUntouched(s.events, EventOf(env, s.world, l), i, d);
    AdvanceKeepsBinding(env, s, l, i, d, device);
  }

  lemma {:induction false} BindingNext(env: Env, labels: seq<Label>, i: nat, d: string, device: Device)
    requires Legal(env, labels) && i < |labels| - 1 && Untouched(Run(env, labels).events, i, d)
    requires Binding(Run(env, labels[..|labels| - 1]), i, d, device)
    ensures Binding(Run(env, labels), i, d, device)
  {
    RunStep(env, labels);
    BindingStep(env, Run(env, labels[..|labels| - 1]), labels[|labels| - 1], i, d, device);
  }

  lemma {:induction false} UntouchedBefore(env: Env, labels: seq<Label>, i: nat, d: string, device: Device)
    requires Legal(env, labels) && i < |labels| - 1 && Untouched(Run(env, labels).events, i, d)
    requires Enrols(Run(env, labels).events[i], d, device)
    ensures var before := labels[..|labels| - 1];
            && Legal(env, before) && Enrols(Run(env, before).events[i], d, device)
            && Untouched(Run(env, before).events, i, d)
  {
    var n, events := |labels| - 1, Run(env, labels).events;
    RunEarlier(env, labels);
    assert events == events[..n] + [events[n]];
    StillUntouched(events[..n], events[n], i, d);
  }

  lemma {:induction false} BindingLasts(env: Env, labels: seq<Label>, i: nat, d: string, device: Device)
    requires Legal(env, labels) && i < |labels| && Enrols(Run(env, labels).events[i], d, device)
    requires Untouched(Run(env, labels).events, i, d)
    ensures Binding(Run(env, labels), i, d, device)
  {
    if i == |labels| - 1 {
      BindingFirst(env, labels, d, device);
    } else {
      UntouchedBefore(env, labels, i, d, device);
      BindingLasts(env, labels[..|labels| - 1], i, d, device);
      BindingNext(env, labels, i, d, device);
    }
  }

  lemma StillUntouched(events: seq<Event>, e: Event, i: int, d: string)
    requires Untouched(events + [e], i, d) && i < |events|
    ensures Untouched(events, i, d) && e != Deleted(d) && !(e.EnrolTried? && e.ok && e.deviceId == d)
  {
    assert (events + [e])[|events|] == e;
    forall m | i < m < |events| && 0 <= m ensures events[m] == (events + [e])[m] {
    }
  }

  /** What a step may do to a device that is enrolled and not crowded out. */
  lemma BoundNext(env: Env, s: State, before: nat, l: Label, i: int, d: string, device: Device)
    requires K.Faithful(s.world.table, env.maxEntries, s.past, before) && before <= l.now && env.maxEntries >= 1
    requires Binding(s, i, d, device) && DeviceKey(d) !in s.past.crowded
    ensures var e := EventOf(env, s.world, l);
            && (e.LookedUp? && e.deviceId == d ==> e.found == Some(device))
            && (e.EnrolTried? && e.deviceId == d ==> !e.ok)
  {
    var op, e := StoreCall(env, s.world, l), EventOf(env, s.world, l);
    EventCall(env, s.world, l);
    if (e.LookedUp? || e.EnrolTried?) && e.deviceId == d {
      K.ApplyKeeps(s.world.table, env.maxEntries, s.past, before, l.now, op.value);
      BoundAnswer(s.past, l.now, op.value, CallStore(env, s.world, l).1, d, device);
    }
  }

  /** The store's answer about a device that is enrolled and not crowded out. */
  lemma BoundAnswer(p: K.Past<Stored>, now: nat, op: K.Op<Stored>, out: K.Output<Stored>, d: string, device: Device)
    requires K.Right(p, now, op, out) && op.key == DeviceKey(d) && (op.Get? || op.PutIfAbsent?)
    requires DeviceKey(d) in p.last && p.last[DeviceKey(d)] == K.Entry(DeviceRecord(device), K.Never)
    requires DeviceKey(d) !in p.crowded
    ensures out == if op.Get? then K.Value(Some(DeviceRecord(device))) else K.Flag(false)
  {
  }

  // ---------------------------------------------------------------- when a key may be crowded out

  /** What the event wrote has not expired: a device never does, a challenge after 60000 ms. */
  ghost predicate StillLive(e: Event, now: nat) { e.Issued? ==> now <= e.at + CHALLENGE_TTL_MS }

  /** The other keys written since the i-th event and not expired. */
  ghost function LiveWrites(events: seq<Event>, i: int, key: string, now: nat): set<string> {
    if events == [] || |events| - 1 <= i then {}
    else
      var n := |events| - 1;
      LiveWrites(events[..n], i, key, now) + if StillLive(events[n], now) then Written(events[n]) - {key} else {}
  }

  /** At no step before the j-th were maxEntries other keys, written since the i-th event, unexpired at once. */
  ghost predicate Roomy(env: Env, labels: seq<Label>, i: int, j: int, key: string)
    requires 0 <= i < j <= |labels|
  {
    forall m | i < m < j ::
      |LiveWrites(Run(env, labels).events[..m + 1], i, key, labels[m].now)| < env.maxEntries
  }

  lemma {:induction false} LiveAmongOthers(events: seq<Event>, i: int, key: string, now: nat)
    ensures LiveWrites(events, i, key, now) <= OtherWrites(events, i, key)
  {
    if events != [] && |events| - 1 > i {
      LiveAmongOthers(events[..|events| - 1], i, key, now);
    }
  }

  lemma {:induction false} OtherWritesGrow(events: seq<Event>, i: int, key: string, m: nat)
    requires m <= |events|
    ensures OtherWrites(events[..m], i, key) <= OtherWrites(events, i, key)
  {
    if m == |events| {
      assert events[..m] == events;
    } else {
      OtherWritesGrow(events[..|events| - 1], i, key, m);
      assert events[..|events| - 1][..m] == events[..m];
    }
  }

  lemma LiveAmongLater(part: seq<Event>, events: seq<Event>, i: int, key: string, now: nat)
    requires part <= events
    ensures |LiveWrites(part, i, key, now)| <= |OtherWrites(events, i, key)|
  {
    LiveAmongOthers(part, i, key, now);
    OtherWritesGrow(events, i, key, |part|);
    assert events[..|part|] == part;
    SubsetSize(LiveWrites(part, i, key, now), OtherWrites(events, i, key));
  }

  /** Fewer than maxEntries other writes leave room, expired or not. */
  lemma {:induction false} FewWritesRoomy(env: Env, labels: seq<Label>, i: nat, j: nat, key: string)
    requires i < j <= |labels| && |OtherWrites(Run(env, labels).events[..j], i, key)| < env.maxEntries
    ensures Roomy(env, labels, i, j, key)
  {
    var events := Run(env, labels).events;
    forall m | i < m < j ensures |LiveWrites(events[..m + 1], i, key, labels[m].now)| < env.maxEntries {
      var part := events[..m + 1];
      assert part <= events[..j];
      LiveAmongLater(part, events[..j], i, key, labels[m].now);
    }
  }

  /** No challenge id is issued twice. */
  ghost predicate IssuedOnce(events: seq<Event>) {
    forall a, b | 0 <= a < b < |events| && events[a].Issued? && events[b].Issued? :: events[a].id != events[b].id
  }

  lemma {:induction false} IdsFresh(env: Env, labels: seq<Label>)
    requires Legal(env, labels)
    ensures IssuedOnce(Run(env, labels).events)
  {
    if labels != [] {
      var n := |labels| - 1;
      IdsFresh(env, labels[..n]);
      RunStep(env, labels);
      IdsFreshNext(env, Run(env, labels[..n]), labels[n]);
    }
  }

  lemma IdsFreshNext(env: Env, s: State, l: Label)
    requires IssuedOnce(s.events) && Enabled(s, l)
    ensures IssuedOnce(s.events + [EventOf(env, s.world, l)])
  {
    var e := EventOf(env, s.world, l);
    var events := s.events + [e];
    forall a, b | 0 <= a < b < |events| && events[a].Issued? && events[b].Issued? ensures events[a].id != events[b].id {
      assert events[a] == s.events[a];
    }
  }

  lemma {:induction false} WrittenSince(events: seq<Event>, i: int, key: string, x: string)
    requires x in OtherWrites(events, i, key)
    ensures exists m :: 0 <= m < |events| && i < m && x in Written(events[m]) && x != key
  {
    var n := |events| - 1;
    if x in OtherWrites(events[..n], i, key) {
      WrittenSince(events[..n], i, key, x);
      var m :| 0 <= m < n && i < m && x in Written(events[..n][m]) && x != key;
      assert events[m] == events[..n][m];
    } else {
      assert x in Written(events[n]);
    }
  }

  lemma {:induction false} LiveWritten(events: seq<Event>, i: int, key: string, now: nat, m: int, x: string)
    requires 0 <= m < |events| && i < m && x in Written(events[m]) && x != key && StillLive(events[m], now)
    ensures x in LiveWrites(events, i, key, now)
  {
    var n := |events| - 1;
    if m < n {
      LiveWritten(events[..n], i, key, now, m, x);
    }
  }

  /** The unexpired keys written later, as the store was told, are those of the events. */
  lemma LiveAreWrites(p: K.Past<Stored>, events: seq<Event>, i: int, key: string, now: nat)
    requires ChallengesIssued(p.last, events, now) && IssuedOnce(events)
    requires Since(p.log, key) == OtherWrites(events, i, key)
    ensures K.LiveSince(p.log, p.last, key, now) <= LiveWrites(events, i, key, now)
  {
    forall x | x in K.LiveSince(p.log, p.last, key, now) ensures x in LiveWrites(events, i, key, now) {
      WrittenSince(events, i, key, x);
      var m :| 0 <= m < |events| && i < m && x in Written(events[m]) && x != key;
      if events[m].Issued? {
        IssuedLive(p.last, events, m, now);
      }
      LiveWritten(events, i, key, now, m, x);
    }
  }

  lemma IssuedLive(last: map<string, K.Entry<Stored>>, events: seq<Event>, m: nat, now: nat)
    requires ChallengesIssued(last, events, now) && IssuedOnce(events) && m < |events| && events[m].Issued?
    requires var x := ChallengeKey(events[m].id); x in last && !K.Expired(last[x].expiresAt, now)
    ensures StillLive(events[m], now)
  {
    var e := last[ChallengeKey(events[m].id)];
    assert ChallengeIssued(e, events, events[m].id, now);
    var a :| 0 <= a < |events|
      && events[a] == Issued(events[m].id, e.value.nonce, e.value.purpose, e.expiresAt.ms - CHALLENGE_TTL_MS);
    SameIssue(events, a, m);
  }

  lemma SameIssue(events: seq<Event>, a: int, b: int)
    requires IssuedOnce(events) && 0 <= a < |events| && 0 <= b < |events|
    requires events[a].Issued? && events[b].Issued? && events[a].id == events[b].id
    ensures a == b
  {
  }

  /** The store counts for a key what the events count. */
  ghost predicate SinceIs(s: State, i: int, key: string) { Since(s.past.log, key) == OtherWrites(s.events, i, key) }

  lemma WriteUncrowds(env: Env, s: State, l: Label, key: string)
    requires key in Written(EventOf(env, s.world, l))
    ensures key !in Advance(env, s, l).past.crowded
  {
    EventCall(env, s.world, l);
  }

  /** A step crowds a key out only with maxEntries live writes. */
  lemma StepUncrowds(env: Env, s: State, l: Label, i: int, key: string)
    requires key !in s.past.crowded
    requires var s' := Advance(env, s, l);
             && SinceIs(s', i, key) && ChallengesIssued(s'.past.last, s'.events, l.now) && IssuedOnce(s'.events)
             && |LiveWrites(s'.events, i, key, l.now)| < env.maxEntries
    ensures key !in Advance(env, s, l).past.crowded
  {
    var op, s' := StoreCall(env, s.world, l), Advance(env, s, l);
    LiveAreWrites(s'.past, s'.events, i, key, l.now);
    SubsetSize(K.LiveSince(s'.past.log, s'.past.last, key, l.now), LiveWrites(s'.events, i, key, l.now));
    if op.Some? {
      K.StaysUncrowded(s.past, env.maxEntries, l.now, op.value, CallStore(env, s.world, l).1, key);
    }
  }

  lemma {:induction false} LastState(env: Env, labels: seq<Label>, l: Label)
    requires env.maxEntries >= 1 && Legal(env, labels) && labels != [] && labels[|labels| - 1] == l
    ensures var s := Run(env, labels);
            IssuedOnce(s.events) && ChallengesIssued(s.past.last, s.events, l.now)
  {
    RunKeeps(env, labels);
    IdsFresh(env, labels);
  }

  lemma {:induction false} LastStep(env: Env, before: seq<Label>, labels: seq<Label>, l: Label)
    requires Legal(env, labels) && labels == before + [l]
    ensures Legal(env, before) && Enabled(Run(env, before), l)
    ensures Run(env, labels) == Advance(env, Run(env, before), l)
  {
    assert labels[..|labels| - 1] == before;
    RunStep(env, labels);
  }

  /** The n-th state of a run, and the step that leads to it. */
  lemma {:induction false} StepTo(env: Env, labels: seq<Label>, j: nat, n: nat)
    requires env.maxEntries >= 1 && Legal(env, labels) && n == j + 1 <= |labels|
    ensures Run(env, labels[..n]) == Advance(env, Run(env, labels[..j]), labels[j])
    ensures Enabled(Run(env, labels[..j]), labels[j])
    ensures var s := Run(env, labels[..n]);
            && s.events == Run(env, labels).events[..n] && IssuedOnce(s.events)
            && ChallengesIssued(s.past.last, s.events, labels[j].now)
  {
    LegalPrefix(env, labels, n);
    TakeOne(labels, j, n);
    LastStep(env, labels[..j], labels[..n], labels[j]);
    LastState(env, labels[..n], labels[j]);
  }

  /** A key written by the i-th event is not crowded out while there is room. */
  lemma {:induction false} NeverCrowded(env: Env, labels: seq<Label>, i: nat, j: nat, key: string)
    requires env.maxEntries >= 1 && Legal(env, labels) && i < j <= |labels| && Roomy(env, labels, i, j, key)
    requires key in Written(Run(env, labels).events[i])
    requires forall n | i < n <= j :: SinceIs(Run(env, labels[..n]), i, key)
    ensures key !in Run(env, labels[..j]).past.crowded
  {
    var m := j - 1;
    StepTo(env, labels, m, j);
    if m == i {
      EventIs(env, labels, i);
      WriteUncrowds(env, Run(env, labels[..i]), labels[i], key);
    } else {
      NeverCrowded(env, labels, i, m, key);
      assert Run(env, labels).events[..m + 1] == Run(env, labels).events[..j];
      StepUncrowds(env, Run(env, labels[..m]), labels[m], i, key);
    }
  }

  /**
   * Once a device id is enrolled, every lookup returns that very device and every later enrolment of it is
   * refused, until it is deleted or maxEntries other keys, written since, are unexpired at once.
   */
  lemma {:induction false} OneKeyPerDevice(env: Env, labels: seq<Label>, i: nat, j: nat, d: string)
    requires env.maxEntries >= 1 && Legal(env, labels) && i < j < |labels|
    requires var x := Run(env, labels).events[i]; x.EnrolTried? && x.ok && x.deviceId == d
    requires forall m | i < m < j :: Run(env, labels).events[m] != Deleted(d)
    requires Roomy(env, labels, i, j, DeviceKey(d))
    ensures var x, y := Run(env, labels).events[i], Run(env, labels).events[j];
            && (y.LookedUp? && y.deviceId == d ==> y.found == Some(x.device))
            && (y.EnrolTried? && y.deviceId == d ==> !y.ok)
    decreases j
  {
    var events := Run(env, labels).events;
    if m: nat :| i < m < j && events[m].EnrolTried? && events[m].ok && events[m].deviceId == d {
      OneKeyPerDevice(env, labels, i, m, d);
    } else {
      BoundAt(env, labels, i, j, d);
    }
  }

  lemma {:induction false} DeviceUncrowded(env: Env, labels: seq<Label>, i: nat, j: nat, d: string)
    requires env.maxEntries >= 1 && Legal(env, labels) && i < j <= |labels|
    requires var x := Run(env, labels).events[i]; x.EnrolTried? && x.ok && x.deviceId == d
    requires Untouched(Run(env, labels).events[..j], i, d) && Roomy(env, labels, i, j, DeviceKey(d))
    ensures DeviceKey(d) !in Run(env, labels[..j]).past.crowded
  {
    var events := Run(env, labels).events;
    forall n: nat | i < n <= j ensures SinceIs(Run(env, labels[..n]), i, DeviceKey(d)) {
      LegalPrefix(env, labels, n);
      assert events[..n][i] == events[i];
      UntouchedLess(events, i, n, j, d);
      BindingLasts(env, labels[..n], i, d, events[i].device);
    }
    NeverCrowded(env, labels, i, j, DeviceKey(d));
  }

  lemma UntouchedLess(events: seq<Event>, i: nat, n: nat, j: nat, d: string)
    requires i < n <= j <= |events| && Untouched(events[..j], i, d)
    ensures Untouched(events[..n], i, d)
  {
    assert forall m | 0 <= m < n :: events[..n][m] == events[..j][m];
  }

  lemma BoundAt(env: Env, labels: seq<Label>, i: nat, j: nat, d: string)
    requires env.maxEntries >= 1 && Legal(env, labels) && i < j < |labels|
    requires var x := Run(env, labels).events[i]; x.EnrolTried? && x.ok && x.deviceId == d
    requires Untouched(Run(env, labels).events[..j], i, d)
    requires Roomy(env, labels, i, j, DeviceKey(d))
    ensures var x, y := Run(env, labels).events[i], Run(env, labels).events[j];
            && (y.LookedUp? && y.deviceId == d ==> y.found == Some(x.device))
            && (y.EnrolTried? && y.deviceId == d ==> !y.ok)
  {
    var s, events := Run(env, labels[..j]), Run(env, labels).events;
    EventIs(env, labels, j);
    StateBefore(env, labels, j);
    LegalPrefix(env, labels, j);
    assert s.events == events[..j] && s.events[i] == events[i];
    BindingLasts(env, labels[..j], i, d, events[i].device);
    DeviceUncrowded(env, labels, i, j, d);
    BoundNext(env, s, LastTime(labels[..j]), labels[j], i, d, events[i].device);
  }

  // ---------------------------------------------------------------- lookups and enrolments, exactly

  /** A lookup finds the device enrolled at that moment, or nothing: never one deleted or replaced before. */
  lemma LookupIsCurrent(env: Env, labels: seq<Label>, j: nat)
    requires env.maxEntries >= 1 && Legal(env, labels) && j < |labels|
    requires Run(env, labels).events[j].LookedUp? && Run(env, labels).events[j].found.Some?
    ensures var e := Run(env, labels).events[j]; EnrolledIn(Run(env, labels).events[..j], e.deviceId, e.found.value)
  {
    var s := Run(env, labels[..j]);
    EventIs(env, labels, j);
    StateBefore(env, labels, j);
    LookupNext(env, s, LastTime(labels[..j]), labels[j]);
  }

  lemma LookupNext(env: Env, s: State, before: nat, l: Label)
    requires Inv(env, s, before) && before <= l.now && env.maxEntries >= 1
    requires EventOf(env, s.world, l).LookedUp? && EventOf(env, s.world, l).found.Some?
    ensures var e := EventOf(env, s.world, l); EnrolledIn(s.events, e.deviceId, e.found.value)
  {
    var e := EventOf(env, s.world, l);
    EventCall(env, s.world, l);
    StoreFaithful(env, s, before, l);
    assert DeviceBound(s.past.last[DeviceKey(e.deviceId)], s.events, e.deviceId);
  }

  /** An enrolment succeeds exactly when the id is not in the store, be it never enrolled, deleted or evicted. */
  lemma EnrolsIff(env: Env, labels: seq<Label>, j: nat)
    requires env.maxEntries >= 1 && Legal(env, labels) && j < |labels| && Run(env, labels).events[j].EnrolTried?
    ensures var e := Run(env, labels).events[j];
            e.ok <==> DeviceKey(e.deviceId) !in Run(env, labels[..j]).world.table.dict
  {
    var s := Run(env, labels[..j]);
    EventIs(env, labels, j);
    StateBefore(env, labels, j);
    EnrolNext(env, s, LastTime(labels[..j]), labels[j]);
  }

  lemma EnrolNext(env: Env, s: State, before: nat, l: Label)
    requires Inv(env, s, before) && EventOf(env, s.world, l).EnrolTried?
    ensures var e := EventOf(env, s.world, l); e.ok <==> DeviceKey(e.deviceId) !in s.world.table.dict
  {
    var e := EventOf(env, s.world, l);
    EventCall(env, s.world, l);
    if DeviceKey(e.deviceId) in s.world.table.dict {
      assert DeviceBound(s.past.last[DeviceKey(e.deviceId)], s.events, e.deviceId);
    }
  }

  // ---------------------------------------------------------------- what must succeed

  /** A step that neither issues nor takes a challenge leaves what the store was told about it. */
  lemma StepKeepsChallenge(env: Env, s: State, l: Label, id: string)
    requires ChallengeKey(id) in s.past.last
    requires var e := EventOf(env, s.world, l); !((e.Issued? || e.Taken?) && e.id == id)
    ensures var p, e, k := Advance(env, s, l).past, EventOf(env, s.world, l), ChallengeKey(id);
            && k in p.last && p.last[k] == s.past.last[k]
            && Since(p.log, k) == Since(s.past.log, k) + (Written(e) - {k})
  {
    match l
    case Issue(_, x, _, _) =>
      KeysApart(x, id);
      SinceLonger(s.past.log, ChallengeKey(x), ChallengeKey(id));
    case Arrive(_, _, req) => KeysApart(req.Challenge(), id);
    case Delete(_, x) => KeysApart(id, x);
    case Resume(_, _) => ResumeKeepsChallenge(env, s, l, id);
  }

  lemma ResumeKeepsChallenge(env: Env, s: State, l: Label, id: string)
    requires l.Resume? && ChallengeKey(id) in s.past.last
    ensures var p, e, k := Advance(env, s, l).past, EventOf(env, s.world, l), ChallengeKey(id);
            && k in p.last && p.last[k] == s.past.last[k]
            && Since(p.log, k) == Since(s.past.log, k) + (Written(e) - {k})
  {
    var e := EventOf(env, s.world, l);
    EventCall(env, s.world, l);
    if e.EnrolTried? {
      KeysApart(id, e.deviceId);
      SinceLonger(s.past.log, DeviceKey(e.deviceId), ChallengeKey(id));
    }
  }

  function ChallengeEntry(e: Event): K.Entry<Stored>
    requires e.Issued?
  {
    K.Entry(ChallengeRecord(e.nonce, e.purpose), K.At(e.at + CHALLENGE_TTL_MS))
  }

  ghost predicate NotTaken(events: seq<Event>, i: int, id: string) {
    forall m | i < m < |events| && 0 <= m :: !(events[m].Taken? && events[m].id == id)
  }

  lemma StillNotTaken(events: seq<Event>, e: Event, i: int, id: string)
    requires NotTaken(events + [e], i, id) && i < |events|
    ensures NotTaken(events, i, id) && !(e.Taken? && e.id == id)
  {
    assert (events + [e])[|events|] == e;
    forall m | i < m < |events| && 0 <= m ensures events[m] == (events + [e])[m] {
    }
  }

  lemma AdvanceIssues(env: Env, s: State, l: Label)
    requires l.Issue?
    ensures Kept(Advance(env, s, l), |s.events|, ChallengeKey(l.id), ChallengeEntry(EventOf(env, s.world, l)))
  {
    SinceLonger(s.past.log, ChallengeKey(l.id), ChallengeKey(l.id));
  }

  lemma AdvanceKeepsChallenge(env: Env, s: State, l: Label, i: nat, id: string, entry: K.Entry<Stored>)
    requires Kept(s, i, ChallengeKey(id), entry) && i < |s.events|
    requires var e := EventOf(env, s.world, l); !((e.Issued? || e.Taken?) && e.id == id)
    ensures Kept(Advance(env, s, l), i, ChallengeKey(id), entry)
  {
    StepKeepsChallenge(env, s, l, id);
    assert Advance(env, s, l).events[..|s.events|] == s.events;
  }

  /** No challenge is issued under an id that was issued before. */
  lemma FreshId(env: Env, s: State, l: Label, i: nat)
    requires Enabled(s, l) && i < |s.events| && s.events[i].Issued?
    ensures var e := EventOf(env, s.world, l); e.Issued? ==> e.id != s.events[i].id
  {
  }

  lemma {:induction false} ChallengeLastsStep(env: Env, s: State, l: Label, i: nat)
    requires Enabled(s, l) && i < |s.events| && s.events[i].Issued?
    requires NotTaken(s.events + [EventOf(env, s.world, l)], i, s.events[i].id)
    requires Kept(s, i, ChallengeKey(s.events[i].id), ChallengeEntry(s.events[i]))
    ensures Kept(Advance(env, s, l), i, ChallengeKey(s.events[i].id), ChallengeEntry(s.events[i]))
  {
    FreshId(env, s, l, i);
    StillNotTaken(s.events, EventOf(env, s.world, l), i, s.events[i].id);
    AdvanceKeepsChallenge(env, s, l, i, s.events[i].id, ChallengeEntry(s.events[i]));
  }

  lemma {:induction false} ChallengeFirst(env: Env, labels: seq<Label>, e: Event)
    requires Legal(env, labels) && labels != [] && Run(env, labels).events[|labels| - 1] == e && e.Issued?
    ensures Kept(Run(env, labels), |labels| - 1, ChallengeKey(e.id), ChallengeEntry(e))
  {
    RunStep(env, labels);
    AdvanceIssues(env, Run(env, labels[..|labels| - 1]), labels[|labels| - 1]);
  }

  lemma {:induction false} ChallengeNext(env: Env, labels: seq<Label>, i: nat, e: Event)
    requires Legal(env, labels) && i < |labels| - 1 && Run(env, labels).events[i] == e && e.Issued?
    requires NotTaken(Run(env, labels).events, i, e.id)
    requires Kept(Run(env, labels[..|labels| - 1]), i, ChallengeKey(e.id), ChallengeEntry(e))
    ensures Kept(Run(env, labels), i, ChallengeKey(e.id), ChallengeEntry(e))
  {
    RunStep(env, labels);
    ChallengeLastsStep(env, Run(env, labels[..|labels| - 1]), labels[|labels| - 1], i);
  }

  lemma {:induction false} NotTakenBefore(env: Env, labels: seq<Label>, i: nat, e: Event)
    requires Legal(env, labels) && i < |labels| - 1 && Run(env, labels).events[i] == e
    requires e.Issued? && NotTaken(Run(env, labels).events, i, e.id)
    ensures var before := labels[..|labels| - 1];
            Legal(env, before) && Run(env, before).events[i] == e && NotTaken(Run(env, before).events, i, e.id)
  {
    var n, events := |labels| - 1, Run(env, labels).events;
    RunEarlier(env, labels);
    assert events == events[..n] + [events[n]];
    StillNotTaken(events[..n], events[n], i, e.id);
  }

  lemma {:induction false} ChallengeLasts(env: Env, labels: seq<Label>, i: nat, e: Event)
    requires Legal(env, labels) && i < |labels| && Run(env, labels).events[i] == e && e.Issued?
    requires NotTaken(Run(env, labels).events, i, e.id)
    ensures Kept(Run(env, labels), i, ChallengeKey(e.id), ChallengeEntry(e))
  {
    if i == |labels| - 1 {
      ChallengeFirst(env, labels, e);
    } else {
      NotTakenBefore(env, labels, i, e);
      ChallengeLasts(env, labels[..|labels| - 1], i, e);
      ChallengeNext(env, labels, i, e);
    }
  }

  /**
   * A challenge works: the first request to ask for it, for its purpose and within 60000 ms, gets its nonce,
   * unless maxEntries other keys, written since it was issued, are unexpired at once.
   */
  lemma ChallengeYields(env: Env, labels: seq<Label>, i: nat, j: nat)
    requires env.maxEntries >= 1 && Legal(env, labels) && i < j < |labels| && Run(env, labels).events[i].Issued?
    requires labels[j].Arrive? && Refusal(env, labels[j].req).None?
    requires var e, req := Run(env, labels).events[i], labels[j].req;
             && req.Challenge() == e.id && req.Purpose() == e.purpose && labels[j].now <= e.at + CHALLENGE_TTL_MS
             && NotTaken(Run(env, labels).events[..j], i, e.id)
             && Roomy(env, labels, i, j, ChallengeKey(e.id))
    ensures var e, l := Run(env, labels).events[i], labels[j];
            Run(env, labels).events[j] == Taken(l.r, e.id, e.purpose, Some(e.nonce), l.now)
  {
    var s, e := Run(env, labels[..j]), Run(env, labels).events[i];
    EventIs(env, labels, j);
    StateBefore(env, labels, j);
    LegalPrefix(env, labels, j);
    assert s.events[i] == e;
    ChallengeLasts(env, labels[..j], i, e);
    ChallengeUncrowded(env, labels, i, j, e);
    TakeKept(env, s, LastTime(labels[..j]), labels[j], i, e);
  }

  lemma {:induction false} ChallengeUncrowded(env: Env, labels: seq<Label>, i: nat, j: nat, e: Event)
    requires env.maxEntries >= 1 && Legal(env, labels) && i < j <= |labels| && Run(env, labels).events[i] == e
    requires e.Issued? && NotTaken(Run(env, labels).events[..j], i, e.id)
    requires Roomy(env, labels, i, j, ChallengeKey(e.id))
    ensures ChallengeKey(e.id) !in Run(env, labels[..j]).past.crowded
  {
    var events := Run(env, labels).events;
    forall n: nat | i < n <= j ensures SinceIs(Run(env, labels[..n]), i, ChallengeKey(e.id)) {
      LegalPrefix(env, labels, n);
      assert events[..n][i] == e;
      NotTakenLess(events, i, n, j, e.id);
      ChallengeLasts(env, labels[..n], i, e);
    }
    NeverCrowded(env, labels, i, j, ChallengeKey(e.id));
  }

  lemma NotTakenLess(events: seq<Event>, i: nat, n: nat, j: nat, id: string)
    requires i < n <= j <= |events| && NotTaken(events[..j], i, id)
    ensures NotTaken(events[..n], i, id)
  {
    assert forall m | 0 <= m < n :: events[..n][m] == events[..j][m];
  }

  lemma TakeKept(env: Env, s: State, before: nat, l: Label, i: int, e: Event)
    requires env.maxEntries >= 1 && K.Faithful(s.world.table, env.maxEntries, s.past, before) && before <= l.now
    requires e.Issued? && Kept(s, i, ChallengeKey(e.id), ChallengeEntry(e))
      && ChallengeKey(e.id) !in s.past.crowded
    requires l.Arrive? && Refusal(env, l.req).None? && l.req.Challenge() == e.id && l.req.Purpose() == e.purpose
    requires l.now <= e.at + CHALLENGE_TTL_MS
    ensures EventOf(env, s.world, l) == Taken(l.r, e.id, e.purpose, Some(e.nonce), l.now)
  {
    StoreFaithful(env, s, before, l);
    assert CallStore(env, s.world, l).1 == K.Value(Some(ChallengeRecord(e.nonce, e.purpose)));
  }

  /** The device id is not enrolled: never was, or was deleted since. */
  ghost predicate Free(events: seq<Event>, d: string) {
    events != [] ==>
      var last := events[|events| - 1];
      last == Deleted(d) || (!(last.EnrolTried? && last.ok && last.deviceId == d) && Free(events[..|events| - 1], d))
  }

  lemma AdvanceKeepsFree(env: Env, s: State, l: Label, d: string)
    requires DeviceKey(d) !in s.past.last || EventOf(env, s.world, l) == Deleted(d)
    requires var e := EventOf(env, s.world, l); !(e.EnrolTried? && e.ok && e.deviceId == d)
    ensures DeviceKey(d) !in Advance(env, s, l).past.last
  {
    match l
    case Issue(_, x, _, _) => KeysApart(x, d);
    case Arrive(_, _, _) =>
    case Delete(_, _) =>
    case Resume(_, _) =>
      var e := EventOf(env, s.world, l);
      EventCall(env, s.world, l);
      if e.EnrolTried? { KeysApart(d, e.deviceId); }
  }

  lemma {:induction false} FreeIsAbsent(env: Env, labels: seq<Label>, d: string)
    requires Legal(env, labels) && Free(Run(env, labels).events, d)
    ensures DeviceKey(d) !in Run(env, labels).past.last
  {
    if labels != [] {
      var n := |labels| - 1;
      var s := Run(env, labels[..n]);
      assert Run(env, labels).events[..n] == s.events;
      if EventOf(env, s.world, labels[n]) != Deleted(d) {
        FreeIsAbsent(env, labels[..n], d);
      }
      AdvanceKeepsFree(env, s, labels[n], d);
    }
  }

  /** Enrolling works: an id that is not enrolled can be. */
  lemma FreeIdEnrols(env: Env, labels: seq<Label>, j: nat, d: string)
    requires env.maxEntries >= 1 && Legal(env, labels) && j < |labels|
    requires Run(env, labels).events[j].EnrolTried? && Run(env, labels).events[j].deviceId == d
    requires Free(Run(env, labels).events[..j], d)
    ensures Run(env, labels).events[j].ok
  {
    var s := Run(env, labels[..j]);
    EventIs(env, labels, j);
    StateBefore(env, labels, j);
    LegalPrefix(env, labels, j);
    FreeIsAbsent(env, labels[..j], d);
    EventCall(env, s.world, labels[j]);
    StoreFaithful(env, s, LastTime(labels[..j]), labels[j]);
  }

  // ---------------------------------------------------------------- one try

  /** Some request asked for the challenge, and it was not issued afterwards. */
  ghost predicate UsedUp(events: seq<Event>, id: string) {
    events != [] &&
      var last := events[|events| - 1];
      (last.Taken? && last.id == id) || (!(last.Issued? && last.id == id) && UsedUp(events[..|events| - 1], id))
  }

  lemma AdvanceUsesUp(env: Env, s: State, l: Label, id: string)
    requires var e := EventOf(env, s.world, l);
             (e.Taken? && e.id == id) || (!(e.Issued? && e.id == id) && ChallengeKey(id) !in s.past.last)
    ensures ChallengeKey(id) !in Advance(env, s, l).past.last
  {
    match l
    case Issue(_, x, _, _) => KeysApart(x, id);
    case Arrive(_, _, _) =>
    case Delete(_, _) =>
    case Resume(_, _) =>
      var e := EventOf(env, s.world, l);
      EventCall(env, s.world, l);
      if e.EnrolTried? { KeysApart(id, e.deviceId); }
  }

  lemma {:induction false} UsedUpIsAbsent(env: Env, labels: seq<Label>, id: string)
    requires Legal(env, labels) && UsedUp(Run(env, labels).events, id)
    ensures ChallengeKey(id) !in Run(env, labels).past.last
  {
    var n := |labels| - 1;
    RunStep(env, labels);
    var s := Run(env, labels[..n]);
    var e := EventOf(env, s.world, labels[n]);
    assert Run(env, labels).events[..n] == s.events;
    if !(e.Taken? && e.id == id) {
      UsedUpIsAbsent(env, labels[..n], id);
    }
    AdvanceUsesUp(env, s, labels[n], id);
  }

  lemma {:induction false} UsedUpSince(events: seq<Event>, a: nat, i: nat, id: string)
    requires IssuedOnce(events) && a < i < |events| && events[a].Issued? && events[a].id == id
    requires events[i].Taken? && events[i].id == id
    ensures UsedUp(events, id)
  {
    var n := |events| - 1;
    if i < n {
      assert events[..n][i] == events[i] && events[..n][a] == events[a];
      UsedUpSince(events[..n], a, i, id);
    }
  }

  /** The first request to ask for a challenge uses it up, whatever its purpose: no later one gets the nonce. */
  lemma {:induction false} OneTry(env: Env, labels: seq<Label>, a: nat, i: nat, j: nat)
    requires env.maxEntries >= 1 && Legal(env, labels) && a < i < j < |labels|
    requires var x, y, z := Run(env, labels).events[a], Run(env, labels).events[i], Run(env, labels).events[j];
             x.Issued? && y.Taken? && z.Taken? && x.id == y.id == z.id
    ensures Run(env, labels).events[j].got == None
  {
    var events, s := Run(env, labels).events, Run(env, labels[..j]);
    EventIs(env, labels, j);
    StateBefore(env, labels, j);
    LegalPrefix(env, labels, j);
    IdsFresh(env, labels[..j]);
    assert s.events[a] == events[a] && s.events[i] == events[i];
    UsedUpSince(s.events, a, i, events[a].id);
    UsedUpIsAbsent(env, labels[..j], events[a].id);
    if events[j].got.Some? {
      TakenNext(env, s, LastTime(labels[..j]), labels[j]);
      assert false;
    }
  }
}
