/**
 * What must succeed does: whole runs of one request among others, from the challenge to the answer, with every
 * purpose and every answer written out.
 */
module Completeness {
  import opened Prelude
  import opened Protocol
  import Attestation

  /** Request r has no step of its own in between. */
  ghost predicate Waits(labels: seq<Label>, r: nat, j: int, k: int)
    requires 0 <= j <= k <= |labels|
  {
    forall m | j <= m < k :: !(labels[m].Resume? && labels[m].r == r)
  }

  /** Where a request stands after the first n steps. */
  ghost predicate Stands(env: Env, labels: seq<Label>, n: int, r: nat, ph: Phase)
    requires 0 <= n <= |labels|
  {
    var w := Run(env, labels[..n]).world; r in w.inFlight && w.inFlight[r] == ph
  }

  lemma StepStands(env: Env, s: State, l: Label, r: nat)
    requires Enabled(s, l) && r in s.world.inFlight && !(l.Resume? && l.r == r)
    ensures var w := Advance(env, s, l).world; r in w.inFlight && w.inFlight[r] == s.world.inFlight[r]
  {
  }

  lemma {:induction false} NextStands(env: Env, labels: seq<Label>, m: nat, n: nat, r: nat, ph: Phase)
    requires env.maxEntries >= 1 && Legal(env, labels) && n == m + 1 <= |labels|
    requires Stands(env, labels, m, r, ph) && !(labels[m].Resume? && labels[m].r == r)
    ensures Stands(env, labels, n, r, ph)
  {
    StepTo(env, labels, m, n);
    StepStands(env, Run(env, labels[..m]), labels[m], r);
  }

  lemma {:induction false} StillStands(env: Env, labels: seq<Label>, j: nat, k: nat, r: nat, ph: Phase)
    requires env.maxEntries >= 1 && Legal(env, labels) && j <= k <= |labels| && Waits(labels, r, j, k)
    requires Stands(env, labels, j, r, ph)
    ensures Stands(env, labels, k, r, ph)
  {
    if j < k {
      var m := k - 1;
      StillStands(env, labels, j, m, r, ph);
      NextStands(env, labels, m, k, r, ph);
    }
  }

  /** From position j on the next step of request r is the k-th, which leads to position n. */
  ghost predicate Moves(labels: seq<Label>, r: nat, j: int, k: int, n: int) {
    && 0 <= j <= k < |labels| && n == k + 1 && Waits(labels, r, j, k) && labels[k].Resume? && labels[k].r == r
  }

  lemma {:induction false} Resumes(env: Env, labels: seq<Label>, j: nat, k: nat, n: nat, r: nat, ph: Phase)
    returns (w: World)
    requires env.maxEntries >= 1 && Legal(env, labels) && Moves(labels, r, j, k, n) && Stands(env, labels, j, r, ph)
    ensures w == Run(env, labels[..k]).world && r in w.inFlight && w.inFlight[r] == ph
    ensures Stands(env, labels, n, r, NextPhase(env, labels[k].now, ph, CallStore(env, w, labels[k]).1))
    ensures Run(env, labels).events[k] == EventOf(env, w, labels[k])
  {
    w := Run(env, labels[..k]).world;
    StillStands(env, labels, j, k, r, ph);
    StepTo(env, labels, k, n);
    EventIs(env, labels, k);
  }

  // ---------------------------------------------------------------- taking the challenge

  /** The challenge issued at step i is asked for first, in time, by the request whose arrival leads to position n. */
  ghost predicate Asks(env: Env, labels: seq<Label>, i: int, j: int, n: int, id: string, purpose: Option<string>,
                       nonce: Attestation.Bytes, r: nat, req: Request)
  {
    && 0 <= i < j < |labels| && n == j + 1
    && labels[i].Issue? && labels[i].id == id && labels[i].nonce == nonce && labels[i].purpose == purpose
    && labels[j].Arrive? && labels[j].r == r && labels[j].req == req && labels[j].now <= labels[i].now + 60000
    && NotTaken(Run(env, labels).events[..j], i, id) && Roomy(env, labels, i, j, ChallengeKey(id))
  }

  lemma StepTakes(env: Env, s: State, l: Label, nonce: Attestation.Bytes)
    requires l.Arrive? && EventOf(env, s.world, l).Taken? && EventOf(env, s.world, l).got == Some(nonce)
    ensures var w := Advance(env, s, l).world; l.r in w.inFlight && w.inFlight[l.r] == Consumed(l.req, Some(nonce))
  {
  }

  lemma {:induction false} Takes(env: Env, labels: seq<Label>, i: nat, j: nat, n: nat, id: string,
                                 purpose: Option<string>, nonce: Attestation.Bytes, r: nat, req: Request)
    requires env.maxEntries >= 1 && Legal(env, labels) && Asks(env, labels, i, j, n, id, purpose, nonce, r, req)
    requires Refusal(env, req).None? && req.Challenge() == id
    requires req.Purpose() == if purpose.Some? then purpose.value else "enroll"
    ensures Stands(env, labels, n, r, Consumed(req, Some(nonce)))
  {
    EventIs(env, labels, i);
    ChallengeYields(env, labels, i, j);
    EventIs(env, labels, j);
    StepTakes(env, Run(env, labels[..j]), labels[j], nonce);
    StepTo(env, labels, j, n);
  }

  // ---------------------------------------------------------------- the device

  /** The device is enrolled under the id at step e and stays so up to step k. */
  ghost predicate Enrolled(env: Env, labels: seq<Label>, e: int, k: int, d: string, device: Device) {
    && 0 <= e < k <= |labels| && Enrols(Run(env, labels).events[e], d, device)
    && Untouched(Run(env, labels).events[..k], e, d) && Roomy(env, labels, e, k, DeviceKey(d))
  }

  lemma {:induction false} Finds(env: Env, labels: seq<Label>, e: nat, k: nat, d: string, device: Device)
    requires env.maxEntries >= 1 && Legal(env, labels) && k < |labels| && Enrolled(env, labels, e, k, d, device)
    ensures var y := Run(env, labels).events[k];
            && (y.LookedUp? && y.deviceId == d ==> y.found == Some(device))
            && (y.EnrolTried? && y.deviceId == d ==> !y.ok)
  {
    BoundAt(env, labels, e, k, d);
  }

  lemma StepLooks(env: Env, w: World, l: Label, req: Request, nonce: Attestation.Bytes)
    requires l.Resume? && l.r in w.inFlight && w.inFlight[l.r] == Consumed(req, Some(nonce)) && !req.Enroll?
    ensures var e := EventOf(env, w, l);
            && e.LookedUp? && e.deviceId == req.DeviceId()
            && NextPhase(env, l.now, w.inFlight[l.r], CallStore(env, w, l).1) == Looked(req, Some(nonce), e.found)
  {
  }

  lemma {:induction false} LooksUp(env: Env, labels: seq<Label>, e: nat, j: nat, k: nat, n: nat, r: nat, req: Request,
                                   nonce: Attestation.Bytes, device: Device)
    requires env.maxEntries >= 1 && Legal(env, labels) && Moves(labels, r, j, k, n) && !req.Enroll?
    requires Stands(env, labels, j, r, Consumed(req, Some(nonce)))
    requires Enrolled(env, labels, e, k, req.DeviceId(), device)
    ensures Stands(env, labels, n, r, Looked(req, Some(nonce), Some(device)))
  {
    var w := Resumes(env, labels, j, k, n, r, Consumed(req, Some(nonce)));
    StepLooks(env, w, labels[k], req, nonce);
    Finds(env, labels, e, k, req.DeviceId(), device);
  }

  // ---------------------------------------------------------------- verification and the guard

  /** A request that has its nonce finds its device at step k, and is answered at step l. */
  lemma {:induction false} Looks(env: Env, labels: seq<Label>, e: nat, j: nat, k: nat, m: nat, l: nat, n: nat, r: nat,
                                 req: Request, nonce: Attestation.Bytes, device: Device) returns (w: World)
    requires env.maxEntries >= 1 && Legal(env, labels) && !req.Enroll?
    requires Moves(labels, r, j, k, m) && Moves(labels, r, m, l, n)
    requires Stands(env, labels, j, r, Consumed(req, Some(nonce)))
    requires Enrolled(env, labels, e, k, req.DeviceId(), device)
    ensures Stands(env, labels, n, r,
      NextPhase(env, labels[l].now, Looked(req, Some(nonce), Some(device)), CallStore(env, w, labels[l]).1))
  {
    LooksUp(env, labels, e, j, k, m, r, req, nonce, device);
    w := Resumes(env, labels, m, l, n, r, Looked(req, Some(nonce), Some(device)));
  }

  /** Challenge i, asked for by arrival a, and the steps k and l of the request that lead to position n. */
  datatype Course = Course(i: nat, a: nat, p: nat, k: nat, m: nat, l: nat, n: nat)

  ghost predicate Runs(env: Env, labels: seq<Label>, x: Course, id: string, purpose: Option<string>,
                       nonce: Attestation.Bytes, r: nat, req: Request)
  {
    && Asks(env, labels, x.i, x.a, x.p, id, purpose, nonce, r, req)
    && Moves(labels, r, x.p, x.k, x.m) && Moves(labels, r, x.m, x.l, x.n)
  }

  /** What a request with its nonce and its device is answered, at whatever instant. */
  ghost predicate Settles(env: Env, req: Request, nonce: Attestation.Bytes, device: Device, answer: Outcome) {
    forall now, out :: NextPhase(env, now, Looked(req, Some(nonce), Some(device)), out) == Done(req, answer)
  }

  lemma VerifySettles(env: Env, id: string, d: string, sig: Attestation.Bytes, nonce: Attestation.Bytes,
                      device: Device)
    ensures Settles(env, Verify(id, d, sig), nonce, device,
      if env.signed(device.publicKey, nonce, sig) then Verified else InvalidSignature)
  {
  }

  lemma GuardSettles(env: Env, id: string, d: string, sig: Attestation.Bytes, purpose: string,
                     nonce: Attestation.Bytes, device: Device)
    ensures Settles(env, Guarded(Some(d), Some(id), Some(sig), purpose), nonce, device,
      if env.signed(device.publicKey, nonce, sig) then Judged(Context(true, None), true)
      else Judged(Context(false, Some(SignatureInvalid)), !env.deviceRequired))
  {
  }

  /** The whole course of such a request. */
  lemma {:induction false} Answers(env: Env, labels: seq<Label>, x: Course, e: nat, r: nat, id: string,
                                   purpose: string, req: Request, nonce: Attestation.Bytes, device: Device,
                                   answer: Outcome)
    requires env.maxEntries >= 1 && Legal(env, labels) && Refusal(env, req).None?
    requires Runs(env, labels, x, id, Some(purpose), nonce, r, req)
    requires req.Challenge() == id && req.Purpose() == purpose && !req.Enroll?
    requires Enrolled(env, labels, e, x.k, req.DeviceId(), device) && Settles(env, req, nonce, device, answer)
    ensures Stands(env, labels, x.n, r, Done(req, answer))
  {
    Takes(env, labels, x.i, x.a, x.p, id, Some(purpose), nonce, r, req);
    var w := Looks(env, labels, e, x.p, x.k, x.m, x.l, x.n, r, req, nonce, device);
  }

  /**
   * A timely challenge issued to verify, a device that is enrolled, and a signature of the nonce by its key: the
   * device is verified, and with any other signature it is not.
   */
  lemma {:induction false} VerifyAnswers(env: Env, labels: seq<Label>, x: Course, e: nat, r: nat, id: string, d: string,
                                         sig: Attestation.Bytes, nonce: Attestation.Bytes, device: Device)
    requires env.maxEntries >= 1 && env.configured && Legal(env, labels)
    requires Runs(env, labels, x, id, Some("verify"), nonce, r, Verify(id, d, sig))
    requires Enrolled(env, labels, e, x.k, d, device)
    ensures Stands(env, labels, x.n, r, Done(Verify(id, d, sig),
      if env.signed(device.publicKey, nonce, sig) then Verified else InvalidSignature))
  {
    VerifySettles(env, id, d, sig, nonce, device);
    Answers(env, labels, x, e, r, id, "verify", Verify(id, d, sig), nonce, device,
      if env.signed(device.publicKey, nonce, sig) then Verified else InvalidSignature);
  }

  /** The same for a guarded route and its own purpose; without a valid signature only `report` lets it pass. */
  lemma {:induction false} GuardAnswers(env: Env, labels: seq<Label>, x: Course, e: nat, r: nat, id: string, d: string,
                                        sig: Attestation.Bytes, purpose: string, nonce: Attestation.Bytes,
                                        device: Device)
    requires env.maxEntries >= 1 && Legal(env, labels) && id != "" && d != "" && sig != ""
    requires Runs(env, labels, x, id, Some(purpose), nonce, r, Guarded(Some(d), Some(id), Some(sig), purpose))
    requires Enrolled(env, labels, e, x.k, d, device)
    ensures Stands(env, labels, x.n, r, Done(Guarded(Some(d), Some(id), Some(sig), purpose),
      if env.signed(device.publicKey, nonce, sig) then Judged(Context(true, None), true)
      else Judged(Context(false, Some(SignatureInvalid)), !env.deviceRequired)))
  {
    GuardSettles(env, id, d, sig, purpose, nonce, device);
    Answers(env, labels, x, e, r, id, purpose, Guarded(Some(d), Some(id), Some(sig), purpose), nonce, device,
      if env.signed(device.publicKey, nonce, sig) then Judged(Context(true, None), true)
      else Judged(Context(false, Some(SignatureInvalid)), !env.deviceRequired));
  }

  // ---------------------------------------------------------------- enrolment

  /** A timely challenge issued to enrol, which is the default, and a chain that is rejected at step k. */
  lemma {:induction false} EnrolRejects(env: Env, labels: seq<Label>, i: nat, j: nat, p: nat, k: nat, n: nat, r: nat,
                                        id: string, d: string, chain: seq<Attestation.Der>, purpose: Option<string>,
                                        nonce: Attestation.Bytes, code: Attestation.Code)
    requires env.maxEntries >= 1 && env.configured && Legal(env, labels) && purpose in {None, Some("enroll")}
    requires Asks(env, labels, i, j, p, id, purpose, nonce, r, Enroll(id, d, chain)) && Moves(labels, r, p, k, n)
    requires Attestation.Verify(env.policy, env.verifies, chain, nonce, labels[k].now) == Err(code)
    ensures Stands(env, labels, n, r, Done(Enroll(id, d, chain), ChainRejected(code)))
  {
    Takes(env, labels, i, j, p, id, purpose, nonce, r, Enroll(id, d, chain));
    var w := Resumes(env, labels, p, k, n, r, Consumed(Enroll(id, d, chain), Some(nonce)));
  }

  lemma StepTries(env: Env, w: World, l: Label, id: string, d: string, chain: seq<Attestation.Der>,
                  nonce: Attestation.Bytes, a: Attestation.Attested)
    requires l.Resume? && l.r in w.inFlight && w.inFlight[l.r] == Consumed(Enroll(id, d, chain), Some(nonce))
    requires Attestation.Verify(env.policy, env.verifies, chain, nonce, l.now) == Ok(a)
    ensures var e := EventOf(env, w, l);
            && e.EnrolTried? && e.deviceId == d && e.device == Device(a.publicKey, a.level, l.now)
            && NextPhase(env, l.now, w.inFlight[l.r], CallStore(env, w, l).1)
               == Enrolling(Enroll(id, d, chain), a, e.ok)
  {
  }

  lemma {:induction false} Tries(env: Env, labels: seq<Label>, p: nat, k: nat, n: nat, r: nat, id: string, d: string,
                                 chain: seq<Attestation.Der>, nonce: Attestation.Bytes, a: Attestation.Attested)
    requires env.maxEntries >= 1 && Legal(env, labels) && Moves(labels, r, p, k, n)
    requires Stands(env, labels, p, r, Consumed(Enroll(id, d, chain), Some(nonce)))
    requires Attestation.Verify(env.policy, env.verifies, chain, nonce, labels[k].now) == Ok(a)
    ensures var e := Run(env, labels).events[k];
            && e.EnrolTried? && e.deviceId == d && e.device == Device(a.publicKey, a.level, labels[k].now)
            && Stands(env, labels, n, r, Enrolling(Enroll(id, d, chain), a, e.ok))
  {
    var w := Resumes(env, labels, p, k, n, r, Consumed(Enroll(id, d, chain), Some(nonce)));
    StepTries(env, w, labels[k], id, d, chain, nonce, a);
  }

  lemma {:induction false} Tells(env: Env, labels: seq<Label>, m: nat, l: nat, n: nat, r: nat, req: Request,
                                 a: Attestation.Attested, ok: bool)
    requires env.maxEntries >= 1 && Legal(env, labels) && Moves(labels, r, m, l, n)
    requires Stands(env, labels, m, r, Enrolling(req, a, ok))
    ensures Stands(env, labels, n, r, Done(req, if ok then Protocol.Enrolled(a.level) else AlreadyEnrolled))
  {
    var w := Resumes(env, labels, m, l, n, r, Enrolling(req, a, ok));
  }

  /** With an accepted chain the device is tried, and the answer says whether it was enrolled. */
  lemma {:induction false} EnrolTells(env: Env, labels: seq<Label>, x: Course, r: nat, id: string, d: string,
                                      chain: seq<Attestation.Der>, purpose: Option<string>, nonce: Attestation.Bytes,
                                      a: Attestation.Attested)
    requires env.maxEntries >= 1 && env.configured && Legal(env, labels) && purpose in {None, Some("enroll")}
    requires Runs(env, labels, x, id, purpose, nonce, r, Enroll(id, d, chain))
    requires Attestation.Verify(env.policy, env.verifies, chain, nonce, labels[x.k].now) == Ok(a)
    ensures var e := Run(env, labels).events[x.k];
            && e.EnrolTried? && e.deviceId == d && e.device == Device(a.publicKey, a.level, labels[x.k].now)
            && Stands(env, labels, x.n, r,
                 Done(Enroll(id, d, chain), if e.ok then Protocol.Enrolled(a.level) else AlreadyEnrolled))
  {
    Takes(env, labels, x.i, x.a, x.p, id, purpose, nonce, r, Enroll(id, d, chain));
    Tries(env, labels, x.p, x.k, x.m, r, id, d, chain, nonce, a);
    Tells(env, labels, x.m, x.l, x.n, r, Enroll(id, d, chain), a, Run(env, labels).events[x.k].ok);
  }

  /**
   * A timely challenge issued to enrol and an accepted chain: the device is enrolled, with the attested key and level
   * and from that instant, if the id is free, and refused if another is enrolled under it.
   */
  lemma {:induction false} EnrolAnswers(env: Env, labels: seq<Label>, x: Course, r: nat, id: string, d: string,
                                        chain: seq<Attestation.Der>, purpose: Option<string>, nonce: Attestation.Bytes,
                                        a: Attestation.Attested)
    requires env.maxEntries >= 1 && env.configured && Legal(env, labels) && purpose in {None, Some("enroll")}
    requires Runs(env, labels, x, id, purpose, nonce, r, Enroll(id, d, chain))
    requires Attestation.Verify(env.policy, env.verifies, chain, nonce, labels[x.k].now) == Ok(a)
    ensures Free(Run(env, labels).events[..x.k], d) ==>
              && Enrols(Run(env, labels).events[x.k], d, Device(a.publicKey, a.level, labels[x.k].now))
              && Stands(env, labels, x.n, r, Done(Enroll(id, d, chain), Protocol.Enrolled(a.level)))
    ensures (exists e, device :: Enrolled(env, labels, e, x.k, d, device)) ==>
              Stands(env, labels, x.n, r, Done(Enroll(id, d, chain), AlreadyEnrolled))
  {
    EnrolTells(env, labels, x, r, id, d, chain, purpose, nonce, a);
    if Free(Run(env, labels).events[..x.k], d) {
      FreeIdEnrols(env, labels, x.k, d);
    }
    if e, device :| Enrolled(env, labels, e, x.k, d, device) {
      Finds(env, labels, e, x.k, d, device);
    }
  }

  // ---------------------------------------------------------------- refused at once

  /** The header is absent or empty. */
  predicate Blank(header: Option<string>) { header.None? || header.value == "" }

  /** What a request is answered on arrival, if it is. */
  ghost function Refused(env: Env, req: Request): Option<Outcome> {
    if req.Guarded? then
      if Blank(req.device) || Blank(req.challenge) || Blank(req.sig) then
        Some(Judged(Context(false, Some(SignatureMissing)), !env.deviceRequired))
      else None
    else if env.configured then None
    else Some(Unconfigured)
  }

  lemma StepRefuses(env: Env, s: State, l: Label)
    requires l.Arrive?
    ensures var w := Advance(env, s, l).world;
            && l.r in w.inFlight
            && (Refused(env, l.req).Some? ==>
                  w.inFlight[l.r] == Done(l.req, Refused(env, l.req).value) && w.table == s.world.table)
            && (Refused(env, l.req).None? <==> EventOf(env, s.world, l).Taken?)
  {
    if l.req.Guarded? {
      BlankIs(l.req.device);
      BlankIs(l.req.challenge);
      BlankIs(l.req.sig);
    }
  }

  lemma BlankIs(header: Option<string>)
    ensures header in {None, Some("")} <==> Blank(header)
  {
  }

  /**
   * A server without a policy neither enrols nor verifies, a guarded request that lacks a header is not verified,
   * and neither touches the store; every other request takes its challenge out of it.
   */
  lemma {:induction false} RefusedAtOnce(env: Env, labels: seq<Label>, j: nat, n: nat)
    requires env.maxEntries >= 1 && Legal(env, labels) && j < |labels| && labels[j].Arrive? && n == j + 1
    ensures Refused(env, labels[j].req).Some? ==>
              && Stands(env, labels, n, labels[j].r, Done(labels[j].req, Refused(env, labels[j].req).value))
              && Run(env, labels[..n]).world.table == Run(env, labels[..j]).world.table
    ensures Refused(env, labels[j].req).None? <==> Run(env, labels).events[j].Taken?
  {
    StepTo(env, labels, j, n);
    EventIs(env, labels, j);
    StepRefuses(env, Run(env, labels[..j]), labels[j]);
  }
}
