/**
 * Why an enrolment lasts only until maxEntries other keys are written: challenges share its store, and as
 * many of them push it out, after which its id can be bound to another key without any deletion.
 */
module Eviction {
  import opened Prelude
  import opened Protocol
  import opened Recency
  import opened Text
  import Attestation
  import K = KvStore

  /**
   * A device, the nonce of every challenge, and two chains with different keys: one acceptable for the first
   * nonce and one for the last, at time 0.
   */
  datatype Setting = Setting(d: string, nonces: nat -> string, first: seq<Attestation.Der>,
                             second: seq<Attestation.Der>, a: Attestation.Attested, b: Attestation.Attested)

  ghost predicate DistinctUpTo(nonces: nat -> string, last: nat) {
    forall m: nat, n: nat | m < n <= last :: nonces(m) != nonces(n)
  }

  ghost predicate Fits(env: Env, x: Setting) {
    && env.maxEntries >= 1 && env.configured && x.a.publicKey != x.b.publicKey
    && DistinctUpTo(x.nonces, env.maxEntries)
    && Attestation.Verify(env.policy, env.verifies, x.first, x.nonces(0), 0) == Ok(x.a)
    && Attestation.Verify(env.policy, env.verifies, x.second, x.nonces(env.maxEntries), 0) == Ok(x.b)
  }

  const NOTHING := Attestation.AuthList(None, None)
  const APP := Attestation.AuthList(None, Some(Attestation.AppId.AppId(["app"], ["signer"])))

  function Description(nonce: string): Attestation.KeyDescription {
    Attestation.KeyDescription(nonce, 1, 1, NOTHING, APP)
  }

  function Certificate(key: Attestation.Key, nonce: string): Attestation.Cert {
    Attestation.Cert(key, 0, 1, "7", Attestation.Read(Description(nonce)))
  }

  /** A self-signed pair of certificates that vouches for the nonce and the app "app". */
  function Chain(key: Attestation.Key, nonce: string): seq<Attestation.Der> {
    [Attestation.Good(Certificate(key, nonce)), Attestation.Good(Certificate(key, nonce))]
  }

  const POLICY := Attestation.Policy(None, "app", {"signer"}, 1, false, {})

  predicate AnyoneSigns(cert: Attestation.Cert, key: Attestation.Key) { true }

  lemma DescriptionAccepted(key: Attestation.Key, nonce: string)
    ensures Attestation.VerifyRecord(POLICY, key, Description(nonce), nonce) == Ok(Attestation.Attested(key, 1))
  {
  }

  lemma PairAccepted(certs: seq<Attestation.Cert>, key: Attestation.Key, nonce: string)
    requires |certs| == 2 && certs[0] == certs[1] == Certificate(key, nonce)
    ensures Attestation.VerifyChain(POLICY, AnyoneSigns, certs, nonce, 0)
         == Attestation.VerifyRecord(POLICY, key, Description(nonce), nonce)
  {
  }

  lemma ChainAccepted(key: Attestation.Key, nonce: string)
    ensures Attestation.Verify(POLICY, AnyoneSigns, Chain(key, nonce), nonce, 0) == Ok(Attestation.Attested(key, 1))
  {
    DescriptionAccepted(key, nonce);
    PairAccepted(Attestation.Certs(Chain(key, nonce)), key, nonce);
  }

  /** Such settings exist for every capacity and any distinct nonces. */
  lemma SomeSettingFits(maxEntries: nat, nonces: nat -> string)
    requires maxEntries >= 1 && DistinctUpTo(nonces, maxEntries)
    ensures var a, b := Attestation.Attested("k", 1), Attestation.Attested("l", 1);
            var env := Env(maxEntries, true, POLICY, AnyoneSigns, (k, n, sig) => true, true);
            Fits(env, Setting("device", nonces, Chain("k", nonces(0)), Chain("l", nonces(maxEntries)), a, b))
  {
    ChainAccepted("k", nonces(0));
    ChainAccepted("l", nonces(maxEntries));
  }

  function First(x: Setting): Request { Enroll(Decimal(0), x.d, x.first) }

  function Second(x: Setting, n: nat): Request { Enroll(Decimal(n), x.d, x.second) }

  /** Enrol the device, then issue n challenges, all at time 0. */
  ghost function Flood(x: Setting, n: nat): seq<Label> {
    if n == 0 then
      [Issue(0, Decimal(0), x.nonces(0), None), Arrive(0, 1, First(x)), Resume(0, 1)]
    else Flood(x, n - 1) + [Issue(0, Decimal(n), x.nonces(n), None)]
  }

  /** Then enrol the same id again, with another key, for the last challenge. */
  ghost function Rebinding(x: Setting, n: nat): seq<Label> {
    Flood(x, n) + [Arrive(0, 2, Second(x, n))] + [Resume(0, 2)]
  }

  lemma DecimalApart(m: nat, n: nat)
    ensures Decimal(m) == Decimal(n) ==> m == n
  {
    DecimalText(m);
    DecimalText(n);
  }

  /** The keys of the challenges numbered above m, up to n. */
  ghost function Numbered(m: nat, n: nat): set<string> {
    set k | m < k <= n :: ChallengeKey(Decimal(k))
  }

  lemma {:induction false} NumberedSize(m: nat, n: nat)
    requires m <= n
    ensures |Numbered(m, n)| == n - m
  {
    if m == n {
      assert Numbered(m, n) == {};
    } else {
      NumberedSize(m, n - 1);
      assert Numbered(m, n) == Numbered(m, n - 1) + {ChallengeKey(Decimal(n))};
      if ChallengeKey(Decimal(n)) in Numbered(m, n - 1) {
        var k :| m < k <= n - 1 && ChallengeKey(Decimal(k)) == ChallengeKey(Decimal(n));
        KeysApart(Decimal(k), Decimal(n));
        DecimalApart(k, n);
      }
    }
  }

  /** After n challenges: which of them the store was told about, and what was told since each. */
  ghost predicate Flooded(s: State, x: Setting, n: nat) {
    && |s.events| == n + 3 && s.events[2] == EnrolTried(1, x.d, Device(x.a.publicKey, x.a.level, 0), true)
    && 2 !in s.world.inFlight
    && (forall e | e in s.events && e.Issued? :: HasNumber(e.id, n))
    && (forall e | e in s.events :: !e.Deleted?)
    && (forall k: nat | 1 <= k <= n :: Told(s, x, k, n))
    && OtherWrites(s.events, 2, DeviceKey(x.d)) == Numbered(0, n)
  }

  ghost predicate HasNumber(id: string, n: nat) { exists k: nat | k <= n :: Decimal(k) == id }

  ghost predicate Told(s: State, x: Setting, k: nat, n: nat) {
    var key := ChallengeKey(Decimal(k));
    && key in s.past.last && s.past.last[key] == K.Entry(ChallengeRecord(x.nonces(k), "enroll"), K.At(CHALLENGE_TTL_MS))
    && Since(s.past.log, key) <= Numbered(k, n)
  }

  // ---------------------------------------------------------------- the first enrolment

  lemma FirstEvents(env: Env, x: Setting)
    requires Fits(env, x)
    ensures var one := [Issue(0, Decimal(0), x.nonces(0), None)];
            && Legal(env, one) && Run(env, one).events == [Issued(Decimal(0), x.nonces(0), "enroll", 0)]
            && Run(env, one).world.inFlight == map[]
  {
    var one := [Issue(0, Decimal(0), x.nonces(0), None)];
    assert one[..0] == [];
    assert Run(env, one) == Advance(env, START, one[0]);
  }

  lemma FirstTaken(env: Env, x: Setting)
    requires Fits(env, x)
    ensures Legal(env, Two(x)) && Run(env, Two(x)).events == TwoEvents(x)
    ensures Run(env, Two(x)).world.inFlight == map[1 := Consumed(First(x), Some(x.nonces(0)))]
  {
    var one := [Issue(0, Decimal(0), x.nonces(0), None)];
    FirstEvents(env, x);
    assert Two(x)[..1] == one;
    RunsOn(env, one, Two(x), Two(x)[1]);
    assert OtherWrites(Run(env, one).events, 0, ChallengeKey(Decimal(0))) == {};
    FewWritesRoomy(env, Two(x), 0, 1, ChallengeKey(Decimal(0)));
    ChallengeYields(env, Two(x), 0, 1);
  }

  lemma EnrolStep(env: Env, s: State, r: nat, req: Request, nonce: string, a: Attestation.Attested)
    requires r in s.world.inFlight && req.Enroll? && s.world.inFlight[r] == Consumed(req, Some(nonce))
    requires Attestation.Verify(env.policy, env.verifies, req.chain, nonce, 0) == Ok(a)
    ensures exists ok ::
              EventOf(env, s.world, Resume(0, r)) == EnrolTried(r, req.deviceId, Device(a.publicKey, a.level, 0), ok)
  {
    var e := EventOf(env, s.world, Resume(0, r));
    assert e == EnrolTried(r, req.deviceId, Device(a.publicKey, a.level, 0), e.ok);
  }

  function Two(x: Setting): seq<Label> { [Issue(0, Decimal(0), x.nonces(0), None), Arrive(0, 1, First(x))] }

  function TwoEvents(x: Setting): seq<Event> {
    [Issued(Decimal(0), x.nonces(0), "enroll", 0), Taken(1, Decimal(0), "enroll", Some(x.nonces(0)), 0)]
  }

  lemma {:induction false} FirstResumed(env: Env, x: Setting)
    requires Fits(env, x)
    ensures Legal(env, Flood(x, 0)) && 2 !in Run(env, Flood(x, 0)).world.inFlight
    ensures Run(env, Flood(x, 0)).events ==
              TwoEvents(x) + [EnrolTried(1, x.d, Device(x.a.publicKey, x.a.level, 0), true)]
  {
    FirstTaken(env, x);
    FirstTries(env, x, Run(env, Two(x)));
    assert Flood(x, 0)[..2] == Two(x);
    ThirdStep(env, x, Flood(x, 0));
  }

  lemma {:induction false} ThirdStep(env: Env, x: Setting, labels: seq<Label>)
    requires Legal(env, Two(x)) && |labels| == 3 && labels[..2] == Two(x) && labels[2] == Resume(0, 1)
    requires env.maxEntries >= 1
    requires var s := Run(env, Two(x));
             && s.events == TwoEvents(x) && Free(s.events, x.d) && 2 !in Next(env, s.world, Resume(0, 1)).inFlight
             && exists ok ::
                  EventOf(env, s.world, Resume(0, 1)) == EnrolTried(1, x.d, Device(x.a.publicKey, x.a.level, 0), ok)
    ensures Legal(env, labels) && 2 !in Run(env, labels).world.inFlight
    ensures Run(env, labels).events == TwoEvents(x) + [EnrolTried(1, x.d, Device(x.a.publicKey, x.a.level, 0), true)]
  {
    assert labels == Two(x) + [labels[2]];
    RunsOn(env, Two(x), labels, labels[2]);
    FreeIdEnrols(env, labels, 2, x.d);
  }

  lemma {:induction false} LegalOn(env: Env, before: seq<Label>, labels: seq<Label>, l: Label)
    requires labels == before + [l] && Legal(env, before) && LastTime(before) <= l.now && Enabled(Run(env, before), l)
    ensures Legal(env, labels)
  {
    assert labels[..|labels| - 1] == before;
  }

  lemma {:induction false} RunsOn(env: Env, before: seq<Label>, labels: seq<Label>, l: Label)
    requires labels == before + [l] && Legal(env, before) && LastTime(before) <= l.now && Enabled(Run(env, before), l)
    ensures var s := Run(env, before);
            && Legal(env, labels) && Run(env, labels) == Advance(env, s, l)
            && Run(env, labels).events == s.events + [EventOf(env, s.world, l)]
  {
    LegalOn(env, before, labels, l);
    LastStep(env, before, labels, l);
  }

  /** What the resumed request tries, whether or not it succeeds. */
  lemma FirstTries(env: Env, x: Setting, s: State)
    requires Fits(env, x) && s.events == TwoEvents(x)
    requires s.world.inFlight == map[1 := Consumed(First(x), Some(x.nonces(0)))]
    ensures exists ok ::
              EventOf(env, s.world, Resume(0, 1)) == EnrolTried(1, x.d, Device(x.a.publicKey, x.a.level, 0), ok)
    ensures Free(s.events, x.d) && 2 !in Next(env, s.world, Resume(0, 1)).inFlight
  {
    EnrolStep(env, s, 1, First(x), x.nonces(0), x.a);
    FreeAtFirst(s.events, x);
  }

  lemma StartsFlood(s: State, x: Setting)
    requires s.events == TwoEvents(x) + [EnrolTried(1, x.d, Device(x.a.publicKey, x.a.level, 0), true)]
    requires 2 !in s.world.inFlight
    ensures Flooded(s, x, 0)
  {
    assert OtherWrites(s.events, 2, DeviceKey(x.d)) == {} == Numbered(0, 0);
    assert HasNumber(Decimal(0), 0);
  }

  lemma FirstEnrolled(env: Env, x: Setting)
    requires Fits(env, x)
    ensures Legal(env, Flood(x, 0)) && Flooded(Run(env, Flood(x, 0)), x, 0)
  {
    FirstResumed(env, x);
    StartsFlood(Run(env, Flood(x, 0)), x);
  }

  lemma FreeAtFirst(events: seq<Event>, x: Setting)
    requires events == TwoEvents(x)
    ensures Free(events, x.d)
  {
    assert events[..1] == [events[0]] && events[..1][..0] == [];
    assert Free(events[..1], x.d);
  }

  // ---------------------------------------------------------------- the flood

  lemma FloodStep(env: Env, x: Setting, s: State, n: nat)
    requires Flooded(s, x, n)
    ensures var l := Issue(0, Decimal(n + 1), x.nonces(n + 1), None);
            Enabled(s, l) && Flooded(Advance(env, s, l), x, n + 1)
  {
    var l := Issue(0, Decimal(n + 1), x.nonces(n + 1), None);
    var e, s' := EventOf(env, s.world, l), Advance(env, s, l);
    FreshNumber(s.events, n);
    MoreNumbers(s.events, e, n);
    assert s'.events == s.events + [e] && s'.events[..|s.events|] == s.events;
    var m := n + 1;
    forall k: nat | 1 <= k <= m ensures Told(s', x, k, m) {
      ToldLonger(env, x, s, k, n);
    }
    WritesLonger(s, x, n);
  }

  lemma FreshNumber(events: seq<Event>, n: nat)
    requires forall e | e in events && e.Issued? :: HasNumber(e.id, n)
    ensures !IssuedIn(events, Decimal(n + 1))
  {
    if IssuedIn(events, Decimal(n + 1)) {
      var i :| 0 <= i < |events| && events[i].Issued? && events[i].id == Decimal(n + 1);
      assert events[i] in events;
      var k: nat :| k <= n && Decimal(k) == events[i].id;
      DecimalApart(k, n + 1);
    }
  }

  lemma MoreNumbers(events: seq<Event>, e: Event, n: nat)
    requires forall x | x in events && x.Issued? :: HasNumber(x.id, n)
    requires e.Issued? && e.id == Decimal(n + 1)
    ensures forall x | x in events + [e] && x.Issued? :: HasNumber(x.id, n + 1)
  {
    forall x | x in events && x.Issued? ensures HasNumber(x.id, n + 1) {
      var k: nat :| k <= n && Decimal(k) == x.id;
    }
  }

  lemma NumberedLonger(k: nat, n: nat)
    requires k <= n
    ensures Numbered(k, n + 1) == Numbered(k, n) + {ChallengeKey(Decimal(n + 1))}
  {
    var last := ChallengeKey(Decimal(n + 1));
    forall x | x in Numbered(k, n + 1) ensures x in Numbered(k, n) + {last} {
      var m :| k < m <= n + 1 && ChallengeKey(Decimal(m)) == x;
    }
  }

  lemma IssuePast(env: Env, s: State, id: string, nonce: string)
    ensures var p := Advance(env, s, Issue(0, id, nonce, None)).past;
            && p.log == s.past.log + [ChallengeKey(id)]
            && p.last == s.past.last[ChallengeKey(id)
                           := K.Entry(ChallengeRecord(nonce, "enroll"), K.At(CHALLENGE_TTL_MS))]
  {
  }

  lemma SinceNumbered(log: seq<string>, k: nat, n: nat)
    requires 1 <= k <= n + 1 && (k <= n ==> Since(log, ChallengeKey(Decimal(k))) <= Numbered(k, n))
    ensures Since(log + [ChallengeKey(Decimal(n + 1))], ChallengeKey(Decimal(k))) <= Numbered(k, n + 1)
  {
    SinceLonger(log, ChallengeKey(Decimal(n + 1)), ChallengeKey(Decimal(k)));
    if k <= n {
      NumberedLonger(k, n);
    }
  }

  lemma {:induction false} ToldLonger(env: Env, x: Setting, s: State, k: nat, n: nat)
    requires 1 <= k <= n + 1 && (k <= n ==> Told(s, x, k, n))
    ensures Told(Advance(env, s, Issue(0, Decimal(n + 1), x.nonces(n + 1), None)), x, k, n + 1)
  {
    IssuePast(env, s, Decimal(n + 1), x.nonces(n + 1));
    SinceNumbered(s.past.log, k, n);
    KeysApart(Decimal(n + 1), Decimal(k));
    DecimalApart(n + 1, k);
  }

  lemma WritesLonger(s: State, x: Setting, n: nat)
    requires OtherWrites(s.events, 2, DeviceKey(x.d)) == Numbered(0, n) && |s.events| == n + 3
    ensures OtherWrites(s.events + [Issued(Decimal(n + 1), x.nonces(n + 1), "enroll", 0)], 2, DeviceKey(x.d))
      == Numbered(0, n + 1)
  {
    var events := s.events + [Issued(Decimal(n + 1), x.nonces(n + 1), "enroll", 0)];
    assert events[..|s.events|] == s.events;
    KeysApart(Decimal(n + 1), x.d);
    assert Numbered(0, n + 1) == Numbered(0, n) + {ChallengeKey(Decimal(n + 1))};
  }

  lemma {:induction false} NextFlood(env: Env, x: Setting, before: seq<Label>, labels: seq<Label>, n: nat)
    requires Legal(env, before) && LastTime(before) == 0 && Flooded(Run(env, before), x, n)
    requires labels == before + [Issue(0, Decimal(n + 1), x.nonces(n + 1), None)]
    ensures Legal(env, labels) && LastTime(labels) == 0 && Flooded(Run(env, labels), x, n + 1)
  {
    assert labels[..|labels| - 1] == before;
    FloodStep(env, x, Run(env, before), n);
  }

  lemma {:induction false} FloodRuns(env: Env, x: Setting, n: nat)
    requires Fits(env, x)
    ensures Legal(env, Flood(x, n)) && LastTime(Flood(x, n)) == 0 && Flooded(Run(env, Flood(x, n)), x, n)
  {
    if n == 0 {
      FirstEnrolled(env, x);
    } else {
      FloodRuns(env, x, n - 1);
      NextFlood(env, x, Flood(x, n - 1), Flood(x, n), n - 1);
    }
  }

  /** Then the store holds exactly the challenges. */
  lemma PushedOut(env: Env, x: Setting, s: State)
    requires Fits(env, x) && Inv(env, s, 0) && Flooded(s, x, env.maxEntries)
    ensures s.world.table.dict.Keys == Numbered(0, env.maxEntries) && DeviceKey(x.d) !in s.world.table.dict
  {
    var t, n := s.world.table, env.maxEntries;
    forall k: nat | 1 <= k <= n ensures ChallengeKey(Decimal(k)) in t.dict {
      assert Told(s, x, k, n);
      NumberedSize(k, n);
      SubsetSize(Since(s.past.log, ChallengeKey(Decimal(k))), Numbered(k, n));
    }
    assert Numbered(0, n) <= t.dict.Keys;
    NumberedSize(0, n);
    t.SizeIsCount();
    SubsetSize(Numbered(0, n), t.dict.Keys);
    DeviceNotNumbered(x.d, n);
  }

  lemma DeviceNotNumbered(d: string, n: nat)
    ensures DeviceKey(d) !in Numbered(0, n)
  {
    forall k: nat | k <= n ensures ChallengeKey(Decimal(k)) != DeviceKey(d) {
      KeysApart(Decimal(k), d);
    }
  }

  // ---------------------------------------------------------------- the second enrolment

  lemma LastChallenge(env: Env, x: Setting, s: State)
    requires Fits(env, x) && Inv(env, s, 0) && Flooded(s, x, env.maxEntries)
    ensures K.Lookup(s.world.table, 0, ChallengeKey(Decimal(env.maxEntries)))
         == (s.world.table, Some(ChallengeRecord(x.nonces(env.maxEntries), "enroll")))
  {
    PushedOut(env, x, s);
    assert Told(s, x, env.maxEntries, env.maxEntries);
    assert ChallengeKey(Decimal(env.maxEntries)) in Numbered(0, env.maxEntries);
  }

  lemma SecondTaken(env: Env, x: Setting, s: State)
    requires Fits(env, x) && Inv(env, s, 0) && Flooded(s, x, env.maxEntries)
    ensures var l := Arrive(0, 2, Second(x, env.maxEntries));
            var s' := Advance(env, s, l);
            && 2 in s'.world.inFlight && s'.world.inFlight[2] == Consumed(l.req, Some(x.nonces(env.maxEntries)))
            && DeviceKey(x.d) !in s'.world.table.dict && EventOf(env, s.world, l).Taken?
  {
    LastChallenge(env, x, s);
    PushedOut(env, x, s);
    TakenFrom(env, s, Arrive(0, 2, Second(x, env.maxEntries)), x.nonces(env.maxEntries), DeviceKey(x.d));
  }

  lemma TakenFrom(env: Env, s: State, l: Label, nonce: string, other: string)
    requires l.Arrive? && l.now == 0 && Refusal(env, l.req).None? && l.req.Enroll?
    requires K.Lookup(s.world.table, 0, ChallengeKey(l.req.challengeId))
      == (s.world.table, Some(ChallengeRecord(nonce, "enroll")))
    requires other !in s.world.table.dict
    ensures var s' := Advance(env, s, l);
            && l.r in s'.world.inFlight && s'.world.inFlight[l.r] == Consumed(l.req, Some(nonce))
            && other !in s'.world.table.dict && EventOf(env, s.world, l).Taken?
  {
  }

  /**
   * maxEntries challenges, which anyone may ask for, evict an enrolment: without any deletion the id is then
   * enrolled again with another key. So the bound of `OneKeyPerDevice` cannot be raised.
   */
  lemma IdIsRebound(env: Env, x: Setting)
    requires Fits(env, x)
    ensures var n, labels := env.maxEntries, Rebinding(x, env.maxEntries);
            && Legal(env, labels) && |labels| == n + 5
            && var events := Run(env, labels).events;
            && events[2] == EnrolTried(1, x.d, Device(x.a.publicKey, x.a.level, 0), true)
            && events[n + 4] == EnrolTried(2, x.d, Device(x.b.publicKey, x.b.level, 0), true)
            && (forall e | e in events :: !e.Deleted?)
            && |OtherWrites(events[..n + 4], 2, DeviceKey(x.d))| == n
  {
    var n, s := env.maxEntries, Run(env, Flood(x, env.maxEntries));
    RebindingRun(env, x);
    var s' := Advance(env, s, Arrive(0, 2, Second(x, n)));
    RebindingLast(env, x, s, s');
    RebindingEvents(env, x, s, s');
  }

  lemma {:induction false} FloodLength(x: Setting, n: nat)
    ensures |Flood(x, n)| == n + 3
  {
    if n > 0 {
      FloodLength(x, n - 1);
    }
  }

  lemma RebindingRun(env: Env, x: Setting)
    requires Fits(env, x)
    ensures var n, s := env.maxEntries, Run(env, Flood(x, env.maxEntries));
            var s' := Advance(env, s, Arrive(0, 2, Second(x, n)));
            && Legal(env, Rebinding(x, n)) && Run(env, Rebinding(x, n)) == Advance(env, s', Resume(0, 2))
            && Flooded(s, x, n) && Inv(env, s, 0) && Inv(env, s', 0)
    ensures |Rebinding(x, env.maxEntries)| == env.maxEntries + 5
  {
    var n := env.maxEntries;
    var flood := Flood(x, n);
    var more := flood + [Arrive(0, 2, Second(x, n))];
    FloodLength(x, n);
    FloodRuns(env, x, n);
    RunKeeps(env, flood);
    assert more[..|flood|] == flood;
    RunsOn(env, flood, more, Arrive(0, 2, Second(x, n)));
    RunKeeps(env, more);
    assert Rebinding(x, n)[..|more|] == more;
    RunsOn(env, more, Rebinding(x, n), Resume(0, 2));
  }

  lemma RebindingLast(env: Env, x: Setting, s: State, s': State)
    requires Fits(env, x) && Flooded(s, x, env.maxEntries) && Inv(env, s, 0) && Inv(env, s', 0)
    requires s' == Advance(env, s, Arrive(0, 2, Second(x, env.maxEntries)))
    ensures EventOf(env, s.world, Arrive(0, 2, Second(x, env.maxEntries))).Taken?
    ensures EventOf(env, s'.world, Resume(0, 2)) == EnrolTried(2, x.d, Device(x.b.publicKey, x.b.level, 0), true)
  {
    SecondTaken(env, x, s);
    EnrolStep(env, s', 2, Second(x, env.maxEntries), x.nonces(env.maxEntries), x.b);
    EnrolNext(env, s', 0, Resume(0, 2));
  }

  lemma RebindingEvents(env: Env, x: Setting, s: State, s': State)
    requires Flooded(s, x, env.maxEntries) && s' == Advance(env, s, Arrive(0, 2, Second(x, env.maxEntries)))
    requires EventOf(env, s.world, Arrive(0, 2, Second(x, env.maxEntries))).Taken?
    requires EventOf(env, s'.world, Resume(0, 2)).EnrolTried?
    ensures var n, events := env.maxEntries, Advance(env, s', Resume(0, 2)).events;
            && |events| == n + 5 && events[2] == s.events[2] && events[n + 4] == EventOf(env, s'.world, Resume(0, 2))
            && (forall e | e in events :: !e.Deleted?)
            && |OtherWrites(events[..n + 4], 2, DeviceKey(x.d))| == n
  {
    var n, events := env.maxEntries, Advance(env, s', Resume(0, 2)).events;
    assert events[..n + 4] == s'.events && s'.events[..n + 3] == s.events;
    assert events == s'.events + [events[n + 4]] && s'.events == s.events + [s'.events[n + 3]];
    NumberedSize(0, n);
  }
}
