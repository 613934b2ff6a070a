/** Runs of the replay cache that show its bounds to be sharp. */
module ReplayExample {
  import opened Prelude
  import opened Json
  import opened JsMaps
  import opened Replay

  /** Every nonce is still remembered at that time. */
  ghost predicate AllLive(s: Seen, now: nat) { s.Valid() && forall k | k in s.dict :: s.dict[k] > now }

  /** The cache after accepting each nonce in turn at one time. */
  ghost function Feed(c: Config, s: Seen, nonces: seq<string>, now: nat): Seen {
    if nonces == [] then s else Consult(c, Feed(c, s, nonces[..|nonces| - 1], now), nonces[|nonces| - 1], now).0
  }

  lemma NothingSwept(c: Config, s: Seen, now: nat)
    requires AllLive(s, now)
    ensures Swept(c, s, now) == s
  {
    s.KeepAll();
    s.KeepAgree(s.dict.Keys, set k | k in s.dict && s.dict[k] > now);
  }

  lemma SetLive(c: Config, s: Seen, nonce: string, now: nat)
    requires AllLive(s, now) && nonce !in s.dict
    ensures var t := s.Set(nonce, now + c.maxSkewMs);
            AllLive(t, now) && t.keys == s.keys + [nonce] && t.dict.Keys == s.dict.Keys + {nonce}
  {
    s.SetValid(nonce, now + c.maxSkewMs);
  }

  lemma NewNonceIs(c: Config, s: Seen, nonce: string, now: nat)
    requires AllLive(s, now) && nonce !in s.dict
    ensures Consult(c, s, nonce, now) == (Trim(c, s.Set(nonce, now + c.maxSkewMs)), Accepted)
  {
    NothingSwept(c, s, now);
  }

  /** A nonce not seen is put last, and the oldest goes when there are too many. */
  lemma NewNonce(c: Config, s: Seen, nonce: string, now: nat)
    requires AllLive(s, now) && nonce !in s.dict
    ensures Consult(c, s, nonce, now).1 == Accepted && AllLive(Consult(c, s, nonce, now).0, now)
    ensures |s.keys| < c.maxEntries ==> Consult(c, s, nonce, now).0.keys == s.keys + [nonce]
    ensures |s.keys| >= c.maxEntries && s.keys != [] ==>
              Consult(c, s, nonce, now).0.dict.Keys == s.dict.Keys + {nonce} - {s.keys[0]}
  {
    NewNonceIs(c, s, nonce, now);
    SetLive(c, s, nonce, now);
    Trimmed(c, s.Set(nonce, now + c.maxSkewMs), now);
  }

  lemma Trimmed(c: Config, t: Seen, now: nat)
    requires AllLive(t, now) && t.keys != []
    ensures AllLive(Trim(c, t), now)
    ensures if |t.keys| <= c.maxEntries then Trim(c, t) == t else Trim(c, t).dict.Keys == t.dict.Keys - {t.keys[0]}
  {
    t.KeepValid(t.dict.Keys - {t.keys[0]});
  }

  /** While the cache is less than half full there is no sweep and no eviction. */
  lemma FewNonces(c: Config, s: Seen, nonce: string, now: nat)
    requires 2 * s.Size() < c.maxEntries && (nonce in s.dict ==> s.dict[nonce] <= now)
    ensures Consult(c, s, nonce, now) == (s.Set(nonce, now + c.maxSkewMs), Accepted)
  {
  }

  lemma DistinctLast(keys: seq<string>, nonces: seq<string>)
    requires nonces != [] && Distinct(keys + nonces)
    ensures var n := |nonces| - 1;
            && keys + nonces == keys + nonces[..n] + [nonces[n]]
            && nonces[n] !in keys + nonces[..n] && Distinct(keys + nonces[..n])
  {
    var n, all := |nonces| - 1, keys + nonces;
    assert forall i | 0 <= i < |keys| + n :: (keys + nonces[..n])[i] == all[i];
    assert all[|keys| + n] == nonces[n];
  }

  /** The cache holds what it held and the nonces, after it and in order, with the time they were accepted. */
  ghost predicate Holds(c: Config, t: Seen, s: Seen, nonces: seq<string>, now: nat) {
    && t.Valid() && t.keys == s.keys + nonces
    && forall k | k in t.dict :: t.dict[k] == if k in s.dict then s.dict[k] else now + c.maxSkewMs
  }

  lemma HoldsMore(c: Config, t: Seen, s: Seen, nonces: seq<string>, nonce: string, now: nat, all: seq<string>)
    requires s.Valid() && Holds(c, t, s, nonces, now) && nonce !in s.keys + nonces && 2 * t.Size() < c.maxEntries
    requires s.keys + all == s.keys + nonces + [nonce]
    ensures Holds(c, Consult(c, t, nonce, now).0, s, all, now)
  {
    FewNonces(c, t, nonce, now);
    t.SetValid(nonce, now + c.maxSkewMs);
  }

  lemma {:induction false} FedFew(c: Config, s: Seen, nonces: seq<string>, now: nat)
    requires s.Valid() && Distinct(s.keys + nonces) && 2 * (|s.keys| + |nonces| - 1) < c.maxEntries
    ensures Holds(c, Feed(c, s, nonces, now), s, nonces, now)
  {
    if nonces == [] {
      HoldsNothing(c, s, now);
    } else {
      var n := |nonces| - 1;
      DistinctLast(s.keys, nonces);
      FedFew(c, s, nonces[..n], now);
      HoldsMore(c, Feed(c, s, nonces[..n], now), s, nonces[..n], nonces[n], now, nonces);
    }
  }

  lemma HoldsNothing(c: Config, s: Seen, now: nat)
    requires s.Valid()
    ensures Holds(c, s, s, [], now)
  {
    assert s.keys + [] == s.keys;
  }

  lemma {:induction false} Fed(c: Config, s: Seen, nonces: seq<string>, now: nat)
    requires AllLive(s, now) && |s.keys| + |nonces| <= c.maxEntries
    requires Distinct(s.keys + nonces)
    ensures AllLive(Feed(c, s, nonces, now), now) && Feed(c, s, nonces, now).keys == s.keys + nonces
  {
    if nonces == [] {
      assert s.keys + nonces == s.keys;
    } else {
      var n := |nonces| - 1;
      DistinctLast(s.keys, nonces);
      Fed(c, s, nonces[..n], now);
      NewNonce(c, Feed(c, s, nonces[..n], now), nonces[n], now);
    }
  }

  // ---------------------------------------------------------------- runs that feed the cache

  function Stamped(nonce: string, t: nat): Payload { Payload(Some(nonce), Stamp.Num(Finite(t as real))) }

  /** One request for each nonce, all at one time. */
  function Each(nonces: seq<string>, now: nat): seq<Call> {
    seq(|nonces|, i requires 0 <= i < |nonces| => Call(Stamped(nonces[i], now), now))
  }

  /** From this time on a number is read as milliseconds. */
  const MILLISECONDS_FROM: nat := 1000000000000

  /** The cache is consulted about a nonce stamped with the time. */
  ghost predicate Usable(c: Config, nonce: string, now: nat) {
    c.required && MILLISECONDS_FROM <= now && NonceOk(nonce)
  }

  ghost predicate AllUsable(c: Config, nonces: seq<string>, now: nat) { forall k | k in nonces :: Usable(c, k, now) }

  lemma StampedConsults(c: Config, dateParse: DateParse, s: Seen, nonce: string, now: nat)
    requires Usable(c, nonce, now)
    ensures Judge(c, dateParse, s, Stamped(nonce, now), now) == Consult(c, s, nonce, now)
  {
  }

  lemma {:induction false} RunFeeds(c: Config, dateParse: DateParse, before: seq<Call>, nonces: seq<string>, now: nat)
    requires AllUsable(c, nonces, now)
    ensures Run(c, dateParse, before + Each(nonces, now)).seen
         == Feed(c, Run(c, dateParse, before).seen, nonces, now)
  {
    var all := before + Each(nonces, now);
    if nonces == [] {
      assert all == before;
    } else {
      var n := |nonces| - 1;
      assert all[..|all| - 1] == before + Each(nonces[..n], now);
      RunFeeds(c, dateParse, before, nonces[..n], now);
      LastVerdict(c, dateParse, all);
      StampedConsults(c, dateParse, Run(c, dateParse, all[..|all| - 1]).seen, nonces[n], now);
    }
  }

  /** A call for the nonce in a run, judged by what the run had left in the cache. */
  lemma {:induction false} ConsultedAt(c: Config, dateParse: DateParse, calls: seq<Call>, j: nat, nonce: string)
    requires j < |calls| && calls[j] == Call(Stamped(nonce, calls[j].now), calls[j].now)
    requires Usable(c, nonce, calls[j].now)
    ensures Run(c, dateParse, calls).verdicts[j]
         == Consult(c, Run(c, dateParse, calls[..j]).seen, nonce, calls[j].now).1
  {
    VerdictAt(c, dateParse, calls, j);
    StampedConsults(c, dateParse, Run(c, dateParse, calls[..j]).seen, nonce, calls[j].now);
  }

  // ---------------------------------------------------------------- how many others a nonce survives

  /** How many other nonces are accepted between two calls. */
  ghost function Between(c: Config, dateParse: DateParse, calls: seq<Call>, i: nat, j: nat): nat
    requires i < j < |calls|
  {
    |Others(calls, Run(c, dateParse, calls).verdicts, i, j, calls[j].Nonce())|
  }

  /** Call j gets through less than maxSkewMs after call i did with the same nonce. */
  ghost predicate SlipsThrough(c: Config, dateParse: DateParse, calls: seq<Call>, i: nat, j: nat)
    requires i < j < |calls|
  {
    var v := Run(c, dateParse, calls).verdicts;
    AcceptedAt(calls, v, i, calls[j].Nonce()) && v[j] == Accepted && calls[j].now < calls[i].now + c.maxSkewMs
  }

  /** What a cache holds that accepted one nonce only. */
  ghost function Kept(c: Config, nonce: string, at: nat): Seen { JsMap([nonce], map[nonce := at + c.maxSkewMs]) }

  lemma Reaccepted(c: Config, s: Seen, k: string, xs: seq<string>, t: nat, now: nat) returns (s': Seen)
    requires Holds(c, s, Kept(c, k, t), xs, t + 1) && 2 * s.Size() < c.maxEntries && now == t + c.maxSkewMs
    ensures Consult(c, s, k, now) == (s', Accepted) && s'.keys == [k] + xs && AllLive(s', now)
  {
    assert s.keys[0] == k;
    FewNonces(c, s, k, now);
    s.SetValid(k, now + c.maxSkewMs);
    s' := s.Set(k, now + c.maxSkewMs);
  }

  lemma PushedOut(c: Config, s: Seen, k: string, others: seq<string>, now: nat, t: Seen)
    requires Pushable(c, s, k, others, now) && t == Feed(c, s, others, now)
    ensures Consult(c, t, k, now).1 == Accepted
  {
    var n := |others| - 1;
    DistinctLast(s.keys, others);
    Fed(c, s, others[..n], now);
    var u := Feed(c, s, others[..n], now);
    assert u.keys[0] == k && others[n] != k;
    NewNonce(c, u, others[n], now);
    NothingSwept(c, t, now);
  }

  /** The nonce is the oldest of a cache that the others overfill. */
  ghost predicate Pushable(c: Config, s: Seen, k: string, others: seq<string>, now: nat) {
    && AllLive(s, now) && s.keys != [] && s.keys[0] == k && Distinct(s.keys + others)
    && others != [] && |s.keys| + |others| == c.maxEntries + 1
  }

  /** A run goes on with the others and then the nonce, all at one time. */
  ghost predicate GoesOn(before: seq<Call>, calls: seq<Call>, k: string, others: seq<string>, now: nat) {
    && |calls| == |before| + |others| + 1
    && calls[..|before| + |others|] == before + Each(others, now)
    && calls[|before| + |others|] == Call(Stamped(k, now), now)
  }

  lemma GoOn(before: seq<Call>, k: string, others: seq<string>, now: nat) returns (calls: seq<Call>)
    ensures GoesOn(before, calls, k, others, now)
  {
    calls := before + Each(others, now) + [Call(Stamped(k, now), now)];
  }

  /** What is known of the calls of such a run. */
  lemma CallsOf(before: seq<Call>, calls: seq<Call>, k: string, others: seq<string>, now: nat)
    requires GoesOn(before, calls, k, others, now)
    ensures calls[..|before|] == before
    ensures forall m | |before| <= m < |calls| - 1 :: calls[m].Nonce() in others
    ensures forall m | |before| <= m < |calls| :: calls[m].now == now
  {
    var most := before + Each(others, now);
    assert calls[..|before|] == most[..|before|] == before;
    forall m | |before| <= m < |calls| - 1 ensures calls[m].Nonce() in others && calls[m].now == now {
      assert calls[m] == most[m] == Each(others, now)[m - |before|];
    }
  }

  lemma TimelyOn(before: seq<Call>, calls: seq<Call>, k: string, others: seq<string>, now: nat)
    requires GoesOn(before, calls, k, others, now) && Timely(before) && LastTime(before) <= now
    ensures Timely(calls)
  {
    CallsOf(before, calls, k, others, now);
    forall i | 0 <= i < |before| ensures calls[i] == before[i] && calls[i].now <= now {
      assert calls[i] == calls[..|before|][i];
    }
  }

  lemma {:induction false} OthersPush(c: Config, dateParse: DateParse, before: seq<Call>, k: string,
                                      others: seq<string>, now: nat, s: Seen)
    requires AllUsable(c, others, now) && s == Run(c, dateParse, before).seen && Pushable(c, s, k, others, now)
    ensures Consult(c, Run(c, dateParse, before + Each(others, now)).seen, k, now).1 == Accepted
  {
    RunFeeds(c, dateParse, before, others, now);
    PushedOut(c, s, k, others, now, Run(c, dateParse, before + Each(others, now)).seen);
  }

  lemma {:induction false} PushedInRun(c: Config, dateParse: DateParse, before: seq<Call>, calls: seq<Call>,
                                       k: string, others: seq<string>, now: nat, s: Seen)
    requires AllUsable(c, others, now) && Usable(c, k, now) && GoesOn(before, calls, k, others, now)
    requires s == Run(c, dateParse, before).seen && Pushable(c, s, k, others, now)
    ensures Run(c, dateParse, calls).verdicts[|calls| - 1] == Accepted
  {
    OthersPush(c, dateParse, before, k, others, now, s);
    LastConsults(c, dateParse, calls, k, now, Run(c, dateParse, before + Each(others, now)).seen);
  }

  lemma {:induction false} LastConsults(c: Config, dateParse: DateParse, calls: seq<Call>, k: string, now: nat, s: Seen)
    requires calls != [] && calls[|calls| - 1] == Call(Stamped(k, now), now) && Usable(c, k, now)
    requires s == Run(c, dateParse, calls[..|calls| - 1]).seen && Consult(c, s, k, now).1 == Accepted
    ensures Run(c, dateParse, calls).verdicts[|calls| - 1] == Accepted
  {
    ConsultedAt(c, dateParse, calls, |calls| - 1, k);
  }

  /** No more nonces are accepted between two calls than are asked for. */
  lemma {:induction false} OthersAmong(calls: seq<Call>, v: seq<Verdict>, i: nat, j: nat, nonce: string,
                                       others: seq<string>)
    requires |calls| == |v| && i < j <= |calls| && Distinct(others)
    requires forall m | i < m < j :: calls[m].Nonce() in others
    ensures |Others(calls, v, i, j, nonce)| <= |others|
  {
    DistinctSize(others);
    SubsetSize(Others(calls, v, i, j, nonce), set k | k in others);
  }

  lemma {:induction false} FewBetween(c: Config, dateParse: DateParse, before: seq<Call>, calls: seq<Call>, k: string,
                                      others: seq<string>, now: nat, i: nat, j: nat)
    requires Distinct(others) && GoesOn(before, calls, k, others, now) && i + 1 == |before| && j + 1 == |calls|
    ensures i < j && Between(c, dateParse, calls, i, j) <= |others|
  {
    CallsOf(before, calls, k, others, now);
    OthersAmong(calls, Run(c, dateParse, calls).verdicts, i, j, calls[j].Nonce(), others);
  }

  /** The nonce is accepted last in a run, the others come after it at the same time, and it is accepted again. */
  lemma {:induction false} Slips(c: Config, dateParse: DateParse, before: seq<Call>, calls: seq<Call>, k: string,
                                 others: seq<string>, now: nat, i: nat, j: nat)
    requires GoesOn(before, calls, k, others, now) && i + 1 == |before| && j + 1 == |calls|
    requires LastAccepts(c, dateParse, before, k, now) && Run(c, dateParse, calls).verdicts[j] == Accepted
    ensures i < j && SlipsThrough(c, dateParse, calls, i, j)
  {
    CallsOf(before, calls, k, others, now);
    SlipsAfter(c, dateParse, before, calls, k, now, i, j);
  }

  lemma {:induction false} SlipsAfter(c: Config, dateParse: DateParse, before: seq<Call>, calls: seq<Call>, k: string,
                                      now: nat, i: nat, j: nat)
    requires i + 1 == |before| <= j < |calls| && calls[..|before|] == before
    requires LastAccepts(c, dateParse, before, k, now) && Run(c, dateParse, calls).verdicts[j] == Accepted
    requires calls[j].Nonce() == k && calls[j].now == now
    ensures SlipsThrough(c, dateParse, calls, i, j)
  {
    SameBefore(c, dateParse, before, calls, i);
  }

  lemma {:induction false} SameBefore(c: Config, dateParse: DateParse, before: seq<Call>, calls: seq<Call>, i: nat)
    requires i < |before| <= |calls| && calls[..|before|] == before
    ensures calls[i] == before[i] && Run(c, dateParse, calls).verdicts[i] == Run(c, dateParse, before).verdicts[i]
  {
    var v := Run(c, dateParse, calls).verdicts;
    RunPrefix(c, dateParse, calls, |before|);
    assert calls[i] == calls[..|before|][i] && v[i] == v[..|before|][i];
  }

  ghost predicate LastAccepts(c: Config, dateParse: DateParse, calls: seq<Call>, k: string, now: nat) {
    && calls != [] && calls[|calls| - 1] == Call(Stamped(k, now), now)
    && Run(c, dateParse, calls).verdicts[|calls| - 1] == Accepted
  }

  /** It cannot have slipped through in a quiet run. */
  lemma {:induction false} SlippedUnquietly(c: Config, dateParse: DateParse, calls: seq<Call>, i: nat, j: nat,
                                            inserted: bool)
    requires Timely(calls) && i < j < |calls| && SlipsThrough(c, dateParse, calls, i, j)
    requires inserted == Inserted(c, dateParse, calls, i)
    ensures var n := Between(c, dateParse, calls, i, j); n >= c.maxEntries || (n > Spared(c) && !inserted)
  {
    if Quiet(c, dateParse, calls, i, j) {
      Retention(c, dateParse, calls, i, j);
      assert false;
    }
  }

  /** As few others as a quiet run does not allow. */
  predicate OneTooMany(c: Config, inserted: bool, others: nat) {
    if inserted then others == c.maxEntries else others == Spared(c) + 1 && others < c.maxEntries
  }

  /** The run goes on, and a nonce that the others push out gets through. */
  lemma {:induction false} PushedOn(c: Config, dateParse: DateParse, before: seq<Call>, k: string, others: seq<string>,
                                    now: nat, s: Seen) returns (calls: seq<Call>)
    requires AllUsable(c, others, now) && Usable(c, k, now)
    requires s == Run(c, dateParse, before).seen && Pushable(c, s, k, others, now)
    ensures GoesOn(before, calls, k, others, now) && Run(c, dateParse, calls).verdicts[|calls| - 1] == Accepted
  {
    calls := GoOn(before, k, others, now);
    PushedInRun(c, dateParse, before, calls, k, others, now, s);
  }

  lemma {:induction false} LastInserted(c: Config, dateParse: DateParse, before: seq<Call>, calls: seq<Call>, k: string,
                                        others: seq<string>, now: nat, i: nat)
    requires i == |before| - 1 && GoesOn(before, calls, k, others, now)
    ensures Inserted(c, dateParse, calls, i) == Inserted(c, dateParse, before, i)
  {
    CallsOf(before, calls, k, others, now);
    assert calls[i] == calls[..|before|][i] && calls[..i] == calls[..|before|][..i];
  }

  /** So all of them were needed. */
  lemma {:induction false} AllNeeded(c: Config, dateParse: DateParse, calls: seq<Call>, i: nat, j: nat, others: nat,
                                     inserted: bool)
    requires Timely(calls) && i < j < |calls| && SlipsThrough(c, dateParse, calls, i, j)
    requires inserted == Inserted(c, dateParse, calls, i) && OneTooMany(c, inserted, others)
    requires Between(c, dateParse, calls, i, j) <= others
    ensures Between(c, dateParse, calls, i, j) == others
  {
    SlippedUnquietly(c, dateParse, calls, i, j, inserted);
  }

  /** The nonce, fewer than half of maxEntries others, and the nonce again when its time is over. */
  function TwicePlaced(c: Config, k: string, xs: seq<string>, t: nat): seq<Call> {
    Each([k], t) + Each(xs, t + 1) + Each([k], t + c.maxSkewMs)
  }

  lemma TwicePlacedCalls(c: Config, k: string, xs: seq<string>, t: nat)
    ensures var calls, now := TwicePlaced(c, k, xs, t), t + c.maxSkewMs;
            && |calls| == |xs| + 2 && Timely(calls) && calls[|xs| + 1] == Call(Stamped(k, now), now)
            && calls[..|xs| + 1] == Each([k], t) + Each(xs, t + 1)
  {
  }

  lemma {:induction false} AloneAccepted(c: Config, dateParse: DateParse, k: string, t: nat)
    requires Usable(c, k, t)
    ensures LastAccepts(c, dateParse, Each([k], t), k, t) && Run(c, dateParse, Each([k], t)).seen == Kept(c, k, t)
  {
    var calls := Each([k], t);
    assert calls[..0] == [];
    LastVerdict(c, dateParse, calls);
    StampedConsults(c, dateParse, EmptyMap(), k, t);
    OnlyNonce(c, EmptyMap(), k, 0, t);
  }

  lemma {:induction false} HeldAfter(c: Config, dateParse: DateParse, before: seq<Call>, s: Seen, xs: seq<string>,
                                     now: nat)
    requires AllUsable(c, xs, now) && Run(c, dateParse, before).seen == s
    requires s.Valid() && Distinct(s.keys + xs) && 2 * (|s.keys| + |xs| - 1) < c.maxEntries
    ensures Holds(c, Run(c, dateParse, before + Each(xs, now)).seen, s, xs, now)
  {
    RunFeeds(c, dateParse, before, xs, now);
    FedFew(c, s, xs, now);
  }

  lemma {:induction false} AgainAfter(c: Config, dateParse: DateParse, calls: seq<Call>, s: Seen, k: string,
                                      xs: seq<string>, t: nat, now: nat)
    requires Usable(c, k, now) && calls != [] && calls[|calls| - 1] == Call(Stamped(k, now), now)
    requires s == Run(c, dateParse, calls[..|calls| - 1]).seen && Holds(c, s, Kept(c, k, t), xs, t + 1)
    requires 2 * s.Size() < c.maxEntries && now == t + c.maxSkewMs
    ensures LastAccepts(c, dateParse, calls, k, now)
    ensures Run(c, dateParse, calls).seen.keys == [k] + xs && AllLive(Run(c, dateParse, calls).seen, now)
  {
    var s' := Reaccepted(c, s, k, xs, t, now);
    LastIs(c, dateParse, calls, s, k, now, s');
  }

  /** A last call that is let through. */
  lemma {:induction false} LastIs(c: Config, dateParse: DateParse, calls: seq<Call>, s: Seen, k: string, now: nat,
                                  s': Seen)
    requires Usable(c, k, now) && calls != [] && calls[|calls| - 1] == Call(Stamped(k, now), now)
    requires s == Run(c, dateParse, calls[..|calls| - 1]).seen && Consult(c, s, k, now) == (s', Accepted)
    ensures LastAccepts(c, dateParse, calls, k, now) && Run(c, dateParse, calls).seen == s'
  {
    LastVerdict(c, dateParse, calls);
    StampedConsults(c, dateParse, s, k, now);
  }

  lemma {:induction false} StaysThere(c: Config, dateParse: DateParse, calls: seq<Call>, s: Seen, k: string,
                                      xs: seq<string>, t: nat, i: nat)
    requires i < |calls| && calls[i].Nonce() == k && s == Run(c, dateParse, calls[..i]).seen
    requires Holds(c, s, Kept(c, k, t), xs, t + 1) && 2 * s.Size() < c.maxEntries
    ensures !Inserted(c, dateParse, calls, i)
  {
    assert s.keys[0] == k;
  }

  /** It is accepted again in its old place. */
  lemma {:induction false} KeptInPlace(c: Config, dateParse: DateParse, calls: seq<Call>, s: Seen, k: string,
                                       xs: seq<string>, t: nat, now: nat, i: nat)
    requires Usable(c, k, now) && i + 1 == |calls| && calls[i] == Call(Stamped(k, now), now)
    requires s == Run(c, dateParse, calls[..i]).seen && Holds(c, s, Kept(c, k, t), xs, t + 1)
    requires 2 * s.Size() < c.maxEntries && now == t + c.maxSkewMs
    ensures LastAccepts(c, dateParse, calls, k, now) && !Inserted(c, dateParse, calls, i)
    ensures Run(c, dateParse, calls).seen.keys == [k] + xs && AllLive(Run(c, dateParse, calls).seen, now)
  {
    AgainAfter(c, dateParse, calls, s, k, xs, t, now);
    StaysThere(c, dateParse, calls, s, k, xs, t, i);
  }

  lemma KeptIs(c: Config, k: string, t: nat)
    ensures Kept(c, k, t).Valid() && Kept(c, k, t).keys == [k]
  {
  }

  lemma {:induction false} HeldOn(c: Config, dateParse: DateParse, before: seq<Call>, one: Seen, k: string,
                                  xs: seq<string>, now: nat) returns (s: Seen)
    requires AllUsable(c, xs, now) && Run(c, dateParse, before).seen == one && one.Valid() && one.keys == [k]
    requires 2 * (|xs| + 1) < c.maxEntries && Distinct([k] + xs)
    ensures s == Run(c, dateParse, before + Each(xs, now)).seen
    ensures Holds(c, s, one, xs, now) && 2 * s.Size() < c.maxEntries
  {
    s := Run(c, dateParse, before + Each(xs, now)).seen;
    HeldAfter(c, dateParse, before, one, xs, now);
  }

  lemma {:induction false} HeldBefore(c: Config, dateParse: DateParse, k: string, xs: seq<string>, t: nat)
    returns (s: Seen)
    requires 2 * (|xs| + 1) < c.maxEntries && Distinct([k] + xs) && Usable(c, k, t) && AllUsable(c, xs, t)
    ensures s == Run(c, dateParse, Each([k], t) + Each(xs, t + 1)).seen
    ensures Holds(c, s, Kept(c, k, t), xs, t + 1) && 2 * s.Size() < c.maxEntries
  {
    AloneAccepted(c, dateParse, k, t);
    KeptIs(c, k, t);
    s := HeldOn(c, dateParse, Each([k], t), Kept(c, k, t), k, xs, t + 1);
  }

  lemma {:induction false} KeepsPlace(c: Config, dateParse: DateParse, k: string, xs: seq<string>, t: nat, now: nat,
                                      calls: seq<Call>, i: nat)
    requires 2 * (|xs| + 1) < c.maxEntries && Distinct([k] + xs) && Usable(c, k, t) && AllUsable(c, xs, t)
    requires now == t + c.maxSkewMs && calls == TwicePlaced(c, k, xs, t) && i == |xs| + 1
    ensures |calls| == i + 1 && LastAccepts(c, dateParse, calls, k, now) && !Inserted(c, dateParse, calls, i)
    ensures Run(c, dateParse, calls).seen.keys == [k] + xs && AllLive(Run(c, dateParse, calls).seen, now)
  {
    TwicePlacedCalls(c, k, xs, t);
    var s := HeldBefore(c, dateParse, k, xs, t);
    KeptInPlace(c, dateParse, calls, s, k, xs, t, now, i);
  }

  lemma SparedSizes(c: Config, n: nat)
    requires c.maxEntries >= 5 && n + Spared(c) + 1 == c.maxEntries
    ensures 2 * (n + 1) < c.maxEntries && Spared(c) + 1 < c.maxEntries
  {
  }

  /**
   * Call j gets through less than maxSkewMs after call i let the same nonce through, with so many others accepted
   * in between.
   */
  ghost predicate Slip(c: Config, dateParse: DateParse, calls: seq<Call>, i: nat, j: nat, inserted: bool, others: nat) {
    && Timely(calls) && i < j < |calls| && SlipsThrough(c, dateParse, calls, i, j)
    && Inserted(c, dateParse, calls, i) == inserted && Between(c, dateParse, calls, i, j) == others
  }

  lemma {:induction false} SlipsOn(c: Config, dateParse: DateParse, before: seq<Call>, calls: seq<Call>, k: string,
                                   others: seq<string>, now: nat, i: nat, j: nat, inserted: bool)
    requires Timely(before) && LastAccepts(c, dateParse, before, k, now) && Distinct(others)
    requires GoesOn(before, calls, k, others, now) && i == |before| - 1 && j == |calls| - 1
    requires Run(c, dateParse, calls).verdicts[j] == Accepted
    requires inserted == Inserted(c, dateParse, before, i) && OneTooMany(c, inserted, |others|)
    ensures Slip(c, dateParse, calls, i, j, inserted, |others|)
  {
    TimelyOn(before, calls, k, others, now);
    LastInserted(c, dateParse, before, calls, k, others, now, i);
    FewBetween(c, dateParse, before, calls, k, others, now, i, j);
    Slips(c, dateParse, before, calls, k, others, now, i, j);
    AllNeeded(c, dateParse, calls, i, j, |others|, inserted);
  }

  /** The nonce is accepted again in its old place, pushed out, and let through. */
  lemma {:induction false} SparedRun(c: Config, dateParse: DateParse, k: string, xs: seq<string>,
                                     others: seq<string>, t: nat, now: nat, i: nat)
    returns (before: seq<Call>, calls: seq<Call>)
    requires c.maxEntries >= 5 && |others| == Spared(c) + 1 && |xs| + |others| == c.maxEntries
    requires Distinct([k] + xs + others) && Usable(c, k, t) && AllUsable(c, xs, t)
    requires AllUsable(c, others, t) && now == t + c.maxSkewMs && i == |xs| + 1
    ensures |before| == i + 1 && Timely(before) && LastAccepts(c, dateParse, before, k, now)
    ensures !Inserted(c, dateParse, before, i)
    ensures GoesOn(before, calls, k, others, now) && Run(c, dateParse, calls).verdicts[|calls| - 1] == Accepted
  {
    before := TwicePlaced(c, k, xs, t);
    SparedSizes(c, |xs|);
    DistinctParts(k, xs, others);
    TwicePlacedCalls(c, k, xs, t);
    KeepsPlace(c, dateParse, k, xs, t, now, before, i);
    calls := PushedOn(c, dateParse, before, k, others, now, Run(c, dateParse, before).seen);
  }

  /**
   * One more other acceptance than is spared, though fewer than maxEntries, and a nonce accepted again in place
   * is accepted once more. So `Spared` cannot be raised.
   */
  lemma {:induction false} SparedIsSharp(c: Config, dateParse: DateParse, k: string, xs: seq<string>,
                                         others: seq<string>, t: nat)
    requires c.maxEntries >= 5 && |others| == Spared(c) + 1 && |xs| + |others| == c.maxEntries
    requires Distinct([k] + xs + others) && AllUsable(c, [k] + xs + others, t)
    ensures |others| < c.maxEntries && exists calls, i: nat, j: nat :: Slip(c, dateParse, calls, i, j, false, |others|)
  {
    SparedSizes(c, |xs|);
    DistinctParts(k, xs, others);
    UsableParts(c, k, xs, others, t);
    var now, i := t + c.maxSkewMs, |xs| + 1;
    var before, calls := SparedRun(c, dateParse, k, xs, others, t, now, i);
    SlipsOn(c, dateParse, before, calls, k, others, now, i, |calls| - 1, false);
  }

  lemma DistinctParts(k: string, xs: seq<string>, others: seq<string>)
    requires Distinct([k] + xs + others)
    ensures Distinct([k] + xs) && Distinct(others)
  {
    var all := [k] + xs + others;
    assert forall i | 0 <= i < |xs| + 1 :: ([k] + xs)[i] == all[i];
    assert forall i | 0 <= i < |others| :: others[i] == all[|xs| + 1 + i];
  }

  lemma UsableParts(c: Config, k: string, xs: seq<string>, others: seq<string>, t: nat)
    requires AllUsable(c, [k] + xs + others, t)
    ensures Usable(c, k, t) && AllUsable(c, xs, t) && AllUsable(c, others, t)
  {
    var all := [k] + xs + others;
    assert forall x | x == k || x in xs || x in others :: x in all;
  }

  /** And maxEntries others push out a nonce that was newly inserted. */
  lemma {:induction false} CapacityIsSharp(c: Config, dateParse: DateParse, k: string, others: seq<string>, t: nat)
    requires |others| == c.maxEntries && Distinct([k] + others) && AllUsable(c, [k] + others, t)
    ensures exists calls, i: nat, j: nat :: Slip(c, dateParse, calls, i, j, true, |others|)
  {
    var before := Each([k], t);
    assert [k] + [] + others == [k] + others && before[..0] == [];
    DistinctParts(k, [], others);
    UsableParts(c, k, [], others, t);
    AloneAccepted(c, dateParse, k, t);
    var calls := PushedOn(c, dateParse, before, k, others, t, Kept(c, k, t));
    SlipsOn(c, dateParse, before, calls, k, others, t, 0, |calls| - 1, true);
  }

  // ---------------------------------------------------------------- sweeps may follow each other closely

  const SMALL: Config := Settings(true, 1000, 2)

  /** Two sweeps one millisecond apart, each of which drops a nonce. */
  lemma TwoSweepsInOneWindow(a: string, b: string, x: string, y: string)
    requires Distinct([a, b, x, y])
    ensures var s := Consult(SMALL, Consult(SMALL, EmptyMap(), a, 0).0, b, 1).0;
            var t := Consult(SMALL, s, x, 1000).0;
            && a in s.dict && a !in Swept(SMALL, s, 1000).dict
            && b in t.dict && b !in Swept(SMALL, t, 1001).dict
  {
    var all := [a, b, x, y];
    assert all[0] != all[1] && all[0] != all[2] && all[1] != all[2];
    var one := JsMap([a], map[a := 1000]);
    assert Consult(SMALL, EmptyMap(), a, 0).0 == one;
    NewNonce(SMALL, one, b, 1);
    var s := Consult(SMALL, one, b, 1).0;
    NothingSwept(SMALL, one, 1);
    assert s.keys == [a, b] && s.dict == map[a := 1000, b := 1001];
    AfterFirstSweep(s, a, b, x);
  }

  lemma KeepOneOfTwo(a: string, b: string, i: nat, j: nat, keep: set<string>)
    requires a != b && a !in keep && b in keep
    ensures JsMap([a, b], map[a := i, b := j]).Keep(keep) == JsMap([b], map[b := j])
  {
    var s := JsMap([a, b], map[a := i, b := j]);
    assert s.keys[1..] == [b] && s.keys[1..][1..] == [];
    assert Select([b], keep) == [b] + Select([], keep);
    assert s.Keep(keep).dict == map[b := j];
  }

  lemma AfterFirstSweep(s: Seen, a: string, b: string, x: string)
    requires a != b && a != x && b != x && s == JsMap([a, b], map[a := 1000, b := 1001])
    ensures a !in Swept(SMALL, s, 1000).dict
    ensures var t := Consult(SMALL, s, x, 1000).0; b in t.dict && b !in Swept(SMALL, t, 1001).dict
  {
    KeepOneOfTwo(a, b, 1000, 1001, set k | k in s.dict && s.dict[k] > 1000);
    var swept := Swept(SMALL, s, 1000);
    assert swept == JsMap([b], map[b := 1001]);
    assert swept.Set(x, 2000) == JsMap([b, x], map[b := 1001, x := 2000]);
  }

  // ---------------------------------------------------------------- three acceptances

  /** One request, at the start, the middle and the end of the window around its timestamp. */
  function Thrice(c: Config, nonce: string, t: nat): seq<Call>
    requires c.maxSkewMs <= t
  {
    var p := Stamped(nonce, t);
    [Call(p, t - c.maxSkewMs), Call(p, t), Call(p, t + c.maxSkewMs)]
  }

  lemma KeepOne(nonce: string, e: nat, keep: set<string>)
    ensures var s := JsMap([nonce], map[nonce := e]); s.Keep(keep) == if nonce in keep then s else EmptyMap()
  {
    var s := JsMap([nonce], map[nonce := e]);
    assert s.keys[1..] == [] && Select([], keep) == [];
    assert s.Keep(keep).dict == if nonce in keep then s.dict else map[];
  }

  /** A cache that holds at most this nonce, whose time is over, accepts it and holds only it. */
  lemma OnlyNonce(c: Config, s: Seen, nonce: string, e: nat, now: nat)
    requires s == EmptyMap() || (e <= now && s == JsMap([nonce], map[nonce := e]))
    ensures Consult(c, s, nonce, now) == (JsMap([nonce], map[nonce := now + c.maxSkewMs]), Accepted)
  {
    KeepOne(nonce, e, set k | k in s.dict && s.dict[k] > now);
    var swept := Swept(c, s, now);
    assert swept == s || swept == EmptyMap();
    assert swept.Set(nonce, now + c.maxSkewMs) == JsMap([nonce], map[nonce := now + c.maxSkewMs]);
  }

  /** It is accepted when it comes in the window around its timestamp. */
  lemma JudgeOnly(c: Config, dateParse: DateParse, s: Seen, nonce: string, t: nat, e: nat, now: nat)
    requires c.required && NonceOk(nonce) && SECONDS_THRESHOLD <= t as real
    requires t <= now + c.maxSkewMs && now <= t + c.maxSkewMs
    requires s == EmptyMap() || (e <= now && s == JsMap([nonce], map[nonce := e]))
    ensures Judge(c, dateParse, s, Stamped(nonce, t), now) == (Kept(c, nonce, now), Accepted)
  {
    assert Precheck(c, dateParse, Stamped(nonce, t), now).None?;
    OnlyNonce(c, s, nonce, e, now);
  }

  /** All three are accepted, so the bound of `AtMostThree` is reached. */
  lemma {:induction false} ThreeAreAccepted(c: Config, dateParse: DateParse, nonce: string, t: nat)
    requires c.required && NonceOk(nonce) && SECONDS_THRESHOLD <= t as real && c.maxSkewMs <= t
    ensures Timely(Thrice(c, nonce, t)) && QuietFor(c, dateParse, Thrice(c, nonce, t), nonce)
    ensures AcceptancesOf(c, dateParse, Thrice(c, nonce, t), nonce, Stamp.Num(Finite(t as real))) == {0, 1, 2}
  {
    var calls := Thrice(c, nonce, t);
    ThriceAccepted(c, dateParse, nonce, t);
    OnlyOne(c, dateParse, calls, nonce);
    AllAccepted(c, dateParse, calls, nonce, Stamp.Num(Finite(t as real)));
  }

  /** A run with one nonce only is quiet. */
  lemma {:induction false} OnlyOne(c: Config, dateParse: DateParse, calls: seq<Call>, nonce: string)
    requires forall i | 0 <= i < |calls| :: calls[i].Nonce() == nonce
    ensures QuietFor(c, dateParse, calls, nonce)
  {
    var v := Run(c, dateParse, calls).verdicts;
    forall i: nat, j: nat | i < j < |calls| ensures Others(calls, v, i, j, nonce) == {} {
    }
  }

  lemma {:induction false} AllAccepted(c: Config, dateParse: DateParse, calls: seq<Call>, nonce: string, stamp: Stamp)
    requires |calls| == 3 && Run(c, dateParse, calls).verdicts == [Accepted, Accepted, Accepted]
    requires forall i | 0 <= i < 3 :: calls[i].Nonce() == nonce && calls[i].payload.stamp == stamp
    ensures AcceptancesOf(c, dateParse, calls, nonce, stamp) == {0, 1, 2}
  {
    assert forall i: nat | i < 3 :: AcceptedAt(calls, Run(c, dateParse, calls).verdicts, i, nonce);
  }

  /** One more call that is let through. */
  lemma {:induction false} Again(c: Config, dateParse: DateParse, before: seq<Call>, calls: seq<Call>, seen: Seen)
    requires calls != [] && calls[..|calls| - 1] == before
    requires var call := calls[|calls| - 1];
             Judge(c, dateParse, Run(c, dateParse, before).seen, call.payload, call.now) == (seen, Accepted)
    ensures Run(c, dateParse, calls).seen == seen
    ensures Run(c, dateParse, calls).verdicts == Run(c, dateParse, before).verdicts + [Accepted]
  {
    LastVerdict(c, dateParse, calls);
    EndsIn(Run(c, dateParse, calls).verdicts, Run(c, dateParse, before).verdicts);
  }

  lemma EndsIn(v: seq<Verdict>, before: seq<Verdict>)
    requires v != [] && v[..|v| - 1] == before && v[|v| - 1] == Accepted
    ensures v == before + [Accepted]
  {
  }

  /** Once more, at a time in its window and not before it may be forgotten. */
  lemma {:induction false} OnceMore(c: Config, dateParse: DateParse, before: seq<Call>, calls: seq<Call>, s: Seen,
                                    nonce: string, t: nat, e: nat, now: nat)
    requires c.required && NonceOk(nonce) && SECONDS_THRESHOLD <= t as real
    requires t <= now + c.maxSkewMs && now <= t + c.maxSkewMs
    requires s == EmptyMap() || (e <= now && s == JsMap([nonce], map[nonce := e]))
    requires calls != [] && calls[..|calls| - 1] == before && calls[|calls| - 1] == Call(Stamped(nonce, t), now)
    requires s == Run(c, dateParse, before).seen
    ensures Run(c, dateParse, calls).seen == Kept(c, nonce, now)
    ensures Run(c, dateParse, calls).verdicts == Run(c, dateParse, before).verdicts + [Accepted]
  {
    JudgeOnly(c, dateParse, s, nonce, t, e, now);
    Again(c, dateParse, before, calls, Kept(c, nonce, now));
  }

  lemma {:induction false} TwiceAccepted(c: Config, dateParse: DateParse, nonce: string, t: nat)
    requires c.required && NonceOk(nonce) && SECONDS_THRESHOLD <= t as real && c.maxSkewMs <= t
    ensures var two := Run(c, dateParse, Thrice(c, nonce, t)[..2]);
            two.verdicts == [Accepted, Accepted] && two.seen == Kept(c, nonce, t)
  {
    var two := Thrice(c, nonce, t)[..2];
    var one := two[..1];
    assert one[..0] == [];
    OnceMore(c, dateParse, [], one, EmptyMap(), nonce, t, 0, t - c.maxSkewMs);
    OnceMore(c, dateParse, one, two, Kept(c, nonce, t - c.maxSkewMs), nonce, t, t, t);
  }

  lemma {:induction false} ThriceAccepted(c: Config, dateParse: DateParse, nonce: string, t: nat)
    requires c.required && NonceOk(nonce) && SECONDS_THRESHOLD <= t as real && c.maxSkewMs <= t
    ensures Run(c, dateParse, Thrice(c, nonce, t)).verdicts == [Accepted, Accepted, Accepted]
  {
    var calls := Thrice(c, nonce, t);
    TwiceAccepted(c, dateParse, nonce, t);
    OnceMore(c, dateParse, calls[..2], calls, Kept(c, nonce, t), nonce, t, t + c.maxSkewMs, t + c.maxSkewMs);
  }
}
