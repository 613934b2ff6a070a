/**
 * The in-process key/value store of src/attestation/kv.store.ts: entries with a deadline, in an
 * insertion-ordered map that drops expired entries and then the oldest ones once it is full.
 */
module KvStore {
  import opened Prelude
  import opened JsMaps
  import opened Recency

  /** `Date.now() + ttlMs`, where the default ttlMs is Infinity. */
  datatype Deadline = At(ms: nat) | Never

  datatype Entry<V> = Entry(value: V, expiresAt: Deadline)

  type Table<V> = JsMap<string, Entry<V>>

  predicate Expired(d: Deadline, now: nat) { d.At? && now > d.ms }

  function DeadlineOf(ttlMs: Option<nat>, now: nat): Deadline {
    if ttlMs.None? then Never else At(now + ttlMs.value)
  }

  function Lookup<V>(t: Table<V>, now: nat, key: string): (Table<V>, Option<V>) {
    if !t.Has(key) then (t, None)
    else if Expired(t.dict[key].expiresAt, now) then (t.Delete(key), None)
    else (t, Some(t.dict[key].value))
  }

  function Live<V>(t: Table<V>, now: nat): set<string> {
    set k | k in t.dict && !Expired(t.dict[k].expiresAt, now)
  }

  function DropOldest<V>(t: Table<V>, maxEntries: nat): Table<V>
    decreases |t.keys|
  {
    if t.Size() < maxEntries || t.Size() == 0 then t
    else
      var rest := t.Delete(t.keys[0]);
      SelectShorter(t.keys, t.dict.Keys - {t.keys[0]});
      DropOldest(rest, maxEntries)
  }

  lemma SelectShorter(keys: seq<string>, s: set<string>)
    requires keys != [] && keys[0] !in s
    ensures |Select(keys, s)| < |keys|
  {
    SelectNoLonger(keys[1..], s);
  }

  function EvictIfFull<V>(t: Table<V>, maxEntries: nat, now: nat): Table<V> {
    if t.Size() < maxEntries then t else DropOldest(t.Keep(Live(t, now)), maxEntries)
  }

  function Write<V>(t: Table<V>, maxEntries: nat, now: nat, key: string, e: Entry<V>): Table<V> {
    EvictIfFull(t.Delete(key), maxEntries, now).Set(key, e)
  }

  // ---------------------------------------------------------------- operations

  datatype Op<V> =
    | Get(key: string)
    | Put(key: string, value: V, ttlMs: Option<nat>)
    | PutIfAbsent(key: string, value: V, ttlMs: Option<nat>)
    | Take(key: string)
    | Remove(key: string)

  datatype Output<V> = Value(value: Option<V>) | Flag(ok: bool)

  function Apply<V>(t: Table<V>, maxEntries: nat, now: nat, op: Op<V>): (Table<V>, Output<V>) {
    match op
    case Get(key) =>
      var (t', v) := Lookup(t, now, key); (t', Value(v))
    case Put(key, value, ttlMs) =>
      (Write(t, maxEntries, now, key, Entry(value, DeadlineOf(ttlMs, now))), Flag(true))
    case PutIfAbsent(key, value, ttlMs) =>
      var (t', v) := Lookup(t, now, key);
      if v.Some? then (t', Flag(false))
      else (Write(t', maxEntries, now, key, Entry(value, DeadlineOf(ttlMs, now))), Flag(true))
    case Take(key) =>
      var (t', v) := Lookup(t, now, key); (t'.Delete(key), Value(v))
    case Remove(key) =>
      (t.Delete(key), Flag(t.Has(key)))
  }

  // ---------------------------------------------------------------- what was written

  /**
   * The keys written so far in order, the last write of each key not deleted since, and the keys crowded out:
   * at some moment since their last write, maxEntries other keys, written later, were all unexpired.
   */
  datatype Past<V> = Past(log: seq<string>, last: map<string, Entry<V>>, crowded: set<string>)

  function NoPast<V>(): Past<V> { Past([], map[], {}) }

  /** The other keys written since a key was, not deleted and not expired. */
  ghost function LiveSince<V>(log: seq<string>, last: map<string, Entry<V>>, key: string, now: nat): set<string> {
    set k | k in Since(log, key) && k in last && !Expired(last[k].expiresAt, now)
  }

  ghost function Wrote<V>(p: Past<V>, maxEntries: nat, now: nat, key: string, e: Entry<V>): Past<V> {
    var log, last := p.log + [key], p.last[key := e];
    Past(log, last,
         p.crowded - {key} + set k | k in last && k != key && |LiveSince(log, last, k, now)| >= maxEntries)
  }

  ghost function Forgot<V>(p: Past<V>, key: string): Past<V> {
    p.(last := p.last - {key}, crowded := p.crowded - {key})
  }

  ghost function Recall<V>(p: Past<V>, maxEntries: nat, now: nat, op: Op<V>, out: Output<V>): Past<V> {
    match op
    case Get(_) => p
    case Put(key, value, ttlMs) => Wrote(p, maxEntries, now, key, Entry(value, DeadlineOf(ttlMs, now)))
    case PutIfAbsent(key, value, ttlMs) =>
      if out == Flag(true) then Wrote(p, maxEntries, now, key, Entry(value, DeadlineOf(ttlMs, now))) else p
    case Take(key) => Forgot(p, key)
    case Remove(key) => Forgot(p, key)
  }

  /** The unexpired, undeleted last write of a key. */
  ghost function Remembered<V>(last: map<string, Entry<V>>, now: nat, key: string): Option<V> {
    if key in last && !Expired(last[key].expiresAt, now) then Some(last[key].value) else None
  }

  /** Keys stand in the order of their last writes. */
  ghost predicate InWriteOrder(keys: seq<string>, log: seq<string>) {
    Pairwise(keys, (a: string, b: string) => b in Since(log, a))
  }

  /** Only a key with maxEntries others written after it was ever crowded out. */
  ghost predicate Crowds<V>(p: Past<V>, maxEntries: nat) {
    forall k | k in p.crowded :: |Since(p.log, k)| >= maxEntries
  }

  ghost predicate Faithful<V>(t: Table<V>, maxEntries: nat, p: Past<V>, now: nat) {
    && t.Valid() && t.Size() <= maxEntries && Crowds(p, maxEntries)
    && (forall k | k in t.dict :: k in p.last && p.last[k] == t.dict[k])
    && InWriteOrder(t.keys, p.log)
    && (forall k | k in p.last && k !in t.dict :: Expired(p.last[k].expiresAt, now) || k in p.crowded)
  }

  /** An answer is that of the last writes, except that a crowded-out key may read as absent. */
  ghost predicate Right<V>(p: Past<V>, now: nat, op: Op<V>, out: Output<V>) {
    var truth := Remembered(p.last, now, op.key);
    match op
    case Put(_, _, _) => out == Flag(true)
    case PutIfAbsent(_, _, _) => out == Flag(truth.None?) || (out == Flag(true) && op.key in p.crowded)
    case Remove(_) =>
      out.Flag? && (out.ok ==> op.key in p.last) && (truth.Some? && !out.ok ==> op.key in p.crowded)
    case _ => out == Value(truth) || (out == Value(None) && op.key in p.crowded)
  }

  lemma KeepFaithful<V>(t: Table<V>, maxEntries: nat, p: Past<V>, now: nat, s: set<string>)
    requires t.Valid() && t.Size() <= maxEntries && InWriteOrder(t.keys, p.log)
    ensures t.Keep(s).Valid() && t.Keep(s).Size() <= maxEntries && InWriteOrder(t.Keep(s).keys, p.log)
  {
    t.KeepValid(s);
    SelectNoLonger(t.keys, s);
    SelectPairwise(t.keys, s, (a: string, b: string) => b in Since(p.log, a));
  }

  lemma LookupKeeps<V>(t: Table<V>, maxEntries: nat, p: Past<V>, now: nat, key: string)
    requires Faithful(t, maxEntries, p, now)
    ensures Faithful(Lookup(t, now, key).0, maxEntries, p, now)
    ensures var v := Lookup(t, now, key).1;
            v == Remembered(p.last, now, key) || (v == None && key in p.crowded)
    ensures Lookup(t, now, key).1.None? ==> key !in Lookup(t, now, key).0.dict
  {
    KeepFaithful(t, maxEntries, p, now, t.dict.Keys - {key});
  }

  lemma DeleteKeeps<V>(t: Table<V>, maxEntries: nat, p: Past<V>, now: nat, key: string)
    requires Faithful(t, maxEntries, p, now)
    ensures Faithful(t.Delete(key), maxEntries, Forgot(p, key), now)
  {
    KeepFaithful(t, maxEntries, p, now, t.dict.Keys - {key});
  }

  /** A table of at most maxEntries entries loses at most its oldest one. */
  lemma DropsOne<V>(t: Table<V>, maxEntries: nat)
    requires t.Valid() && t.Size() <= maxEntries && maxEntries >= 1
    ensures DropOldest(t, maxEntries) == if t.Size() == maxEntries then t.Delete(t.keys[0]) else t
    ensures DropOldest(t, maxEntries).Size() < maxEntries
  {
    if t.Size() == maxEntries {
      SelectShorter(t.keys, t.dict.Keys - {t.keys[0]});
    }
  }

  /** The oldest of maxEntries live entries is crowded out by the others and the key now written. */
  lemma OldestCrowded<V>(t: Table<V>, maxEntries: nat, p: Past<V>, now: nat, key: string, e: Entry<V>)
    requires t.Valid() && t.Size() == maxEntries && maxEntries >= 1 && InWriteOrder(t.keys, p.log)
    requires forall k | k in t.dict :: k in p.last && p.last[k] == t.dict[k] && !Expired(t.dict[k].expiresAt, now)
    requires key !in t.dict && !Expired(e.expiresAt, now)
    ensures t.keys[0] in Wrote(p, maxEntries, now, key, e).crowded
  {
    var oldest := t.keys[0];
    var others := LiveSince(p.log + [key], p.last[key := e], oldest, now);
    t.SizeIsCount();
    SinceLonger(p.log, key, oldest);
    forall k | k in t.dict.Keys - {oldest} ensures k in others {
      var i :| 0 <= i < |t.keys| && t.keys[i] == k;
    }
    SubsetSize(t.dict.Keys - {oldest} + {key}, others);
  }

  lemma EvictKeeps<V>(t: Table<V>, maxEntries: nat, p: Past<V>, now: nat, key: string, e: Entry<V>)
    requires Faithful(t, maxEntries, p, now) && maxEntries >= 1 && key !in t.dict && !Expired(e.expiresAt, now)
    ensures var t' := EvictIfFull(t, maxEntries, now);
            && t'.Valid() && t'.Size() < maxEntries && InWriteOrder(t'.keys, p.log)
            && (forall k | k in t'.dict :: k in t.dict && t'.dict[k] == t.dict[k])
            && (forall k | k in t.dict && k !in t'.dict ::
                  Expired(t.dict[k].expiresAt, now) || k in Wrote(p, maxEntries, now, key, e).crowded)
  {
    if t.Size() >= maxEntries {
      var live := t.Keep(Live(t, now));
      KeepFaithful(t, maxEntries, p, now, Live(t, now));
      DropsOne(live, maxEntries);
      if live.Size() == maxEntries {
        OldestCrowded(live, maxEntries, p, now, key, e);
        KeepFaithful(live, maxEntries, p, now, live.dict.Keys - {live.keys[0]});
      }
    }
  }

  lemma AppendInOrder(keys: seq<string>, log: seq<string>, key: string)
    requires InWriteOrder(keys, log) && key !in keys
    ensures InWriteOrder(keys + [key], log + [key])
  {
    var later := (a: string, b: string) => b in Since(log, a);
    forall i, j | 0 <= i < j < |keys + [key]| ensures (keys + [key])[j] in Since(log + [key], (keys + [key])[i]) {
      SinceLonger(log, key, keys[i]);
      if j < |keys| {
        assert later(keys[i], keys[j]);
      }
    }
  }

  lemma WroteCrowds<V>(p: Past<V>, maxEntries: nat, now: nat, key: string, e: Entry<V>)
    requires Crowds(p, maxEntries)
    ensures Crowds(Wrote(p, maxEntries, now, key, e), maxEntries)
  {
    var q := Wrote(p, maxEntries, now, key, e);
    forall k | k in q.crowded ensures |Since(q.log, k)| >= maxEntries {
      SinceLonger(p.log, key, k);
      if k in p.crowded {
        SubsetSize(Since(p.log, k), Since(q.log, k));
      } else {
        SubsetSize(LiveSince(q.log, q.last, k, now), Since(q.log, k));
      }
    }
  }

  lemma WroteForgot<V>(p: Past<V>, maxEntries: nat, now: nat, key: string, e: Entry<V>)
    ensures Wrote(Forgot(p, key), maxEntries, now, key, e) == Wrote(p, maxEntries, now, key, e)
  {
    assert Forgot(p, key).last[key := e] == p.last[key := e];
  }

  /** What is lost after a write had expired, or was crowded out before or by this write. */
  lemma LostExcused<V>(t: Table<V>, kept: Table<V>, maxEntries: nat, p: Past<V>, now: nat, key: string, e: Entry<V>,
                       k: string)
    requires Faithful(t, maxEntries, p, now) && k in p.last && k != key && k !in kept.dict
    requires k in t.dict ==>
      Expired(t.dict[k].expiresAt, now) || k in Wrote(p, maxEntries, now, key, e).crowded
    ensures Expired(p.last[k].expiresAt, now) || k in Wrote(p, maxEntries, now, key, e).crowded
  {
  }

  lemma SetFaithful<V>(t: Table<V>, kept: Table<V>, maxEntries: nat, p: Past<V>, now: nat, key: string, e: Entry<V>)
    requires Faithful(t, maxEntries, p, now) && key !in t.dict && kept.Valid() && kept.Size() < maxEntries
    requires InWriteOrder(kept.keys, p.log) && forall k | k in kept.dict :: k in t.dict && kept.dict[k] == t.dict[k]
    requires forall k | k in t.dict && k !in kept.dict ::
      Expired(t.dict[k].expiresAt, now) || k in Wrote(p, maxEntries, now, key, e).crowded
    ensures Faithful(kept.Set(key, e), maxEntries, Wrote(p, maxEntries, now, key, e), now)
  {
    kept.SetValid(key, e);
    AppendInOrder(kept.keys, p.log, key);
    WroteCrowds(p, maxEntries, now, key, e);
    forall k | k in p.last && k != key && k !in kept.dict
      ensures Expired(p.last[k].expiresAt, now) || k in Wrote(p, maxEntries, now, key, e).crowded
    {
      LostExcused(t, kept, maxEntries, p, now, key, e, k);
    }
  }

  lemma WriteKeeps<V>(t: Table<V>, maxEntries: nat, p: Past<V>, now: nat, key: string, e: Entry<V>)
    requires Faithful(t, maxEntries, p, now) && maxEntries >= 1 && !Expired(e.expiresAt, now)
    ensures Faithful(Write(t, maxEntries, now, key, e), maxEntries, Wrote(p, maxEntries, now, key, e), now)
  {
    var t', p' := t.Delete(key), Forgot(p, key);
    DeleteKeeps(t, maxEntries, p, now, key);
    DeletedGone(t, key);
    EvictKeeps(t', maxEntries, p', now, key, e);
    SetFaithful(t', EvictIfFull(t', maxEntries, now), maxEntries, p', now, key, e);
    WroteForgot(p, maxEntries, now, key, e);
  }

  lemma DeletedGone<V>(t: Table<V>, key: string)
    ensures key !in t.Delete(key).dict
  {
  }

  /** Every operation keeps the table faithful to what was written, and answers rightly. */
  lemma ApplyKeeps<V>(t: Table<V>, maxEntries: nat, p: Past<V>, before: nat, now: nat, op: Op<V>)
    requires Faithful(t, maxEntries, p, before) && before <= now && maxEntries >= 1
    ensures var (t', out) := Apply(t, maxEntries, now, op);
            Right(p, now, op, out) && Faithful(t', maxEntries, Recall(p, maxEntries, now, op, out), now)
  {
    assert Faithful(t, maxEntries, p, now);
    match op
    case Get(key) => LookupKeeps(t, maxEntries, p, now, key);
    case Put(key, value, ttlMs) => WriteKeeps(t, maxEntries, p, now, key, Entry(value, DeadlineOf(ttlMs, now)));
    case PutIfAbsent(key, value, ttlMs) =>
      LookupKeeps(t, maxEntries, p, now, key);
      WriteKeeps(Lookup(t, now, key).0, maxEntries, p, now, key, Entry(value, DeadlineOf(ttlMs, now)));
    case Take(key) =>
      LookupKeeps(t, maxEntries, p, now, key);
      DeleteKeeps(Lookup(t, now, key).0, maxEntries, p, now, key);
    case Remove(key) => DeleteKeeps(t, maxEntries, p, now, key);
  }

  // ---------------------------------------------------------------- which entries a write drops

  predicate Oldest<V>(t: Table<V>, k: string) { t.keys != [] && k == t.keys[0] }

  /**
   * What room costs: nothing until the table is full, then every expired entry, and only when there is none the
   * oldest live one.
   */
  ghost function GivesWay<V>(t: Table<V>, maxEntries: nat, now: nat): set<string> {
    set k | k in t.dict && |t.dict| >= maxEntries
      && (Expired(t.dict[k].expiresAt, now)
          || (Oldest(t, k) && forall x | x in t.dict :: !Expired(t.dict[x].expiresAt, now)))
  }

  /** Evicting drops exactly what gives way, and leaves the rest in order. */
  lemma EvictIs<V>(t: Table<V>, maxEntries: nat, now: nat)
    requires t.Valid() && t.Size() <= maxEntries && maxEntries >= 1
    ensures EvictIfFull(t, maxEntries, now) == t.Keep(t.dict.Keys - GivesWay(t, maxEntries, now))
  {
    t.SizeIsCount();
    if t.Size() < maxEntries {
      t.KeepAll();
      t.KeepAgree(t.dict.Keys, t.dict.Keys - GivesWay(t, maxEntries, now));
    } else if Live(t, now) == t.dict.Keys {
      EvictOldest(t, maxEntries, now);
    } else {
      EvictExpired(t, maxEntries, now);
    }
  }

  lemma EvictOldest<V>(t: Table<V>, maxEntries: nat, now: nat)
    requires t.Valid() && t.Size() == |t.dict| == maxEntries && maxEntries >= 1 && Live(t, now) == t.dict.Keys
    ensures EvictIfFull(t, maxEntries, now) == t.Keep(t.dict.Keys - GivesWay(t, maxEntries, now))
  {
    t.KeepAll();
    DropsOne(t, maxEntries);
    forall k | k in t.dict ensures k in GivesWay(t, maxEntries, now) <==> k == t.keys[0] {
      assert k in Live(t, now);
    }
    t.KeepAgree(t.dict.Keys - {t.keys[0]}, t.dict.Keys - GivesWay(t, maxEntries, now));
  }

  lemma EvictExpired<V>(t: Table<V>, maxEntries: nat, now: nat)
    requires t.Valid() && t.Size() == |t.dict| == maxEntries && maxEntries >= 1 && Live(t, now) != t.dict.Keys
    ensures EvictIfFull(t, maxEntries, now) == t.Keep(t.dict.Keys - GivesWay(t, maxEntries, now))
  {
    var live := t.Keep(Live(t, now));
    t.KeepValid(Live(t, now));
    live.SizeIsCount();
    assert live.dict.Keys == Live(t, now) <= t.dict.Keys;
    SubsetSize(Live(t, now), t.dict.Keys);
    DropsOne(live, maxEntries);
    var x :| x in t.dict && x !in Live(t, now);
    assert forall k | k in t.dict :: k in GivesWay(t, maxEntries, now) <==> k !in Live(t, now);
    t.KeepAgree(Live(t, now), t.dict.Keys - GivesWay(t, maxEntries, now));
  }

  /**
   * A write puts its key last and, to make room, drops exactly what gives way among the others: no live entry is
   * dropped while an expired one stays.
   */
  lemma WriteIs<V>(t: Table<V>, maxEntries: nat, now: nat, key: string, e: Entry<V>)
    requires t.Valid() && t.Size() <= maxEntries && maxEntries >= 1
    ensures var others, t' := t.Delete(key), Write(t, maxEntries, now, key, e);
            var kept := others.Keep(others.dict.Keys - GivesWay(others, maxEntries, now));
            t'.keys == kept.keys + [key] && t'.dict == kept.dict[key := e]
  {
    t.KeepValid(t.dict.Keys - {key});
    SelectNoLonger(t.keys, t.dict.Keys - {key});
    EvictIs(t.Delete(key), maxEntries, now);
  }

  /** An operation crowds a key out only when maxEntries other keys, written later, are live. */
  lemma StaysUncrowded<V>(p: Past<V>, maxEntries: nat, now: nat, op: Op<V>, out: Output<V>, key: string)
    requires key !in p.crowded
    requires var q := Recall(p, maxEntries, now, op, out); |LiveSince(q.log, q.last, key, now)| < maxEntries
    ensures key !in Recall(p, maxEntries, now, op, out).crowded
  {
  }

  // ---------------------------------------------------------------- runs

  datatype Event<V> = Event(now: nat, op: Op<V>)

  ghost predicate Timely<V>(events: seq<Event<V>>) {
    forall i, j | 0 <= i < j < |events| :: events[i].now <= events[j].now
  }

  ghost function LastTime<V>(events: seq<Event<V>>): nat {
    if events == [] then 0 else events[|events| - 1].now
  }

  datatype History<V> = History(table: Table<V>, past: Past<V>, outputs: seq<Output<V>>)

  ghost function Run<V>(maxEntries: nat, events: seq<Event<V>>): (h: History<V>)
    ensures |h.outputs| == |events|
  {
    if events == [] then History(EmptyMap(), NoPast(), [])
    else
      var last := events[|events| - 1];
      var h := Run(maxEntries, events[..|events| - 1]);
      var (t, out) := Apply(h.table, maxEntries, last.now, last.op);
      History(t, Recall(h.past, maxEntries, last.now, last.op, out), h.outputs + [out])
  }

  /** In every run the store stays faithful: bounded, in write order, and true to the last writes. */
  lemma {:induction false} RunFaithful<V>(maxEntries: nat, events: seq<Event<V>>)
    requires Timely(events) && maxEntries >= 1
    ensures var h := Run(maxEntries, events); Faithful(h.table, maxEntries, h.past, LastTime(events))
  {
    if events != [] {
      var before, e := events[..|events| - 1], events[|events| - 1];
      RunFaithful(maxEntries, before);
      var h := Run(maxEntries, before);
      ApplyKeeps(h.table, maxEntries, h.past, LastTime(before), e.now, e.op);
    }
  }

  /** Every answer of a run is that of the last writes, up to keys that were crowded out. */
  lemma {:induction false} RunRight<V>(maxEntries: nat, events: seq<Event<V>>, i: nat)
    requires Timely(events) && maxEntries >= 1 && i < |events|
    ensures Right(Run(maxEntries, events[..i]).past, events[i].now, events[i].op, Run(maxEntries, events).outputs[i])
  {
    var n := |events| - 1;
    if i == n {
      RunFaithful(maxEntries, events[..n]);
      var h := Run(maxEntries, events[..n]);
      ApplyKeeps(h.table, maxEntries, h.past, LastTime(events[..n]), events[n].now, events[n].op);
    } else {
      RunRight(maxEntries, events[..n], i);
      assert events[..n][..i] == events[..i];
    }
  }

  /** The same operations on a map that is never full and keeps expired entries. */
  ghost function UnboundedStep<V>(last: map<string, Entry<V>>, now: nat, op: Op<V>)
    : (map<string, Entry<V>>, Output<V>)
  {
    var truth := Remembered(last, now, op.key);
    match op
    case Get(key) => (last, Value(truth))
    case Put(key, value, ttlMs) => (last[key := Entry(value, DeadlineOf(ttlMs, now))], Flag(true))
    case PutIfAbsent(key, value, ttlMs) =>
      if truth.Some? then (last, Flag(false))
      else (last[key := Entry(value, DeadlineOf(ttlMs, now))], Flag(true))
    case Take(key) => (last - {key}, Value(truth))
    case Remove(key) => (last - {key}, Flag(truth.Some?))
  }

  ghost function Unbounded<V>(events: seq<Event<V>>): (r: (map<string, Entry<V>>, seq<Output<V>>))
    ensures |r.1| == |events|
  {
    if events == [] then (map[], [])
    else
      var last := events[|events| - 1];
      var (m, outputs) := Unbounded(events[..|events| - 1]);
      var (m', out) := UnboundedStep(m, last.now, last.op);
      (m', outputs + [out])
  }

  /** The keys a run writes or tries to write. */
  ghost function Keys<V>(events: seq<Event<V>>): set<string> {
    set i | 0 <= i < |events| && (events[i].op.Put? || events[i].op.PutIfAbsent?) :: events[i].op.key
  }

  lemma {:induction false} OnlyKeysWritten<V>(maxEntries: nat, events: seq<Event<V>>)
    ensures forall k | k in Run(maxEntries, events).past.log :: k in Keys(events)
    ensures forall k | k in Run(maxEntries, events).past.last :: k in Keys(events)
  {
    if events != [] {
      var n := |events| - 1;
      OnlyKeysWritten(maxEntries, events[..n]);
      assert Keys(events[..n]) <= Keys(events);
      assert (events[n].op.Put? || events[n].op.PutIfAbsent?) ==> events[n].op.key in Keys(events);
    }
  }

  /** A run over at most maxEntries distinct keys remembers what the unbounded map holds. */
  lemma {:induction false} FewKeysState<V>(maxEntries: nat, events: seq<Event<V>>)
    requires Timely(events) && maxEntries >= 1 && |Keys(events)| <= maxEntries
    ensures Run(maxEntries, events).past.last == Unbounded(events).0
  {
    if events != [] {
      var n := |events| - 1;
      FewerKeys(events);
      FewKeysState(maxEntries, events[..n]);
      FewKeysStep(maxEntries, events[..n], events[n]);
    }
  }

  lemma FewerKeys<V>(events: seq<Event<V>>)
    requires events != []
    ensures |Keys(events[..|events| - 1])| <= |Keys(events)|
  {
    assert Keys(events[..|events| - 1]) <= Keys(events);
    SubsetSize(Keys(events[..|events| - 1]), Keys(events));
  }

  /** The key has an entry whose time is over, but which nothing has dropped yet. */
  predicate Stale<V>(t: Table<V>, now: nat, key: string) { t.Has(key) && Expired(t.dict[key].expiresAt, now) }

  /**
   * A run over at most maxEntries distinct keys gets the very answers of the unbounded map, except exactly
   * when it deletes a stale entry, which reads as absent and is yet reported deleted.
   */
  lemma {:induction false} FewKeysExact<V>(maxEntries: nat, events: seq<Event<V>>, i: nat)
    requires Timely(events) && maxEntries >= 1 && |Keys(events)| <= maxEntries && i < |events|
    ensures Run(maxEntries, events).outputs[i] == Unbounded(events).1[i]
            <==> !(events[i].op.Remove? && Stale(Run(maxEntries, events[..i]).table, events[i].now, events[i].op.key))
  {
    var n := |events| - 1;
    FewerKeys(events);
    if i == n {
      FewKeysState(maxEntries, events[..n]);
      FewKeysStep(maxEntries, events[..n], events[n]);
    } else {
      FewKeysExact(maxEntries, events[..n], i);
      assert events[..n][..i] == events[..i] && events[..n][i] == events[i];
    }
  }

  /** `delete` answers what a lookup would have found, exactly unless the entry is stale. */
  lemma DeleteFlagIff<V>(t: Table<V>, maxEntries: nat, now: nat, key: string)
    ensures Apply(t, maxEntries, now, Remove(key)).1 == Flag(Lookup(t, now, key).1.Some?) <==> !Stale(t, now, key)
  {
  }

  /** A key stored for one millisecond reads as absent at 2, and yet `delete` answers that it was there. */
  lemma StaleIsDeleted<V>(v: V)
    ensures var t := Apply(EmptyMap(), 10000, 0, Put("k", v, Some(1))).0;
            && Apply(t, 10000, 2, Op.Get("k")).1 == Value(None)
            && Apply(t, 10000, 2, Remove("k")).1 == Flag(true)
  {
    var t := Apply(EmptyMap(), 10000, 0, Put("k", v, Some(1))).0;
    assert t == JsMap(["k"], map["k" := Entry(v, At(1))]);
  }

  lemma FewKeysStep<V>(maxEntries: nat, before: seq<Event<V>>, e: Event<V>)
    requires Timely(before) && LastTime(before) <= e.now && maxEntries >= 1 && |Keys(before)| <= maxEntries
    ensures var h := Run(maxEntries, before);
            var out := Apply(h.table, maxEntries, e.now, e.op).1;
            var (last, want) := UnboundedStep(h.past.last, e.now, e.op);
            && Recall(h.past, maxEntries, e.now, e.op, out).last == last
            && (out == want <==> !(e.op.Remove? && Stale(h.table, e.now, e.op.key)))
  {
    var h := Run(maxEntries, before);
    RunFaithful(maxEntries, before);
    OnlyKeysWritten(maxEntries, before);
    ApplyKeeps(h.table, maxEntries, h.past, LastTime(before), e.now, e.op);
    NotCrowded(h.past, e.op.key, Keys(before), maxEntries);
    UncrowdedStep(h.table, h.past, maxEntries, LastTime(before), e.now, e.op);
  }

  lemma NotCrowded<V>(p: Past<V>, key: string, keys: set<string>, maxEntries: nat)
    requires (forall k | k in p.log :: k in keys) && |keys| <= maxEntries && Crowds(p, maxEntries)
    ensures key in keys ==> key !in p.crowded
  {
    if key in keys {
      SinceWithin(p.log, key, keys);
      SubsetSize(Since(p.log, key), keys - {key});
      assert keys == keys - {key} + {key};
    }
  }

  lemma UncrowdedStep<V>(t: Table<V>, p: Past<V>, maxEntries: nat, before: nat, now: nat, op: Op<V>)
    requires Faithful(t, maxEntries, p, before) && before <= now
    requires Right(p, now, op, Apply(t, maxEntries, now, op).1)
    requires op.key in p.last ==> op.key !in p.crowded
    ensures var out := Apply(t, maxEntries, now, op).1;
            var (last, want) := UnboundedStep(p.last, now, op);
            && Recall(p, maxEntries, now, op, out).last == last
            && (out == want <==> !(op.Remove? && Stale(t, now, op.key)))
  {
    if op.Remove? {
      assert op.key in t.dict ==> p.last[op.key] == t.dict[op.key];
    } else {
      UncrowdedOutput(p, maxEntries, now, op, Apply(t, maxEntries, now, op).1);
    }
  }

  lemma UncrowdedOutput<V>(p: Past<V>, maxEntries: nat, now: nat, op: Op<V>, out: Output<V>)
    requires Right(p, now, op, out) && !op.Remove?
    requires op.key in p.last ==> op.key !in p.crowded
    ensures (Recall(p, maxEntries, now, op, out).last, out) == UnboundedStep(p.last, now, op)
  {
  }

  // ---------------------------------------------------------------- the store in place

  /** A finished sweep leaves what is live. */
  lemma LiveLeft<V(!new)>(t: Table<V>, over: Entry<V> -> bool, now: nat)
    requires t.Valid() && forall e :: over(e) <==> Expired(e.expiresAt, now)
    ensures t.Keep(t.Unswept(over, |t.keys|)) == t.Keep(Live(t, now))
  {
    t.KeepAgree(t.Unswept(over, |t.keys|), Live(t, now));
  }

  class MemoryKvStore<V(!new)> {
    const maxEntries: nat
    var entries: Table<V>

    ghost predicate Valid()
      reads this
    {
      entries.Valid()
    }

    constructor (maxEntries: nat := 10000)
      ensures Valid() && entries == EmptyMap() && this.maxEntries == maxEntries
    {
      this.maxEntries := maxEntries;
      entries := EmptyMap();
    }

    method Get(key: string, now: nat) returns (value: Option<V>)
      requires Valid()
      modifies this
      ensures Valid() && (entries, Value(value)) == Apply(old(entries), maxEntries, now, Op.Get(key))
    {
      value := Find(key, now);
    }

    method Set(key: string, value: V, ttlMs: Option<nat>, now: nat)
      requires Valid()
      modifies this
      ensures Valid() && entries == Apply(old(entries), maxEntries, now, Put(key, value, ttlMs)).0
    {
      Store(key, value, ttlMs, now);
    }

    method SetIfAbsent(key: string, value: V, ttlMs: Option<nat>, now: nat) returns (stored: bool)
      requires Valid()
      modifies this
      ensures Valid() && (entries, Flag(stored)) == Apply(old(entries), maxEntries, now, PutIfAbsent(key, value, ttlMs))
    {
      var present := Find(key, now);
      if present.Some? {
        return false;
      }
      Store(key, value, ttlMs, now);
      return true;
    }

    method GetDelete(key: string, now: nat) returns (value: Option<V>)
      requires Valid()
      modifies this
      ensures Valid() && (entries, Value(value)) == Apply(old(entries), maxEntries, now, Take(key))
    {
      value := Find(key, now);
      var removed := Drop(key);
    }

    method Delete(key: string, now: nat) returns (removed: bool)
      requires Valid()
      modifies this
      ensures Valid() && (entries, Flag(removed)) == Apply(old(entries), maxEntries, now, Remove(key))
    {
      removed := Drop(key);
    }

    method Drop(key: string) returns (removed: bool)
      requires Valid()
      modifies this
      ensures Valid() && entries == old(entries).Delete(key) && removed == old(entries).Has(key)
    {
      removed := entries.Has(key);
      entries.KeepValid(entries.dict.Keys - {key});
      entries := entries.Delete(key);
    }

    method Find(key: string, now: nat) returns (value: Option<V>)
      requires Valid()
      modifies this
      ensures Valid() && (entries, value) == Lookup(old(entries), now, key)
    {
      if !entries.Has(key) {
        return None;
      }
      var entry := entries.dict[key];
      if Expired(entry.expiresAt, now) {
        var removed := Drop(key);
        return None;
      }
      return Some(entry.value);
    }

    method Store(key: string, value: V, ttlMs: Option<nat>, now: nat)
      requires Valid()
      modifies this
      ensures Valid() && entries == Write(old(entries), maxEntries, now, key, Entry(value, DeadlineOf(ttlMs, now)))
    {
      var removed := Drop(key);
      Evict(now);
      entries.SetValid(key, Entry(value, DeadlineOf(ttlMs, now)));
      entries := entries.Set(key, Entry(value, DeadlineOf(ttlMs, now)));
    }

    method Evict(now: nat)
      requires Valid()
      modifies this
      ensures Valid() && entries == EvictIfFull(old(entries), maxEntries, now)
      ensures old(entries).Size() <= maxEntries && maxEntries >= 1 ==>
                entries == old(entries).Keep(old(entries).dict.Keys - GivesWay(old(entries), maxEntries, now))
    {
      if old(entries).Size() <= maxEntries && maxEntries >= 1 {
        EvictIs(entries, maxEntries, now);
      }
      if entries.Size() < maxEntries {
        return;
      }
      var all := entries.keys;
      ghost var start, over := entries, (e: Entry<V>) => Expired(e.expiresAt, now);
      start.UnsweptAll(over);
      for i := 0 to |all|
        invariant Valid() && entries == start.Keep(start.Unswept(over, i))
      {
        start.SweepOne(over, i);
        if Expired(entries.dict[all[i]].expiresAt, now) {
          var removed := Drop(all[i]);
        }
      }
      LiveLeft(start, over, now);
      while entries.Size() >= maxEntries
        invariant Valid() && DropOldest(entries, maxEntries) == EvictIfFull(start, maxEntries, now)
        decreases entries.Size()
      {
        if entries.Size() == 0 {
          break;
        }
        SelectShorter(entries.keys, entries.dict.Keys - {entries.keys[0]});
        var removed := Drop(entries.keys[0]);
      }
    }
  }
}
