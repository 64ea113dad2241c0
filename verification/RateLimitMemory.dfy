/** The in-memory limiter: a dictionary of timestamp lists, cleaned key by key when touched and
    swept as a whole from time to time. `trace` is everything asked of the object so far, so a
    contract about an arbitrary valid object is a statement about every run. */
module RateLimitMemory {
  import opened RateLimitHistory
  import opened Finite

  type Store = map<string, seq<real>>

  function Kept(attempts: Store, key: string): seq<real> {
    if key in attempts then attempts[key] else []
  }

  function Cleaned(attempts: Store, key: string, cutoff: real): Store {
    if key !in attempts then attempts
    else if Recent(attempts[key], cutoff) == [] then attempts - {key}
    else attempts[key := Recent(attempts[key], cutoff)]
  }

  function Swept(attempts: Store, cutoff: real): Store {
    map k | k in attempts && !NoLaterThan(attempts[k], cutoff) :: attempts[k]
  }

  // ---- What relates a store to the history ----

  /** The store and the history agree, for every key, on what is later than `cutoff`. */
  ghost predicate Agree(attempts: Store, trace: seq<Event>, scope: string, cutoff: real) {
    forall k :: Recent(Kept(attempts, k), cutoff) == Recent(History(trace, scope, k), cutoff)
  }

  ghost predicate Genuine(attempts: Store, trace: seq<Event>, scope: string) {
    forall k, i :: 0 <= i < |Kept(attempts, k)| ==> Kept(attempts, k)[i] in History(trace, scope, k)
  }

  /** Every stored key has an attempt later than `cutoff`. */
  predicate Live(attempts: Store, cutoff: real) {
    forall k :: k in attempts ==> !NoLaterThan(attempts[k], cutoff)
  }

  predicate NoEmptyLists(attempts: Store) {
    forall k :: k in attempts ==> attempts[k] != []
  }

  /** Neither cleaning nor sweeping changes what counts, for any key. */
  lemma UpkeepUnobservable(attempts: Store, key: string, cutoff: real, k: string)
    ensures Recent(Kept(Cleaned(attempts, key, cutoff), k), cutoff) == Recent(Kept(attempts, k), cutoff)
    ensures Recent(Kept(Swept(attempts, cutoff), k), cutoff) == Recent(Kept(attempts, k), cutoff)
    ensures Kept(Cleaned(attempts, key, cutoff), key) == Recent(Kept(attempts, key), cutoff)
  {
    RecentTwice(Kept(attempts, k), cutoff, cutoff);
    RecentNone(Kept(attempts, k), cutoff);
    RecentNone([], cutoff);
    hide Recent;
  }

  lemma SweepAgrees(attempts: Store, cutoff: real, trace: seq<Event>, scope: string)
    requires Agree(attempts, trace, scope, cutoff)
    ensures Agree(Swept(attempts, cutoff), trace, scope, cutoff)
  {
    forall k ensures Recent(Kept(Swept(attempts, cutoff), k), cutoff) == Recent(History(trace, scope, k), cutoff) {
      UpkeepUnobservable(attempts, k, cutoff, k);
    }
  }

  lemma CleanAgrees(attempts: Store, key: string, cutoff: real, trace: seq<Event>, scope: string)
    requires Agree(attempts, trace, scope, cutoff)
    ensures Agree(Cleaned(attempts, key, cutoff), trace, scope, cutoff)
    ensures Kept(Cleaned(attempts, key, cutoff), key) == Recent(History(trace, scope, key), cutoff)
  {
    forall k ensures Recent(Kept(Cleaned(attempts, key, cutoff), k), cutoff)
      == Recent(History(trace, scope, k), cutoff)
    {
      UpkeepUnobservable(attempts, key, cutoff, k);
    }
    UpkeepUnobservable(attempts, key, cutoff, key);
  }

  lemma LaterAgree(attempts: Store, trace: seq<Event>, scope: string, early: real, late: real)
    requires early <= late && Agree(attempts, trace, scope, early)
    ensures Agree(attempts, trace, scope, late)
  {
    forall k ensures Recent(Kept(attempts, k), late) == Recent(History(trace, scope, k), late) {
      StillAgree(Kept(attempts, k), History(trace, scope, k), early, late);
    }
  }

  lemma CleanKeepsGenuine(attempts: Store, key: string, cutoff: real, trace: seq<Event>, scope: string)
    requires Genuine(attempts, trace, scope)
    ensures Genuine(Cleaned(attempts, key, cutoff), trace, scope)
  {
    var now := Cleaned(attempts, key, cutoff);
    forall k, i | 0 <= i < |Kept(now, k)| ensures Kept(now, k)[i] in History(trace, scope, k) {
      assert Kept(now, k)[i] in Kept(attempts, k);
    }
  }

  lemma SweepKeepsGenuine(attempts: Store, cutoff: real, trace: seq<Event>, scope: string)
    requires Genuine(attempts, trace, scope)
    ensures Genuine(Swept(attempts, cutoff), trace, scope)
  {
    var now := Swept(attempts, cutoff);
    forall k, i | 0 <= i < |Kept(now, k)| ensures Kept(now, k)[i] in History(trace, scope, k) {
      assert Kept(now, k)[i] == Kept(attempts, k)[i];
    }
  }

  lemma CleanKeepsLive(attempts: Store, key: string, cutoff: real, early: real)
    requires early <= cutoff && Live(attempts, early)
    ensures Live(Cleaned(attempts, key, cutoff), early)
  {
    var now := Cleaned(attempts, key, cutoff);
    forall k | k in now ensures !NoLaterThan(now[k], early) {
      if k == key {
        assert now[k] == Recent(attempts[k], cutoff) && now[k][0] > cutoff;
      }
    }
  }

  // ---- The trace after one more event ----

  ghost predicate SameHistories(trace: seq<Event>, trace': seq<Event>, scope: string) {
    forall k :: History(trace', scope, k) == History(trace, scope, k)
  }

  lemma QuestionsLeaveHistory(attempts: Store, trace: seq<Event>, e: Event, scope: string, cutoff: real)
    requires e.op.Check? || e.op.Remaining? || e.op.Prune?
    requires Agree(attempts, trace, scope, cutoff) && Genuine(attempts, trace, scope)
    ensures SameHistories(trace, trace + [e], scope)
    ensures Agree(attempts, trace + [e], scope, cutoff) && Genuine(attempts, trace + [e], scope)
  {
    forall k ensures History(trace + [e], scope, k) == History(trace, scope, k) {
      HistoryStep(trace, e, scope, k);
    }
  }

  lemma AskingIsHarmless(trace: seq<Event>, now: real, scope: string, key: string)
    ensures SameHistories(trace, trace + [Event(now, scope, Check(key))], scope)
  {
    forall k ensures History(trace + [Event(now, scope, Check(key))], scope, k) == History(trace, scope, k) {
      HistoryStep(trace, Event(now, scope, Check(key)), scope, k);
    }
  }

  lemma RecordAgrees(attempts: Store, key: string, now: real, trace: seq<Event>, scope: string, cutoff: real)
    requires Agree(attempts, trace, scope, cutoff) && Genuine(attempts, trace, scope)
    ensures var attempts' := attempts[key := Kept(attempts, key) + [now]];
      var trace' := trace + [Event(now, scope, Record(key))];
      Agree(attempts', trace', scope, cutoff) && Genuine(attempts', trace', scope)
  {
    var attempts' := attempts[key := Kept(attempts, key) + [now]];
    var trace' := trace + [Event(now, scope, Record(key))];
    forall k ensures Recent(Kept(attempts', k), cutoff) == Recent(History(trace', scope, k), cutoff) {
      HistoryStep(trace, Event(now, scope, Record(key)), scope, k);
      RecentAppend(Kept(attempts, key), [now], cutoff);
      RecentAppend(History(trace, scope, key), [now], cutoff);
    }
    forall k, i | 0 <= i < |Kept(attempts', k)| ensures Kept(attempts', k)[i] in History(trace', scope, k) {
      HistoryStep(trace, Event(now, scope, Record(key)), scope, k);
      assert i < |Kept(attempts, k)| ==> Kept(attempts', k)[i] == Kept(attempts, k)[i];
    }
  }

  lemma ForgetAgrees(attempts: Store, gone: set<string>, e: Event, trace: seq<Event>, scope: string, cutoff: real)
    requires Agree(attempts, trace, scope, cutoff) && Genuine(attempts, trace, scope)
    requires e.scope == scope
    requires (e.op.Reset? && gone == {e.op.key}) || (e.op.Clear? && gone == attempts.Keys)
    ensures Agree(attempts - gone, trace + [e], scope, cutoff) && Genuine(attempts - gone, trace + [e], scope)
  {
    forall k ensures Recent(Kept(attempts - gone, k), cutoff) == Recent(History(trace + [e], scope, k), cutoff) {
      HistoryStep(trace, e, scope, k);
      assert Kept(attempts - gone, k) == if k in gone then [] else Kept(attempts, k);
    }
    forall k, i | 0 <= i < |Kept(attempts - gone, k)|
      ensures Kept(attempts - gone, k)[i] in History(trace + [e], scope, k)
    {
      HistoryStep(trace, e, scope, k);
      assert Kept(attempts - gone, k)[i] == Kept(attempts, k)[i];
    }
  }

  /** The keys recorded later than `from`, reset since or not. */
  function RecordedSince(trace: seq<Event>, scope: string, from: real): set<string> {
    set i | 0 <= i < |trace| && trace[i].scope == scope && trace[i].op.Record? && trace[i].at > from :: trace[i].op.key
  }

  lemma {:induction false} RecordedInHistory(trace: seq<Event>, scope: string, key: string, at: real)
    requires at in History(trace, scope, key)
    ensures exists i :: 0 <= i < |trace| && trace[i] == Event(at, scope, Record(key))
  {
    var past, e := trace[..|trace| - 1], trace[|trace| - 1];
    if at in History(past, scope, key) && e != Event(at, scope, Record(key)) {
      RecordedInHistory(past, scope, key, at);
      var i :| 0 <= i < |past| && past[i] == Event(at, scope, Record(key));
      assert trace[i] == past[i];
    }
  }

  lemma LaterTicks(trace: seq<Event>, early: real, late: real)
    requires TicksTo(trace, early) && early <= late
    ensures TicksTo(trace, late)
  {
  }

  class RateLimitWindow {
    const limits: Config
    const pruneInterval: int
    var attempts: Store
    var nextPruneAt: real
    ghost const scope: string
    ghost var trace: seq<Event>
    ghost var clock: real

    ghost function Past(key: string): seq<real>
      reads this
    {
      History(trace, scope, key)
    }

    /** The time of the last sweep. */
    ghost function LastPrune(): real
      reads this
    {
      nextPruneAt - pruneInterval as real
    }

    ghost predicate Valid()
      reads this
    {
      && Agree(attempts, trace, scope, Cutoff(limits, clock))
      && Genuine(attempts, trace, scope)
      && NoEmptyLists(attempts)
      && LastPrune() <= clock
      && (limits.window > 0 ==> Live(attempts, Cutoff(limits, LastPrune())))
      && TicksTo(trace, clock)
    }

    /** No list is empty, every stored key has an attempt later than a window and a prune interval ago,
        and there are no more keys than were recorded in that span, however long the run. */
    ghost predicate SpaceBound(now: real)
      reads this
    {
      && NoEmptyLists(attempts)
      && (limits.window > 0 && pruneInterval >= 0 ==>
           && Live(attempts, Cutoff(limits, now) - pruneInterval as real)
           && |attempts.Keys| <= |RecordedSince(trace, scope, Cutoff(limits, now) - pruneInterval as real)|)
    }

    constructor (limits: Config, pruneInterval: int, now: real)
      ensures Valid() && trace == [] && clock == now
      ensures this.limits == limits && this.pruneInterval == pruneInterval
    {
      this.limits, this.pruneInterval := limits, pruneInterval;
      attempts := map[];
      nextPruneAt := now + pruneInterval as real;
      scope, trace, clock := "", [], now;
    }

    method CleanupKey(key: string, now: real)
      modifies `attempts
      ensures attempts == Cleaned(old(attempts), key, Cutoff(limits, now))
    {
      var cutoff := Cutoff(limits, now);
      if key in attempts {
        attempts := attempts[key := Recent(attempts[key], cutoff)];
        if attempts[key] == [] {
          attempts := attempts - {key};
          assert attempts == old(attempts) - {key};
        }
      }
    }

    method PruneStaleKeys(now: real)
      modifies `attempts
      ensures attempts == Swept(old(attempts), Cutoff(limits, now))
    {
      var cutoff := Cutoff(limits, now);
      var staleKeys := set k | k in attempts && NoLaterThan(attempts[k], cutoff);
      var pending := staleKeys;
      while pending != {}
        invariant pending <= staleKeys
        invariant attempts == map k | k in old(attempts) && k !in staleKeys - pending :: old(attempts)[k]
      {
        var k :| k in pending;
        attempts := attempts - {k};
        pending := pending - {k};
      }
    }

    method MaybePrune(now: real)
      modifies `attempts, `nextPruneAt
      ensures now < old(nextPruneAt) ==> attempts == old(attempts) && nextPruneAt == old(nextPruneAt)
      ensures now >= old(nextPruneAt) ==>
        attempts == Swept(old(attempts), Cutoff(limits, now)) && nextPruneAt == now + pruneInterval as real
    {
      if now < nextPruneAt {
        return;
      }
      PruneStaleKeys(now);
      nextPruneAt := now + pruneInterval as real;
    }

    /** The upkeep shared by `check`, `record` and `remaining`. */
    method Upkeep(key: string, now: real)
      requires Valid() && clock <= now
      modifies `attempts, `nextPruneAt, `clock
      ensures Valid() && clock == now && (now < nextPruneAt || LastPrune() == now)
      ensures Kept(attempts, key) == Recent(Past(key), Cutoff(limits, now))
    {
      hide Agree, Genuine, History, Recent, TicksTo;
      ghost var cutoff := Cutoff(limits, now);
      LaterTicks(trace, clock, now);
      LaterAgree(attempts, trace, scope, Cutoff(limits, clock), cutoff);
      SweepAgrees(attempts, cutoff, trace, scope);
      SweepKeepsGenuine(attempts, cutoff, trace, scope);
      MaybePrune(now);
      CleanAgrees(attempts, key, cutoff, trace, scope);
      CleanKeepsGenuine(attempts, key, cutoff, trace, scope);
      if limits.window > 0 {
        CleanKeepsLive(attempts, key, cutoff, Cutoff(limits, LastPrune()));
      }
      CleanupKey(key, now);
      clock := now;
    }

    /** Note a question in the trace. */
    ghost method Log(e: Event)
      requires Valid() && e.at == clock && (e.op.Check? || e.op.Remaining?)
      modifies `trace
      ensures Valid() && trace == old(trace) + [e]
      ensures SameHistories(old(trace), trace, scope)
    {
      hide Agree, Genuine, History, Recent, TicksTo, SameHistories;
      TickOn(trace, clock, e);
      QuestionsLeaveHistory(attempts, trace, e, scope, Cutoff(limits, clock));
      trace := trace + [e];
    }

    lemma BoundedSpace(now: real)
      requires Valid() && (now < nextPruneAt || LastPrune() == now)
      ensures SpaceBound(now)
    {
      if limits.window > 0 && pruneInterval >= 0 {
        var from := Cutoff(limits, now) - pruneInterval as real;
        forall k | k in attempts ensures !NoLaterThan(attempts[k], from) && k in RecordedSince(trace, scope, from) {
          var i :| 0 <= i < |attempts[k]| && attempts[k][i] > Cutoff(limits, LastPrune());
          assert Kept(attempts, k)[i] in Past(k);
          RecordedInHistory(trace, scope, k, attempts[k][i]);
        }
        SubsetSize(attempts.Keys, RecordedSince(trace, scope, from));
      }
    }

    /** What `check` answers is what the history says, and asking changes nobody's history. */
    method Check(key: string, now: real) returns (verdict: Verdict)
      requires Valid() && clock <= now
      modifies this
      ensures Valid() && clock == now && SpaceBound(now)
      ensures trace == old(trace) + [Event(now, scope, Op.Check(key))]
      ensures verdict == CheckAnswer(limits, old(Past(key)), now)
    {
      hide Agree, Genuine, History, Recent, TicksTo;
      Upkeep(key, now);
      var kept := Kept(attempts, key);
      if |kept| >= limits.maxAttempts {
        var retryAfter := Ceil(kept[0] + limits.window as real - now);
        verdict := Limited(Max(retryAfter, 1));
      } else {
        verdict := Allowed;
      }
      Log(Event(now, scope, Op.Check(key)));
      BoundedSpace(now);
    }

    method Record(key: string, now: real)
      requires Valid() && clock <= now
      modifies this
      ensures Valid() && clock == now && SpaceBound(now)
      ensures trace == old(trace) + [Event(now, scope, Op.Record(key))]
    {
      hide Agree, Genuine, History, Recent, TicksTo;
      Upkeep(key, now);
      RecordAgrees(attempts, key, now, trace, scope, Cutoff(limits, now));
      ghost var upkept := attempts;
      if key !in attempts {
        attempts := attempts[key := []];
      }
      attempts := attempts[key := attempts[key] + [now]];
      assert attempts == upkept[key := Kept(upkept, key) + [now]];
      assert attempts[key][|attempts[key]| - 1] == now;
      TickOn(trace, clock, Event(now, scope, Op.Record(key)));
      trace := trace + [Event(now, scope, Op.Record(key))];
      BoundedSpace(now);
    }

    method Remaining(key: string, now: real) returns (left: int)
      requires Valid() && clock <= now
      modifies this
      ensures Valid() && clock == now && SpaceBound(now)
      ensures trace == old(trace) + [Event(now, scope, Op.Remaining(key))]
      ensures left == RemainingAnswer(limits, old(Past(key)), now)
    {
      hide Agree, Genuine, History, Recent, TicksTo;
      Upkeep(key, now);
      left := Max(0, limits.maxAttempts - |Kept(attempts, key)|);
      Log(Event(now, scope, Op.Remaining(key)));
      BoundedSpace(now);
    }

    method Reset(key: string)
      requires Valid()
      modifies this
      ensures Valid() && clock == old(clock)
      ensures trace == old(trace) + [Event(clock, scope, Op.Reset(key))] && attempts == old(attempts) - {key}
    {
      hide Agree, Genuine, History, Recent, TicksTo;
      ForgetAgrees(attempts, {key}, Event(clock, scope, Op.Reset(key)), trace, scope, Cutoff(limits, clock));
      attempts := attempts - {key};
      TickOn(trace, clock, Event(clock, scope, Op.Reset(key)));
      trace := trace + [Event(clock, scope, Op.Reset(key))];
    }

    method Prune(now: real)
      requires Valid() && clock <= now
      modifies this
      ensures Valid() && clock == now && SpaceBound(now)
      ensures trace == old(trace) + [Event(now, scope, Op.Prune)]
      ensures attempts == Swept(old(attempts), Cutoff(limits, now))
    {
      hide Agree, Genuine, History, Recent, TicksTo;
      LaterAgree(attempts, trace, scope, Cutoff(limits, clock), Cutoff(limits, now));
      SweepAgrees(attempts, Cutoff(limits, now), trace, scope);
      SweepKeepsGenuine(attempts, Cutoff(limits, now), trace, scope);
      PruneStaleKeys(now);
      nextPruneAt := now + pruneInterval as real;
      clock := now;
      TickOn(trace, old(clock), Event(now, scope, Op.Prune));
      QuestionsLeaveHistory(attempts, trace, Event(now, scope, Op.Prune), scope, Cutoff(limits, now));
      trace := trace + [Event(now, scope, Op.Prune)];
      BoundedSpace(now);
    }

    method Clear()
      requires Valid()
      modifies this
      ensures Valid() && clock == old(clock) && attempts == map[]
      ensures trace == old(trace) + [Event(clock, scope, Op.Clear)]
    {
      hide Agree, Genuine, History, Recent, TicksTo;
      ForgetAgrees(attempts, attempts.Keys, Event(clock, scope, Op.Clear), trace, scope, Cutoff(limits, clock));
      attempts := map[];
      assert attempts == old(attempts) - old(attempts).Keys;
      TickOn(trace, clock, Event(clock, scope, Op.Clear));
      trace := trace + [Event(clock, scope, Op.Clear)];
    }

    /** `_enforce_rate_limit`: refused attempts are not recorded; the two clock reads may differ. */
    method Enforce(key: string, checkedAt: real, recordedAt: real) returns (verdict: Verdict)
      requires Valid() && clock <= checkedAt <= recordedAt
      modifies this
      ensures Valid()
      ensures verdict == CheckAnswer(limits, old(Past(key)), checkedAt)
      ensures forall k :: Past(k)
               == if k == key && verdict == Allowed then old(Past(k)) + [recordedAt] else old(Past(k))
    {
      hide Agree, Genuine, History, Recent, TicksTo;
      verdict := Check(key, checkedAt);
      assert SameHistories(old(trace), trace, scope) by { AskingIsHarmless(old(trace), checkedAt, scope, key); }
      if verdict == Allowed {
        ghost var checked := trace;
        Record(key, recordedAt);
        forall k ensures Past(k) == if k == key then old(Past(k)) + [recordedAt] else old(Past(k)) {
          HistoryStep(checked, Event(recordedAt, scope, Op.Record(key)), scope, k);
          assert History(checked, scope, k) == History(old(trace), scope, k);
        }
      }
    }
  }
}
