/** The reference meaning of a sliding-window limiter, read off the list of everything that was
    asked of it: a key's attempts are the ones recorded since the key was last reset, and an
    answer given at time `now` counts those later than `now - window`. */
module RateLimitHistory {
  datatype Limits = Limits(maxAttempts: int, window: int)

  // `check` indexes the first kept attempt as soon as `maxAttempts` are kept, so zero is not usable.
  type Config = c: Limits | c.maxAttempts >= 1 witness Limits(1, 60)

  datatype Op =
    | Check(key: string)
    | Record(key: string)
    | Remaining(key: string)
    | Reset(key: string)
    | Prune
    | Clear

  datatype Event = Event(at: real, scope: string, op: Op)

  datatype Verdict = Allowed | Limited(retryAfter: int)

  /** All attempts of `key` in `scope` since its last reset, oldest first. */
  function History(trace: seq<Event>, scope: string, key: string): seq<real> {
    if trace == [] then []
    else
      var past := History(trace[..|trace| - 1], scope, key);
      var e := trace[|trace| - 1];
      if e.scope != scope then past
      else match e.op
        case Record(k) => if k == key then past + [e.at] else past
        case Reset(k) => if k == key then [] else past
        case Clear => []
        case _ => past
  }

  function Recent(ts: seq<real>, cutoff: real): (r: seq<real>)
    ensures forall i :: 0 <= i < |r| ==> r[i] > cutoff && r[i] in ts
  {
    if ts == [] then []
    else if ts[0] > cutoff then [ts[0]] + Recent(ts[1..], cutoff)
    else Recent(ts[1..], cutoff)
  }

  function Cutoff(c: Limits, now: real): real {
    now - c.window as real
  }

  function Ceil(x: real): int {
    -((-x).Floor)
  }

  function Max(a: int, b: int): int {
    if a < b then b else a
  }

  /** The answer of `check`, given the attempts that count at `now`. */
  function Judge(c: Config, recent: seq<real>, now: real): Verdict {
    if |recent| >= c.maxAttempts then Limited(Max(Ceil(recent[0] + c.window as real - now), 1))
    else Allowed
  }

  function CheckAnswer(c: Config, history: seq<real>, now: real): Verdict {
    Judge(c, Recent(history, Cutoff(c, now)), now)
  }

  function RemainingAnswer(c: Config, history: seq<real>, now: real): int {
    Max(0, c.maxAttempts - |Recent(history, Cutoff(c, now))|)
  }

  predicate Sorted(ts: seq<real>) {
    forall i, j :: 0 <= i < j < |ts| ==> ts[i] <= ts[j]
  }

  predicate NoLaterThan(ts: seq<real>, now: real) {
    forall i :: 0 <= i < |ts| ==> ts[i] <= now
  }

  ghost predicate Ticking(trace: seq<Event>) {
    forall i, j :: 0 <= i < j < |trace| ==> trace[i].at <= trace[j].at
  }

  /** A trace whose clock has reached `now`. */
  ghost predicate TicksTo(trace: seq<Event>, now: real) {
    Ticking(trace) && (trace != [] ==> trace[|trace| - 1].at <= now)
  }

  lemma TickOn(trace: seq<Event>, now: real, e: Event)
    requires TicksTo(trace, now) && now <= e.at
    ensures TicksTo(trace + [e], e.at)
  {
  }

  // ---- Counting the recent attempts ----

  lemma {:induction false} RecentAppend(a: seq<real>, b: seq<real>, cutoff: real)
    ensures Recent(a + b, cutoff) == Recent(a, cutoff) + Recent(b, cutoff)
  {
    if a == [] {
      assert a + b == b;
    } else {
      assert (a + b)[1..] == a[1..] + b;
      RecentAppend(a[1..], b, cutoff);
    }
  }

  /** Cleaning early loses nothing that a later, higher cutoff would keep. */
  lemma {:induction false} RecentTwice(ts: seq<real>, early: real, late: real)
    requires early <= late
    ensures Recent(Recent(ts, early), late) == Recent(ts, late)
  {
    if ts != [] {
      RecentTwice(ts[1..], early, late);
      var kept := Recent(ts[1..], early);
      assert ([ts[0]] + kept)[1..] == kept;
    }
  }

  lemma {:induction false} RecentAll(ts: seq<real>, cutoff: real)
    requires forall i :: 0 <= i < |ts| ==> ts[i] > cutoff
    ensures Recent(ts, cutoff) == ts
  {
    if ts != [] {
      RecentAll(ts[1..], cutoff);
    }
  }

  lemma {:induction false} RecentNone(ts: seq<real>, cutoff: real)
    ensures Recent(ts, cutoff) == [] <==> forall i :: 0 <= i < |ts| ==> ts[i] <= cutoff
  {
    if ts != [] {
      RecentNone(ts[1..], cutoff);
      assert forall i :: 0 < i < |ts| ==> ts[i] == ts[1..][i - 1];
    }
  }

  /** Two stores that agree on what counts now agree on what counts at any later time. */
  lemma StillAgree(a: seq<real>, b: seq<real>, early: real, late: real)
    requires early <= late && Recent(a, early) == Recent(b, early)
    ensures Recent(a, late) == Recent(b, late)
  {
    RecentTwice(a, early, late);
    RecentTwice(b, early, late);
  }

  /** On a list in time order the recent attempts are a suffix. */
  lemma {:induction false} RecentIsSuffix(ts: seq<real>, cutoff: real) returns (n: nat)
    requires Sorted(ts)
    ensures n <= |ts| && Recent(ts, cutoff) == ts[n..]
    ensures forall i :: 0 <= i < n ==> ts[i] <= cutoff
    ensures forall i :: n <= i < |ts| ==> ts[i] > cutoff
  {
    if ts == [] {
      n := 0;
    } else if ts[0] > cutoff {
      n := 0;
      RecentAll(ts, cutoff);
    } else {
      var m := RecentIsSuffix(ts[1..], cutoff);
      n := m + 1;
      assert Recent(ts, cutoff) == Recent(ts[1..], cutoff);
      hide Recent;
      assert ts[1..][m..] == ts[n..];
      assert forall i :: 0 < i < |ts| ==> ts[i] == ts[1..][i - 1];
    }
  }

  // ---- Shape of a history ----

  lemma {:induction false} HistoryInOrder(trace: seq<Event>, scope: string, key: string, now: real)
    requires TicksTo(trace, now)
    ensures Sorted(History(trace, scope, key)) && NoLaterThan(History(trace, scope, key), now)
  {
    if trace != [] {
      HistoryInOrder(trace[..|trace| - 1], scope, key, trace[|trace| - 1].at);
    }
  }

  lemma HistoryStep(trace: seq<Event>, e: Event, scope: string, key: string)
    ensures History(trace + [e], scope, key) ==
      if e.scope != scope then History(trace, scope, key)
      else match e.op
        case Record(k) => if k == key then History(trace, scope, key) + [e.at] else History(trace, scope, key)
        case Reset(k) => if k == key then [] else History(trace, scope, key)
        case Clear => []
        case _ => History(trace, scope, key)
  {
    assert (trace + [e])[..|trace|] == trace;
  }

  predicate Concerns(e: Event, scope: string, key: string) {
    e.scope == scope && (e.op == Record(key) || e.op == Reset(key) || e.op == Clear)
  }

  function Only(trace: seq<Event>, scope: string, key: string): seq<Event> {
    if trace == [] then []
    else
      var past := Only(trace[..|trace| - 1], scope, key);
      if Concerns(trace[|trace| - 1], scope, key) then past + [trace[|trace| - 1]] else past
  }

  /** Other keys, other scopes, checks and prunes never show: a key's history, hence every answer
      about it, is that of the run with all of them removed. */
  lemma {:induction false} OthersNeverInterfere(trace: seq<Event>, scope: string, key: string)
    ensures History(trace, scope, key) == History(Only(trace, scope, key), scope, key)
  {
    if trace != [] {
      var past := trace[..|trace| - 1];
      OthersNeverInterfere(past, scope, key);
      if Concerns(trace[|trace| - 1], scope, key) {
        HistoryStep(Only(past, scope, key), trace[|trace| - 1], scope, key);
      }
    }
  }
}
