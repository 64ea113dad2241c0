/** What the limiter promises its callers: the `Retry-After` value of section 10.2.3 of RFC 9110,
    and how far concurrent callers can overshoot the limit between `check` and `record`. */
module RateLimitGuarantees {
  import opened RateLimitHistory
  import opened Finite

  predicate IsLimited(c: Config, history: seq<real>, now: real) {
    CheckAnswer(c, history, now).Limited?
  }

  /** A key is limited exactly while its `maxAttempts`-th newest attempt is inside the window. */
  lemma LimitedExactlyWhile(c: Config, history: seq<real>, now: real)
    requires Sorted(history)
    ensures IsLimited(c, history, now) <==>
      |history| >= c.maxAttempts && history[|history| - c.maxAttempts] > Cutoff(c, now)
  {
    var n := RecentIsSuffix(history, Cutoff(c, now));
  }

  lemma CeilBetween(x: real)
    ensures x <= Ceil(x) as real < x + 1.0
  {
  }

  /** A refusal names the oldest counted attempt, which is `maxAttempts` from the end when no more
      than the limit is counted. */
  lemma OldestCounted(c: Config, history: seq<real>, now: real) returns (oldest: real)
    requires Sorted(history) && NoLaterThan(history, now) && IsLimited(c, history, now)
    ensures Recent(history, Cutoff(c, now)) != [] && oldest == Recent(history, Cutoff(c, now))[0]
    ensures Cutoff(c, now) < oldest <= now
    ensures CheckAnswer(c, history, now).retryAfter == Ceil(oldest + c.window as real - now)
    ensures |history| >= c.maxAttempts && oldest <= history[|history| - c.maxAttempts]
    ensures |Recent(history, Cutoff(c, now))| <= c.maxAttempts ==> oldest == history[|history| - c.maxAttempts]
  {
    var n := RecentIsSuffix(history, Cutoff(c, now));
    oldest := history[n];
    CeilBetween(oldest + c.window as real - now);
  }

  /** The value is never too late: at every whole second before it the key is still limited. */
  lemma RetryAfterNeverTooLate(c: Config, history: seq<real>, now: real, s: nat)
    requires Sorted(history) && NoLaterThan(history, now) && IsLimited(c, history, now)
    ensures 1 <= CheckAnswer(c, history, now).retryAfter <= c.window
    ensures s < CheckAnswer(c, history, now).retryAfter ==> IsLimited(c, history, now + s as real)
  {
    hide CheckAnswer, Recent;
    var oldest := OldestCounted(c, history, now);
    CeilBetween(oldest + c.window as real - now);
    LimitedExactlyWhile(c, history, now + s as real);
  }

  /** With no more than `maxAttempts` counted, the value is exact: of all whole seconds from now, the
      key is limited at those before it and at no other. The lower limit of one second is redundant. */
  lemma RetryAfterExact(c: Config, history: seq<real>, now: real, s: nat)
    requires Sorted(history) && NoLaterThan(history, now) && IsLimited(c, history, now)
    requires |Recent(history, Cutoff(c, now))| <= c.maxAttempts
    ensures Recent(history, Cutoff(c, now)) != []
    ensures CheckAnswer(c, history, now).retryAfter
      == Ceil(Recent(history, Cutoff(c, now))[0] + c.window as real - now)
    ensures IsLimited(c, history, now + s as real) <==> s < CheckAnswer(c, history, now).retryAfter
  {
    hide CheckAnswer, Recent;
    var oldest := OldestCounted(c, history, now);
    CeilBetween(oldest + c.window as real - now);
    LimitedExactlyWhile(c, history, now + s as real);
  }

  /** What `remaining` promises for `check`: after that many more attempts at once, and not before, the
      key is limited. (In a window of no length an attempt never counts.) */
  lemma RemainingIsWhatIsLeft(c: Config, history: seq<real>, now: real, n: nat)
    ensures RemainingAnswer(c, history, now) >= 0
    ensures IsLimited(c, history + seq(n, _ => now), now) <==>
      if c.window > 0 then n >= RemainingAnswer(c, history, now) else RemainingAnswer(c, history, now) == 0
  {
    var more := seq(n, _ => now);
    RecentAppend(history, more, Cutoff(c, now));
    if c.window > 0 {
      RecentAll(more, Cutoff(c, now));
    } else {
      RecentNone(more, Cutoff(c, now));
    }
  }

  /** With more counted, the key is free after the promised delay exactly when the attempt
      `maxAttempts` from the end leaves the window in the same second as the oldest one counted. */
  lemma RetryAfterHonestIff(c: Config, history: seq<real>, now: real)
    requires Sorted(history) && NoLaterThan(history, now) && IsLimited(c, history, now)
    ensures |history| >= c.maxAttempts && Recent(history, Cutoff(c, now)) != []
    ensures !IsLimited(c, history, now + CheckAnswer(c, history, now).retryAfter as real) <==>
      Ceil(history[|history| - c.maxAttempts] + c.window as real - now)
      == Ceil(Recent(history, Cutoff(c, now))[0] + c.window as real - now)
  {
    hide CheckAnswer, Recent;
    var oldest := OldestCounted(c, history, now);
    LimitedExactlyWhile(c, history, now + CheckAnswer(c, history, now).retryAfter as real);
    CeilBetween(oldest + c.window as real - now);
    CeilBetween(history[|history| - c.maxAttempts] + c.window as real - now);
  }

  // ---- Callers interleaving `check` and `record` ----

  datatype Move = DoCheck | DoRecord | DoReset

  datatype Turn = Turn(at: real, caller: nat, move: Move)

  /** One key: its history, the callers whose check has passed and who have yet to record. */
  datatype Race = Race(history: seq<real>, passed: set<nat>, clock: real)

  function Step(c: Config, s: Race, t: Turn): Race {
    match t.move
    case DoCheck =>
      Race(s.history, if IsLimited(c, s.history, t.at) then s.passed else s.passed + {t.caller}, t.at)
    case DoRecord =>
      if t.caller in s.passed then Race(s.history + [t.at], s.passed - {t.caller}, t.at)
      else Race(s.history, s.passed, t.at)
    case DoReset => Race([], s.passed, t.at)
  }

  function Run(c: Config, s: Race, turns: seq<Turn>): Race {
    if turns == [] then s else Step(c, Run(c, s, turns[..|turns| - 1]), turns[|turns| - 1])
  }

  ghost predicate Schedule(turns: seq<Turn>, callers: nat, start: real) {
    && (forall i, j :: 0 <= i < j < |turns| ==> turns[i].at <= turns[j].at)
    && (forall i :: 0 <= i < |turns| ==> turns[i].caller < callers && start <= turns[i].at)
  }

  /** Any `n + 1` consecutive attempts span at least a window. */
  ghost predicate Spread(history: seq<real>, n: nat, window: int) {
    forall i, j :: 0 <= i <= j < |history| && j == i + n ==> history[j] - history[i] >= window as real
  }

  ghost predicate Bounded(c: Config, callers: nat, s: Race) {
    && callers >= 1
    && Sorted(s.history) && NoLaterThan(s.history, s.clock)
    && (forall i :: i in s.passed ==> i < callers)
    && |Recent(s.history, Cutoff(c, s.clock))| + |s.passed| <= c.maxAttempts + callers - 1
    && Spread(s.history, c.maxAttempts + callers - 1, c.window)
  }

  function Callers(n: nat): (r: set<nat>)
    ensures |r| == n && forall i: nat :: i in r <==> i < n
  {
    if n == 0 then {} else Callers(n - 1) + {n - 1}
  }

  lemma {:induction false} FewerLater(ts: seq<real>, early: real, late: real)
    requires early <= late
    ensures |Recent(ts, late)| <= |Recent(ts, early)|
  {
    if ts != [] {
      FewerLater(ts[1..], early, late);
    }
  }

  /** Recording when fewer than `n` attempts count keeps every `n + 1` of them a window apart. */
  lemma RecordKeepsSpread(c: Config, history: seq<real>, n: nat, now: real)
    requires Sorted(history) && NoLaterThan(history, now) && Spread(history, n, c.window)
    requires |Recent(history, Cutoff(c, now))| < n
    ensures Spread(history + [now], n, c.window)
  {
    var m := RecentIsSuffix(history, Cutoff(c, now));
    var longer := history + [now];
    forall i, j | 0 <= i <= j < |longer| && j == i + n ensures longer[j] - longer[i] >= c.window as real {
      if j < |history| {
        assert longer[j] == history[j] && longer[i] == history[i];
      }
    }
  }

  lemma CheckKeepsBound(c: Config, callers: nat, s: Race, t: Turn)
    requires Bounded(c, callers, s) && s.clock <= t.at && t.caller < callers && t.move == DoCheck
    ensures Bounded(c, callers, Step(c, s, t))
  {
    hide Recent, Spread, Sorted;
    FewerLater(s.history, Cutoff(c, s.clock), Cutoff(c, t.at));
    assert Step(c, s, t).passed <= Callers(callers);
    SubsetSize(Step(c, s, t).passed, Callers(callers));
    assert !IsLimited(c, s.history, t.at) ==> |Recent(s.history, Cutoff(c, t.at))| < c.maxAttempts;
  }

  lemma OneAtMost(t: real, cutoff: real)
    ensures |Recent([t], cutoff)| <= 1
  {
  }

  lemma RecordKeepsBound(c: Config, callers: nat, s: Race, t: Turn)
    requires Bounded(c, callers, s) && s.clock <= t.at && t.move == DoRecord
    ensures Bounded(c, callers, Step(c, s, t))
  {
    hide Recent, Spread;
    FewerLater(s.history, Cutoff(c, s.clock), Cutoff(c, t.at));
    if t.caller in s.passed {
      assert |s.passed - {t.caller}| == |s.passed| - 1;
      RecordKeepsSpread(c, s.history, c.maxAttempts + callers - 1, t.at);
      RecentAppend(s.history, [t.at], Cutoff(c, t.at));
      OneAtMost(t.at, Cutoff(c, t.at));
    }
  }

  lemma NothingCounts(cutoff: real, n: nat, window: int)
    ensures Recent([], cutoff) == [] && Spread([], n, window)
  {
  }

  lemma ResetKeepsBound(c: Config, callers: nat, s: Race, t: Turn)
    requires Bounded(c, callers, s) && s.clock <= t.at && t.move == DoReset
    ensures Bounded(c, callers, Step(c, s, t))
  {
    hide Recent, Spread;
    assert s.passed <= Callers(callers);
    SubsetSize(s.passed, Callers(callers));
    NothingCounts(Cutoff(c, t.at), c.maxAttempts + callers - 1, c.window);
  }

  /** Attempts that count plus callers past their check: the sum a step cannot push over the bound. */
  lemma StepKeepsBound(c: Config, callers: nat, s: Race, t: Turn)
    requires Bounded(c, callers, s) && s.clock <= t.at && t.caller < callers
    ensures Bounded(c, callers, Step(c, s, t))
  {
    hide Bounded, Step;
    match t.move {
      case DoCheck => CheckKeepsBound(c, callers, s, t);
      case DoRecord => RecordKeepsBound(c, callers, s, t);
      case DoReset => ResetKeepsBound(c, callers, s, t);
    }
  }

  lemma {:induction false} RunKeepsBound(c: Config, callers: nat, s: Race, turns: seq<Turn>)
    requires callers >= 1 && Bounded(c, callers, s) && Schedule(turns, callers, s.clock)
    ensures Bounded(c, callers, Run(c, s, turns))
    ensures Run(c, s, turns).clock == if turns == [] then s.clock else turns[|turns| - 1].at
  {
    if turns != [] {
      var before := turns[..|turns| - 1];
      RunKeepsBound(c, callers, s, before);
      assert before != [] ==> before[|before| - 1] == turns[|before| - 1];
      StepKeepsBound(c, callers, Run(c, s, before), turns[|turns| - 1]);
    }
  }

  /** How many attempts fall in the half-open window `(from, from + window]`. */
  function CountIn(history: seq<real>, from: real, window: int): int {
    |Recent(history, from)| - |Recent(history, from + window as real)|
  }

  lemma Apart(history: seq<real>, n: nat, window: int, i: nat)
    requires Spread(history, n, window) && i + n < |history|
    ensures history[i + n] - history[i] >= window as real
  {
  }

  lemma SpreadBoundsCount(history: seq<real>, n: nat, window: int, from: real)
    requires Sorted(history) && Spread(history, n, window) && window >= 0
    ensures CountIn(history, from, window) <= n
  {
    hide Recent, Spread;
    var a := RecentIsSuffix(history, from);
    var b := RecentIsSuffix(history, from + window as real);
    if b - a > n {
      Apart(history, n, window, a);
    }
  }

  /** On every schedule of `callers` interleaved callers, the attempts admitted since the last reset
      never exceed `maxAttempts + callers - 1` in any window; one caller at a time keeps the limit. */
  lemma OvershootBound(c: Config, callers: nat, start: real, turns: seq<Turn>, from: real)
    requires callers >= 1 && c.window >= 0 && Schedule(turns, callers, start)
    ensures CountIn(Run(c, Race([], {}, start), turns).history, from, c.window) <= c.maxAttempts + callers - 1
  {
    RunKeepsBound(c, callers, Race([], {}, start), turns);
    SpreadBoundsCount(Run(c, Race([], {}, start), turns).history, c.maxAttempts + callers - 1, c.window, from);
  }

  /** A single caller's check-then-record runs never count more than the limit, so every refusal
      they meet carries an exact delay. */
  lemma SequentialRefusalsAreExact(c: Config, start: real, turns: seq<Turn>, now: real, s: nat)
    requires Schedule(turns, 1, start) && start <= now && (turns != [] ==> turns[|turns| - 1].at <= now)
    requires IsLimited(c, Run(c, Race([], {}, start), turns).history, now)
    ensures var h := Run(c, Race([], {}, start), turns).history;
      IsLimited(c, h, now + s as real) <==> s < CheckAnswer(c, h, now).retryAfter
  {
    var end := Run(c, Race([], {}, start), turns);
    RunKeepsBound(c, 1, Race([], {}, start), turns);
    FewerLater(end.history, Cutoff(c, end.clock), Cutoff(c, now));
    RetryAfterExact(c, end.history, now, s);
  }

  lemma RunOneMore(c: Config, s: Race, turns: seq<Turn>, t: Turn)
    ensures Run(c, s, turns + [t]) == Step(c, Run(c, s, turns), t)
  {
    assert (turns + [t])[..|turns|] == turns;
  }

  lemma FourTurns(c: Config, s: Race, t0: Turn, t1: Turn, t2: Turn, t3: Turn)
    ensures Run(c, s, [t0, t1, t2, t3]) == Step(c, Step(c, Step(c, Step(c, s, t0), t1), t2), t3)
  {
    assert Run(c, s, []) == s;
    hide Run, Step;
    RunOneMore(c, s, [], t0);
    RunOneMore(c, s, [t0], t1);
    RunOneMore(c, s, [t0, t1], t2);
    RunOneMore(c, s, [t0, t1, t2], t3);
    assert [] + [t0] == [t0] && [t0] + [t1] == [t0, t1];
    assert [t0, t1] + [t2] == [t0, t1, t2] && [t0, t1, t2] + [t3] == [t0, t1, t2, t3];
  }

  lemma BothPass(c: Config)
    ensures Step(c, Step(c, Race([], {}, 0.0), Turn(0.0, 0, DoCheck)), Turn(0.0, 1, DoCheck)) == Race([], {0, 1}, 0.0)
  {
    assert !IsLimited(c, [], 0.0);
    hide IsLimited;
    assert {} + {0} + {1} == {0, 1};
  }

  lemma LateRefusal()
    ensures var c: Config := Limits(1, 10);
      CheckAnswer(c, [0.0, 5.0], 6.0) == Limited(4) && IsLimited(c, [0.0, 5.0], 10.0)
  {
    var c: Config := Limits(1, 10);
    assert [0.0, 5.0][1..] == [5.0];
    assert Recent([5.0], -4.0) == [5.0] && Recent([5.0], 0.0) == [5.0];
    assert Recent([0.0, 5.0], -4.0) == [0.0, 5.0];
    assert Recent([0.0, 5.0], 0.0) == [5.0];
    assert Ceil(0.0 + 10.0 - 6.0) == 4;
  }

  lemma FourScheduled()
    ensures Schedule([Turn(0.0, 0, DoCheck), Turn(0.0, 1, DoCheck), Turn(0.0, 0, DoRecord), Turn(5.0, 1, DoRecord)], 2,
      0.0)
  {
  }

  /** It happens: limit 1, window 10, and two callers who both pass their check at 0 and record at 0
      and at 5. At 6 the next caller is told 4, and is still refused at 10. */
  lemma RetryAfterTooEarlyWhenOverfull()
    ensures var c: Config := Limits(1, 10);
      var turns := [Turn(0.0, 0, DoCheck), Turn(0.0, 1, DoCheck), Turn(0.0, 0, DoRecord), Turn(5.0, 1, DoRecord)];
      var history := Run(c, Race([], {}, 0.0), turns).history;
      && Schedule(turns, 2, 0.0)
      && CheckAnswer(c, history, 6.0) == Limited(4) && IsLimited(c, history, 10.0)
  {
    var c: Config := Limits(1, 10);
    var t0, t1, t2, t3 := Turn(0.0, 0, DoCheck), Turn(0.0, 1, DoCheck), Turn(0.0, 0, DoRecord), Turn(5.0, 1, DoRecord);
    FourTurns(c, Race([], {}, 0.0), t0, t1, t2, t3);
    BothPass(c);
    LateRefusal();
    FourScheduled();
    hide CheckAnswer, Run, Schedule;
    assert Step(c, Race([], {0, 1}, 0.0), t2) == Race([0.0], {1}, 0.0) by { assert {0, 1} - {0} == {1}; }
    assert Step(c, Race([0.0], {1}, 0.0), t3).history == [0.0, 5.0];
  }

  // ---- The bound is attained ----

  ghost predicate AtZero(turns: seq<Turn>, callers: nat) {
    forall i :: 0 <= i < |turns| ==> turns[i].at == 0.0 && turns[i].caller < callers
  }

  predicate Zeros(ts: seq<real>) {
    forall i :: 0 <= i < |ts| ==> ts[i] == 0.0
  }

  lemma ZerosAllCount(c: Config, ts: seq<real>)
    requires Zeros(ts) && c.window > 0
    ensures Recent(ts, Cutoff(c, 0.0)) == ts
  {
    RecentAll(ts, Cutoff(c, 0.0));
  }

  /** One caller fills the window to one below the limit. */
  lemma {:induction false} FillUp(c: Config, n: nat, callers: nat) returns (turns: seq<Turn>)
    requires n < c.maxAttempts && c.window > 0 && callers >= 1
    ensures AtZero(turns, callers)
    ensures var s := Run(c, Race([], {}, 0.0), turns);
      |s.history| == n && Zeros(s.history) && s.passed == {} && s.clock == 0.0
  {
    if n == 0 {
      turns := [];
    } else {
      turns := FillUp(c, n - 1, callers);
      ZerosAllCount(c, Run(c, Race([], {}, 0.0), turns).history);
      RunOneMore(c, Race([], {}, 0.0), turns, Turn(0.0, 0, DoCheck));
      RunOneMore(c, Race([], {}, 0.0), turns + [Turn(0.0, 0, DoCheck)], Turn(0.0, 0, DoRecord));
      turns := turns + [Turn(0.0, 0, DoCheck)] + [Turn(0.0, 0, DoRecord)];
    }
  }

  lemma {:induction false} AllPass(c: Config, n: nat, callers: nat) returns (turns: seq<Turn>)
    requires n <= callers && c.window > 0 && callers >= 1
    ensures AtZero(turns, callers)
    ensures var s := Run(c, Race([], {}, 0.0), turns);
      |s.history| == c.maxAttempts - 1 && Zeros(s.history) && s.passed == Callers(n) && s.clock == 0.0
  {
    if n == 0 {
      turns := FillUp(c, c.maxAttempts - 1, callers);
    } else {
      turns := AllPass(c, n - 1, callers);
      ZerosAllCount(c, Run(c, Race([], {}, 0.0), turns).history);
      RunOneMore(c, Race([], {}, 0.0), turns, Turn(0.0, n - 1, DoCheck));
      turns := turns + [Turn(0.0, n - 1, DoCheck)];
    }
  }

  lemma OneMoreAtZero(turns: seq<Turn>, callers: nat, t: Turn)
    requires AtZero(turns, callers) && t.at == 0.0 && t.caller < callers
    ensures AtZero(turns + [t], callers)
  {
  }

  lemma OneRecords(c: Config, s: Race, n: nat, callers: nat)
    requires n < callers && s.passed == Callers(callers) - Callers(n) && Zeros(s.history)
    ensures var s' := Step(c, s, Turn(0.0, n, DoRecord));
      s'.history == s.history + [0.0] && Zeros(s'.history) && s'.passed == Callers(callers) - Callers(n + 1)
  {
    assert n in s.passed;
    assert s.passed - {n} == Callers(callers) - Callers(n + 1);
  }

  lemma {:induction false} AllRecord(c: Config, n: nat, callers: nat) returns (turns: seq<Turn>)
    requires n <= callers && c.window > 0 && callers >= 1
    ensures AtZero(turns, callers)
    ensures var s := Run(c, Race([], {}, 0.0), turns);
      |s.history| == c.maxAttempts - 1 + n && Zeros(s.history) && s.passed == Callers(callers) - Callers(n)
  {
    if n == 0 {
      turns := AllPass(c, callers, callers);
    } else {
      hide Run, Step, Callers, Zeros, AtZero;
      turns := AllRecord(c, n - 1, callers);
      OneRecords(c, Run(c, Race([], {}, 0.0), turns), n - 1, callers);
      RunOneMore(c, Race([], {}, 0.0), turns, Turn(0.0, n - 1, DoRecord));
      OneMoreAtZero(turns, callers, Turn(0.0, n - 1, DoRecord));
      turns := turns + [Turn(0.0, n - 1, DoRecord)];
    }
  }

  /** The bound cannot be lowered: some schedule of `callers` callers meets it in a single window. */
  lemma OvershootAttained(c: Config, callers: nat) returns (turns: seq<Turn>)
    requires callers >= 1 && c.window > 0
    ensures Schedule(turns, callers, 0.0)
    ensures CountIn(Run(c, Race([], {}, 0.0), turns).history, Cutoff(c, 0.0), c.window) == c.maxAttempts + callers - 1
  {
    turns := AllRecord(c, callers, callers);
    var h := Run(c, Race([], {}, 0.0), turns).history;
    ZerosAllCount(c, h);
    RecentNone(h, 0.0);
  }
}
