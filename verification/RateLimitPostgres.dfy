/** The limiter kept in one database table shared by every scope: nothing is cleaned on access, the
    window is a `WHERE` clause. Answers are proved to be those of the same history as in memory. */
module RateLimitPostgres {
  import opened RateLimitHistory

  datatype Row = Row(scope: string, key: string, at: real)

  datatype Where = KeyOf(scope: string, key: string) | StaleOf(scope: string, cutoff: real) | AllOf(scope: string)

  predicate Matches(w: Where, row: Row) {
    w.scope == row.scope &&
    match w
    case KeyOf(_, key) => row.key == key
    case StaleOf(_, cutoff) => row.at <= cutoff
    case AllOf(_) => true
  }

  function Delete(rows: seq<Row>, w: Where): seq<Row> {
    if rows == [] then []
    else if Matches(w, rows[0]) then Delete(rows[1..], w)
    else [rows[0]] + Delete(rows[1..], w)
  }

  /** The times recorded for one key, in insertion order. */
  function Select(rows: seq<Row>, scope: string, key: string): seq<real> {
    if rows == [] then []
    else if rows[0].scope == scope && rows[0].key == key then [rows[0].at] + Select(rows[1..], scope, key)
    else Select(rows[1..], scope, key)
  }

  function Insert(t: real, ts: seq<real>): seq<real> {
    if ts == [] || t <= ts[0] then [t] + ts else [ts[0]] + Insert(t, ts[1..])
  }

  function OrderBy(ts: seq<real>): seq<real> {
    if ts == [] then [] else Insert(ts[0], OrderBy(ts[1..]))
  }

  lemma {:induction false} OrderByInOrder(ts: seq<real>)
    requires Sorted(ts)
    ensures OrderBy(ts) == ts
  {
    if ts != [] {
      OrderByInOrder(ts[1..]);
    }
  }

  lemma {:induction false} SelectInserted(rows: seq<Row>, row: Row, scope: string, key: string)
    ensures Select(rows + [row], scope, key) ==
      Select(rows, scope, key) + (if row.scope == scope && row.key == key then [row.at] else [])
  {
    if rows == [] {
      assert rows + [row] == [row];
    } else {
      assert (rows + [row])[1..] == rows[1..] + [row];
      SelectInserted(rows[1..], row, scope, key);
    }
  }

  /** What a `DELETE` leaves for one key: nothing, what is later than the cutoff, or everything. */
  lemma {:induction false} SelectAfterDelete(rows: seq<Row>, w: Where, scope: string, key: string)
    ensures Select(Delete(rows, w), scope, key) ==
      if w.scope != scope then Select(rows, scope, key)
      else match w
        case KeyOf(_, k) => if k == key then [] else Select(rows, scope, key)
        case StaleOf(_, cutoff) => Recent(Select(rows, scope, key), cutoff)
        case AllOf(_) => []
  {
    if rows != [] {
      SelectAfterDelete(rows[1..], w, scope, key);
      var rest := Delete(rows[1..], w);
      assert ([rows[0]] + rest)[1..] == rest;
      var others := Select(rows[1..], scope, key);
      assert ([rows[0].at] + others)[1..] == others;
    }
  }

  ghost predicate Agree(rows: seq<Row>, trace: seq<Event>, limitsOf: map<string, Config>, now: real) {
    forall s, k :: s in limitsOf ==>
      Recent(Select(rows, s, k), Cutoff(limitsOf[s], now)) == Recent(History(trace, s, k), Cutoff(limitsOf[s], now))
  }

  predicate RowsInOrder(rows: seq<Row>, now: real) {
    && (forall i, j :: 0 <= i < j < |rows| ==> rows[i].at <= rows[j].at)
    && (forall i :: 0 <= i < |rows| ==> rows[i].at <= now)
  }

  lemma {:induction false} SelectSorted(rows: seq<Row>, scope: string, key: string)
    requires forall i, j :: 0 <= i < j < |rows| ==> rows[i].at <= rows[j].at
    ensures Sorted(Select(rows, scope, key))
    ensures forall i :: 0 <= i < |Select(rows, scope, key)| ==> rows != [] && rows[0].at <= Select(rows, scope, key)[i]
  {
    if rows != [] {
      var rest := rows[1..];
      SelectSorted(rest, scope, key);
      assert rest != [] ==> rest[0] == rows[1] && rows[0].at <= rows[1].at;
    }
  }

  lemma {:induction false} SelectInOrder(rows: seq<Row>, scope: string, key: string, now: real, cutoff: real)
    requires RowsInOrder(rows, now)
    ensures Sorted(Select(rows, scope, key)) && Sorted(Recent(Select(rows, scope, key), cutoff))
  {
    SelectSorted(rows, scope, key);
    var n := RecentIsSuffix(Select(rows, scope, key), cutoff);
  }

  lemma {:induction false} DeleteKeepsOrder(rows: seq<Row>, w: Where, now: real)
    requires RowsInOrder(rows, now)
    ensures RowsInOrder(Delete(rows, w), now)
    ensures forall i :: 0 <= i < |Delete(rows, w)| ==> rows != [] && rows[0].at <= Delete(rows, w)[i].at
  {
    if rows != [] {
      var rest := rows[1..];
      assert forall i :: 0 <= i < |rest| ==> rest[i] == rows[i + 1];
      DeleteKeepsOrder(rest, w, now);
      assert rest != [] ==> rows[0].at <= rest[0].at;
    }
  }

  lemma LaterAgree(rows: seq<Row>, trace: seq<Event>, limitsOf: map<string, Config>, early: real, late: real)
    requires early <= late && Agree(rows, trace, limitsOf, early)
    ensures Agree(rows, trace, limitsOf, late)
  {
    forall s, k | s in limitsOf
      ensures Recent(Select(rows, s, k), Cutoff(limitsOf[s], late))
        == Recent(History(trace, s, k), Cutoff(limitsOf[s], late))
    {
      StillAgree(Select(rows, s, k), History(trace, s, k), Cutoff(limitsOf[s], early), Cutoff(limitsOf[s], late));
    }
  }

  lemma InsertAgrees(rows: seq<Row>, row: Row, trace: seq<Event>, limitsOf: map<string, Config>)
    requires Agree(rows, trace, limitsOf, row.at)
    ensures Agree(rows + [row], trace + [Event(row.at, row.scope, Record(row.key))], limitsOf, row.at)
  {
    var e := Event(row.at, row.scope, Record(row.key));
    forall s, k | s in limitsOf
      ensures Recent(Select(rows + [row], s, k), Cutoff(limitsOf[s], row.at))
        == Recent(History(trace + [e], s, k), Cutoff(limitsOf[s], row.at))
    {
      hide Recent, History, Select;
      HistoryStep(trace, e, s, k);
      SelectInserted(rows, row, s, k);
      RecentAppend(Select(rows, s, k), [row.at], Cutoff(limitsOf[s], row.at));
      RecentAppend(History(trace, s, k), [row.at], Cutoff(limitsOf[s], row.at));
      assert Select(rows, s, k) + [] == Select(rows, s, k);
    }
  }

  /** The event a `DELETE` answers for: `reset`, `prune` or `clear`. */
  ghost predicate Carries(w: Where, e: Event, limitsOf: map<string, Config>) {
    w.scope == e.scope && e.scope in limitsOf &&
    match w
    case KeyOf(_, key) => e.op == Reset(key)
    case StaleOf(_, cutoff) => e.op == Prune && cutoff == Cutoff(limitsOf[e.scope], e.at)
    case AllOf(_) => e.op == Clear
  }

  lemma DeleteAgrees(rows: seq<Row>, w: Where, e: Event, trace: seq<Event>, limitsOf: map<string, Config>)
    requires Agree(rows, trace, limitsOf, e.at) && Carries(w, e, limitsOf)
    ensures Agree(Delete(rows, w), trace + [e], limitsOf, e.at)
  {
    forall s, k | s in limitsOf
      ensures Recent(Select(Delete(rows, w), s, k), Cutoff(limitsOf[s], e.at))
        == Recent(History(trace + [e], s, k), Cutoff(limitsOf[s], e.at))
    {
      HistoryStep(trace, e, s, k);
      SelectAfterDelete(rows, w, s, k);
      RecentTwice(Select(rows, s, k), Cutoff(limitsOf[s], e.at), Cutoff(limitsOf[s], e.at));
    }
  }

  lemma QuestionAgrees(rows: seq<Row>, e: Event, trace: seq<Event>, limitsOf: map<string, Config>)
    requires Agree(rows, trace, limitsOf, e.at) && (e.op.Check? || e.op.Remaining?)
    ensures Agree(rows, trace + [e], limitsOf, e.at)
  {
    forall s, k | s in limitsOf
      ensures Recent(Select(rows, s, k), Cutoff(limitsOf[s], e.at))
        == Recent(History(trace + [e], s, k), Cutoff(limitsOf[s], e.at))
    {
      HistoryStep(trace, e, s, k);
    }
  }

  class AttemptTable {
    const limitsOf: map<string, Config>
    var rows: seq<Row>
    ghost var trace: seq<Event>
    ghost var clock: real

    ghost predicate Valid()
      reads this
    {
      && Agree(rows, trace, limitsOf, clock)
      && RowsInOrder(rows, clock)
      && TicksTo(trace, clock)
    }

    constructor (limitsOf: map<string, Config>, now: real)
      ensures Valid() && trace == [] && clock == now && this.limitsOf == limitsOf
    {
      this.limitsOf := limitsOf;
      rows, trace, clock := [], [], now;
    }

    method RecentAttempts(scope: string, key: string, now: real) returns (recent: seq<real>)
      requires Valid() && clock <= now && scope in limitsOf
      ensures recent == Recent(History(trace, scope, key), Cutoff(limitsOf[scope], now))
    {
      hide History, Recent, TicksTo;
      recent := OrderBy(Recent(Select(rows, scope, key), Cutoff(limitsOf[scope], now)));
      SelectInOrder(rows, scope, key, clock, Cutoff(limitsOf[scope], now));
      OrderByInOrder(Recent(Select(rows, scope, key), Cutoff(limitsOf[scope], now)));
      LaterAgree(rows, trace, limitsOf, clock, now);
    }

    ghost method Log(e: Event)
      requires Valid() && clock <= e.at && (e.op.Check? || e.op.Remaining?)
      modifies `trace, `clock
      ensures Valid() && clock == e.at && trace == old(trace) + [e]
    {
      hide Agree, History, Recent, TicksTo;
      LaterAgree(rows, trace, limitsOf, clock, e.at);
      QuestionAgrees(rows, e, trace, limitsOf);
      TickOn(trace, clock, e);
      trace, clock := trace + [e], e.at;
    }

    /** The same answer as the in-memory limiter's: both are `CheckAnswer` of the key's history. */
    method Check(scope: string, key: string, now: real) returns (verdict: Verdict)
      requires Valid() && clock <= now && scope in limitsOf
      modifies `trace, `clock
      ensures Valid() && clock == now && trace == old(trace) + [Event(now, scope, Op.Check(key))]
      ensures verdict == CheckAnswer(limitsOf[scope], History(old(trace), scope, key), now)
    {
      hide Agree, History, Recent, TicksTo;
      var recent := RecentAttempts(scope, key, now);
      if |recent| >= limitsOf[scope].maxAttempts {
        var retryAfter := Ceil(recent[0] + limitsOf[scope].window as real - now);
        verdict := Limited(Max(retryAfter, 1));
      } else {
        verdict := Allowed;
      }
      Log(Event(now, scope, Op.Check(key)));
    }

    method Remaining(scope: string, key: string, now: real) returns (left: int)
      requires Valid() && clock <= now && scope in limitsOf
      modifies `trace, `clock
      ensures Valid() && clock == now && trace == old(trace) + [Event(now, scope, Op.Remaining(key))]
      ensures left == RemainingAnswer(limitsOf[scope], History(old(trace), scope, key), now)
    {
      hide Agree, History, Recent, TicksTo;
      var recent := RecentAttempts(scope, key, now);
      left := Max(0, limitsOf[scope].maxAttempts - |recent|);
      Log(Event(now, scope, Op.Remaining(key)));
    }

    method Record(scope: string, key: string, now: real)
      requires Valid() && clock <= now
      modifies this
      ensures Valid() && clock == now && trace == old(trace) + [Event(now, scope, Op.Record(key))]
      ensures rows == old(rows) + [Row(scope, key, now)]
    {
      hide Agree, History, Recent, TicksTo;
      LaterAgree(rows, trace, limitsOf, clock, now);
      InsertAgrees(rows, Row(scope, key, now), trace, limitsOf);
      TickOn(trace, clock, Event(now, scope, Op.Record(key)));
      rows := rows + [Row(scope, key, now)];
      trace, clock := trace + [Event(now, scope, Op.Record(key))], now;
    }

    /** One `DELETE` statement, on behalf of `reset`, `prune` or `clear`. */
    method DeleteWhere(w: Where, ghost e: Event)
      requires Valid() && clock <= e.at && Carries(w, e, limitsOf)
      modifies this
      ensures Valid() && clock == e.at && trace == old(trace) + [e] && rows == Delete(old(rows), w)
    {
      hide Agree, History, Recent, TicksTo;
      LaterAgree(rows, trace, limitsOf, clock, e.at);
      DeleteAgrees(rows, w, e, trace, limitsOf);
      DeleteKeepsOrder(rows, w, clock);
      TickOn(trace, clock, e);
      rows := Delete(rows, w);
      trace, clock := trace + [e], e.at;
    }

    method Reset(scope: string, key: string)
      requires Valid() && scope in limitsOf
      modifies this
      ensures Valid() && clock == old(clock) && trace == old(trace) + [Event(clock, scope, Op.Reset(key))]
      ensures rows == Delete(old(rows), KeyOf(scope, key))
    {
      DeleteWhere(KeyOf(scope, key), Event(clock, scope, Op.Reset(key)));
    }

    method Prune(scope: string, now: real)
      requires Valid() && clock <= now && scope in limitsOf
      modifies this
      ensures Valid() && clock == now && trace == old(trace) + [Event(now, scope, Op.Prune)]
      ensures rows == Delete(old(rows), StaleOf(scope, Cutoff(limitsOf[scope], now)))
    {
      DeleteWhere(StaleOf(scope, Cutoff(limitsOf[scope], now)), Event(now, scope, Op.Prune));
    }

    method Clear(scope: string)
      requires Valid() && scope in limitsOf
      modifies this
      ensures Valid() && clock == old(clock) && trace == old(trace) + [Event(clock, scope, Op.Clear)]
      ensures rows == Delete(old(rows), AllOf(scope))
    {
      DeleteWhere(AllOf(scope), Event(clock, scope, Op.Clear));
    }
  }
}
