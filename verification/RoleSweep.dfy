/** The two loops of `update_role` on a role's permission list: append what is asked for and missing,
    then remove what is not asked for while iterating over the list being changed. */
module RoleSweep {
  /** What the removal loop leaves: after each removal the next entry is stepped over unseen. */
  function Sweep(list: seq<string>, wanted: set<string>): seq<string> {
    if list == [] then []
    else if list[0] in wanted then [list[0]] + Sweep(list[1..], wanted)
    else if |list| == 1 then []
    else [list[1]] + Sweep(list[2..], wanted)
  }

  predicate NoRepeats(list: seq<string>) {
    forall i, j :: 0 <= i < j < |list| ==> list[i] != list[j]
  }

  /** `list.remove(x)`: drops the first occurrence. */
  function Remove(list: seq<string>, x: string): seq<string> {
    if list == [] then [] else if list[0] == x then list[1..] else [list[0]] + Remove(list[1..], x)
  }

  lemma {:induction false} RemoveAfter(done: seq<string>, todo: seq<string>)
    requires todo != [] && todo[0] !in done
    ensures Remove(done + todo, todo[0]) == done + todo[1..]
  {
    if done == [] {
      assert done + todo == todo && done + todo[1..] == todo[1..];
    } else {
      RemoveAfter(done[1..], todo);
      assert (done + todo)[1..] == done[1..] + todo;
      assert [done[0]] + (done[1..] + todo[1..]) == done + todo[1..];
    }
  }

  /** The loop as Python runs it: an index walks a list that shrinks under it. `done` is what the index
      has passed and `todo` what is still ahead of it. */
  method RemoveUnwanted(list: seq<string>, wanted: set<string>) returns (swept: seq<string>)
    requires NoRepeats(list)
    ensures swept == Sweep(list, wanted)
  {
    hide NoRepeats, Remove, Sweep;
    swept := list;
    var i := 0;
    ghost var done, todo := [], list;
    assert done + todo == list && done + Sweep(todo, wanted) == Sweep(list, wanted);
    while i < |swept|
      invariant swept == done + todo && NoRepeats(swept)
      invariant i == |done| || (todo == [] && i == |done| + 1)
      invariant done + Sweep(todo, wanted) == Sweep(list, wanted)
      decreases |swept| - i
    {
      var x := swept[i];
      i := i + 1;
      assert todo == [x] + todo[1..];
      if x !in wanted {
        NotPassed(done, todo);
        RemoveAfter(done, todo);
        swept := Remove(swept, x);
        SkipNext(done, todo, wanted);
        if |todo| > 1 {
          done, todo := done + [todo[1]], todo[2..];
        } else {
          todo := [];
        }
      } else {
        KeepNext(done, todo, wanted);
        done, todo := done + [x], todo[1..];
      }
    }
    EmptySweep(wanted);
  }

  lemma NotPassed(done: seq<string>, todo: seq<string>)
    requires NoRepeats(done + todo) && todo != []
    ensures todo[0] !in done && NoRepeats(done + todo[1..])
  {
    var all, less := done + todo, done + todo[1..];
    assert forall k :: 0 <= k < |done| ==> all[k] == done[k];
    assert all[|done|] == todo[0];
    assert forall k :: 0 <= k < |less| ==> less[k] == all[if k < |done| then k else k + 1];
  }

  lemma SkipNext(done: seq<string>, todo: seq<string>, wanted: set<string>)
    requires todo != [] && todo[0] !in wanted
    ensures |todo| == 1 ==> Sweep(todo, wanted) == [] && done + todo[1..] == done && Sweep([], wanted) == []
    ensures |todo| > 1 ==> done + todo[1..] == done + [todo[1]] + todo[2..]
    ensures |todo| > 1 ==> done + Sweep(todo, wanted) == done + [todo[1]] + Sweep(todo[2..], wanted)
  {
  }

  lemma KeepNext(done: seq<string>, todo: seq<string>, wanted: set<string>)
    requires todo != [] && todo[0] in wanted
    ensures done + todo == done + [todo[0]] + todo[1..]
    ensures done + Sweep(todo, wanted) == done + [todo[0]] + Sweep(todo[1..], wanted)
  {
  }

  lemma EmptySweep(wanted: set<string>)
    ensures Sweep([], wanted) == []
  {
  }

  /** Appending in order what is wanted and not yet there. */
  function WithMissing(list: seq<string>, wanted: seq<string>): seq<string> {
    if wanted == [] then list
    else
      var so := WithMissing(list, wanted[..|wanted| - 1]);
      if wanted[|wanted| - 1] in so then so else so + [wanted[|wanted| - 1]]
  }

  lemma {:induction false} WithMissingHolds(list: seq<string>, wanted: seq<string>)
    requires NoRepeats(list)
    ensures NoRepeats(WithMissing(list, wanted))
    ensures forall p :: p in WithMissing(list, wanted) <==> p in list || p in wanted
    ensures list <= WithMissing(list, wanted)
  {
    if wanted != [] {
      WithMissingHolds(list, wanted[..|wanted| - 1]);
    }
  }

  method AppendMissing(list: seq<string>, wanted: seq<string>) returns (longer: seq<string>)
    ensures longer == WithMissing(list, wanted)
  {
    longer := list;
    for n := 0 to |wanted|
      invariant longer == WithMissing(list, wanted[..n])
    {
      assert wanted[..n + 1][..n] == wanted[..n];
      if wanted[n] !in longer {
        longer := longer + [wanted[n]];
      }
    }
    assert wanted[..|wanted|] == wanted;
  }

  // ---- What is left ----

  /** How many unwanted entries stand directly before position `i`. */
  function RunBefore(list: seq<string>, wanted: set<string>, i: nat): nat
    requires i <= |list|
  {
    if i == 0 || list[i - 1] in wanted then 0 else RunBefore(list, wanted, i - 1) + 1
  }

  /** The entries that survive: the wanted ones, and every second one of a run of unwanted ones. */
  predicate Survives(list: seq<string>, wanted: set<string>, i: nat)
    requires i < |list|
  {
    list[i] in wanted || RunBefore(list, wanted, i) % 2 == 1
  }

  function Survivors(list: seq<string>, wanted: set<string>, from: nat): seq<string>
    requires from <= |list|
    decreases |list| - from
  {
    if from == |list| then []
    else (if Survives(list, wanted, from) then [list[from]] else []) + Survivors(list, wanted, from + 1)
  }

  lemma {:induction false} SweepFrom(list: seq<string>, wanted: set<string>, i: nat)
    requires i <= |list| && (i == |list| || list[i] in wanted || RunBefore(list, wanted, i) % 2 == 0)
    ensures Sweep(list[i..], wanted) == Survivors(list, wanted, i)
    decreases |list| - i
  {
    if i < |list| {
      if list[i] in wanted {
        SweepFrom(list, wanted, i + 1);
        assert list[i..][1..] == list[i + 1..];
      } else if i + 1 < |list| {
        assert RunBefore(list, wanted, i + 1) == RunBefore(list, wanted, i) + 1;
        assert Survives(list, wanted, i + 1);
        SweepFrom(list, wanted, i + 2);
        assert list[i..][2..] == list[i + 2..];
        assert list[i..][1] == list[i + 1];
        assert Survivors(list, wanted, i) == Survivors(list, wanted, i + 1);
      }
    }
  }

  /** For every order of the list: exactly the wanted entries and the second, fourth, ... of each run
      of unwanted ones are left, in their order. */
  lemma SweepLeavesSurvivors(list: seq<string>, wanted: set<string>)
    ensures Sweep(list, wanted) == Survivors(list, wanted, 0)
  {
    SweepFrom(list, wanted, 0);
    assert list[0..] == list;
  }

  /** A run of `n` unwanted entries keeps `n / 2` of them, and hides nothing of what follows. */
  lemma {:induction false} RunKeepsHalf(run: seq<string>, rest: seq<string>, wanted: set<string>)
    requires forall p :: p in run ==> p !in wanted
    requires rest == [] || rest[0] in wanted
    ensures |Sweep(run, wanted)| == |run| / 2
    ensures Sweep(run + rest, wanted) == Sweep(run, wanted) + Sweep(rest, wanted)
  {
    if |run| == 0 {
      assert run + rest == rest;
    } else if |run| == 1 {
      assert Sweep(run, wanted) == [];
      if rest != [] {
        assert (run + rest)[2..] == rest[1..] && (run + rest)[1] == rest[0];
      } else {
        assert run + rest == run;
      }
    } else {
      assert (run + rest)[2..] == run[2..] + rest && (run + rest)[1] == run[1];
      RunKeepsHalf(run[2..], rest, wanted);
    }
  }

  predicate AdjacentUnwanted(list: seq<string>, wanted: set<string>) {
    exists i :: 0 < i < |list| && list[i - 1] !in wanted && list[i] !in wanted
  }

  ghost predicate SurvivesFrom(list: seq<string>, wanted: set<string>, from: nat, p: string) {
    exists i :: from <= i < |list| && Survives(list, wanted, i) && list[i] == p
  }

  lemma {:induction false} SurvivorsMembers(list: seq<string>, wanted: set<string>, from: nat, p: string)
    requires from <= |list|
    ensures p in Survivors(list, wanted, from) <==> SurvivesFrom(list, wanted, from, p)
    decreases |list| - from
  {
    if from < |list| {
      SurvivorsMembers(list, wanted, from + 1, p);
      assert SurvivesFrom(list, wanted, from, p) <==>
        SurvivesFrom(list, wanted, from + 1, p) || (Survives(list, wanted, from) && list[from] == p);
      hide SurvivesFrom, Survives;
    }
  }

  lemma SweepMembers(list: seq<string>, wanted: set<string>, p: string)
    ensures p in Sweep(list, wanted) <==> exists i :: 0 <= i < |list| && Survives(list, wanted, i) && list[i] == p
  {
    SweepLeavesSurvivors(list, wanted);
    SurvivorsMembers(list, wanted, 0, p);
  }

  lemma {:induction false} FirstAdjacent(list: seq<string>, wanted: set<string>, i: nat) returns (k: nat)
    requires 0 < i < |list| && list[i - 1] !in wanted && list[i] !in wanted
    ensures 0 < k < |list| && list[k] !in wanted && RunBefore(list, wanted, k) == 1
  {
    if RunBefore(list, wanted, i) == 1 {
      k := i;
    } else {
      assert RunBefore(list, wanted, i) == RunBefore(list, wanted, i - 1) + 1;
      assert i - 1 > 0 && list[i - 2] !in wanted;
      k := FirstAdjacent(list, wanted, i - 1);
    }
  }

  function Members(list: seq<string>): set<string> {
    set p | p in list
  }

  lemma SweepKeepsWanted(list: seq<string>, wanted: set<string>)
    ensures Members(list) * wanted <= Members(Sweep(list, wanted)) <= Members(list)
  {
    forall p | p in list && p in wanted ensures p in Sweep(list, wanted) {
      SweepMembers(list, wanted, p);
      var i :| 0 <= i < |list| && list[i] == p;
      assert Survives(list, wanted, i);
    }
    forall p | p in Sweep(list, wanted) ensures p in list {
      SweepMembers(list, wanted, p);
    }
  }

  lemma SweepExactIff(list: seq<string>, wanted: set<string>)
    ensures Members(Sweep(list, wanted)) <= wanted <==> !AdjacentUnwanted(list, wanted)
  {
    hide Sweep;
    if i :| 0 < i < |list| && list[i - 1] !in wanted && list[i] !in wanted {
      var k := FirstAdjacent(list, wanted, i);
      assert Survives(list, wanted, k);
      SweepMembers(list, wanted, list[k]);
      assert list[k] in Members(Sweep(list, wanted));
    } else {
      forall p | p in Sweep(list, wanted) ensures p in wanted {
        SweepMembers(list, wanted, p);
        var i :| 0 <= i < |list| && Survives(list, wanted, i) && list[i] == p;
      }
    }
  }

  /** The permissions a role has after `update_role`. */
  function Updated(held: seq<string>, wanted: seq<string>): set<string> {
    Members(Sweep(WithMissing(held, wanted), Members(wanted)))
  }

  lemma {:induction false} TailIsWanted(held: seq<string>, wanted: seq<string>)
    ensures held <= WithMissing(held, wanted)
    ensures forall i :: |held| <= i < |WithMissing(held, wanted)| ==> WithMissing(held, wanted)[i] in wanted
  {
    if wanted != [] {
      TailIsWanted(held, wanted[..|wanted| - 1]);
      assert forall p :: p in wanted[..|wanted| - 1] ==> p in wanted;
    }
  }

  lemma SameAdjacent(held: seq<string>, wanted: seq<string>)
    ensures AdjacentUnwanted(WithMissing(held, wanted), Members(wanted)) <==> AdjacentUnwanted(held, Members(wanted))
  {
    TailIsWanted(held, wanted);
    var longer, want := WithMissing(held, wanted), Members(wanted);
    if i :| 0 < i < |longer| && longer[i - 1] !in want && longer[i] !in want {
      assert held[i - 1] !in want && held[i] !in want;
    }
    if i :| 0 < i < |held| && held[i - 1] !in want && held[i] !in want {
      assert longer[i - 1] !in want && longer[i] !in want;
    }
  }

  /** Whatever order the permissions were loaded in: all requested are there, none that was neither
      held nor requested, and nothing else exactly when no two unrequested ones stood side by side. */
  lemma UpdateExactIff(held: seq<string>, wanted: seq<string>)
    requires NoRepeats(held)
    ensures Members(wanted) <= Updated(held, wanted) <= Members(wanted) + Members(held)
    ensures Updated(held, wanted) == Members(wanted) <==> !AdjacentUnwanted(held, Members(wanted))
  {
    var longer := WithMissing(held, wanted);
    WithMissingHolds(held, wanted);
    SweepKeepsWanted(longer, Members(wanted));
    SweepExactIff(longer, Members(wanted));
    SameAdjacent(held, wanted);
  }

  /** Three unrequested permissions side by side: one of them stays. */
  lemma OneOfThreeStays()
    ensures Sweep(["a", "b", "c"], {}) == ["b"]
  {
    assert ["a", "b", "c"][2..] == ["c"];
  }
}
