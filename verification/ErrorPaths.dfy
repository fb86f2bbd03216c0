/** The path of an error: steps pushed while it passes outwards, turned round once, and steps pushed after that. */
module ErrorPaths {
  import opened BuildSpec
  import opened Collect

  /** Steps are leaf first until the error is finalized, root first from then on. */
  datatype Trail = Trail(steps: seq<PathStep>, truncated: bool, finalized: bool)

  function Stepped(t: Trail, s: PathStep): Trail {
    var full := |t.steps| >= MAX_STEPS;
    if t.finalized then Trail([s] + if full then t.steps[1..] else t.steps, t.truncated || full, true)
    else if full then t.(truncated := true)
    else t.(steps := t.steps + [s])
  }

  function SteppedAll(t: Trail, s: seq<PathStep>): Trail
    decreases |s|
  {
    if s == [] then t else SteppedAll(Stepped(t, s[0]), s[1..])
  }

  function TurnedRound(t: Trail): Trail {
    if t.finalized then t else Trail(Reversed(t.steps), t.truncated, true)
  }

  class PathError {
    var steps: seq<PathStep>
    var truncated: bool
    var finalized: bool

    constructor ()
      ensures State() == Trail([], false, false)
    {
      steps, truncated, finalized := [], false, false;
    }

    ghost function State(): Trail
      reads this
    {
      Trail(steps, truncated, finalized)
    }

    /** push. */
    method Push(s: PathStep)
      modifies this
      ensures State() == Stepped(old(State()), s)
    {
      if finalized {
        if |steps| >= MAX_STEPS {
          truncated := true;
          steps := steps[1..];
        }
        steps := [s] + steps;
        return;
      }
      if |steps| >= MAX_STEPS {
        truncated := true;
        return;
      }
      steps := steps + [s];
    }

    /** finalize. */
    method Finalize()
      modifies this
      ensures State() == TurnedRound(old(State()))
    {
      if finalized {
        return;
      }
      var turned: seq<PathStep> := [];
      ReversedSnoc(steps, 0);
      for i := 0 to |steps|
        invariant State() == old(State())
        invariant turned == Reversed(steps[..i])
      {
        ReversedSnoc(steps, i);
        turned := [steps[i]] + turned;
      }
      assert steps[..|steps|] == steps;
      steps, finalized := turned, true;
    }
  }

  lemma ReversedSnoc(s: seq<PathStep>, i: nat)
    requires i <= |s|
    ensures i < |s| ==> Reversed(s[..i + 1]) == [s[i]] + Reversed(s[..i])
    ensures Reversed(s[..0]) == []
  {
    if i < |s| {
      assert s[..i + 1] == s[..i] + [s[i]];
      ReversedConcat(s[..i], [s[i]]);
      assert Reversed([s[i]]) == [s[i]];
    }
  }

  lemma {:induction false} ReversedConcat(a: seq<PathStep>, b: seq<PathStep>)
    ensures Reversed(a + b) == Reversed(b) + Reversed(a)
    decreases |a|
  {
    if a == [] {
      assert a + b == b;
    } else {
      assert (a + b)[1..] == a[1..] + b;
      ReversedConcat(a[1..], b);
    }
  }

  /** Steps pushed on a full path after it was turned round: each takes the place of the one before it. */
  lemma {:induction false} LateOnFull(steps: seq<PathStep>, truncated: bool, late: seq<PathStep>)
    requires |steps| == MAX_STEPS
    ensures SteppedAll(Trail(steps, truncated, true), late)
         == if late == [] then Trail(steps, truncated, true) else Trail([late[|late| - 1]] + steps[1..], true, true)
    decreases |late|
  {
    if late != [] {
      var next := [late[0]] + steps[1..];
      assert next[1..] == steps[1..];
      LateOnFull(next, true, late[1..]);
    }
  }

  /** Steps pushed after the path was turned round, while there is room for them. */
  lemma {:induction false} LateWithRoom(steps: seq<PathStep>, truncated: bool, late: seq<PathStep>)
    requires |steps| + |late| <= MAX_STEPS
    ensures SteppedAll(Trail(steps, truncated, true), late) == Trail(Reversed(late) + steps, truncated, true)
    decreases |late|
  {
    if late != [] {
      LateWithRoom([late[0]] + steps, truncated, late[1..]);
      assert Reversed(late[1..]) + ([late[0]] + steps) == Reversed(late) + steps;
    } else {
      assert Reversed(late) + steps == steps;
    }
  }

  lemma {:induction false} SteppedConcat(t: Trail, a: seq<PathStep>, b: seq<PathStep>)
    ensures SteppedAll(t, a + b) == SteppedAll(SteppedAll(t, a), b)
    decreases |a|
  {
    if a == [] {
      assert a + b == b;
    } else {
      assert (a + b)[1..] == a[1..] + b;
      SteppedConcat(Stepped(t, a[0]), a[1..], b);
    }
  }

  /** Late steps on the path of `kept` ones. */
  lemma LateSteps(kept: seq<PathStep>, truncated: bool, late: seq<PathStep>)
    requires |kept| <= MAX_STEPS
    ensures var all := kept + late;
            SteppedAll(Trail(Reversed(kept), truncated, true), late)
            == if |all| <= MAX_STEPS then Trail(Reversed(all), truncated, true)
               else Trail([late[|late| - 1]] + Reversed(all[..MAX_STEPS - 1]), true, true)
  {
    hide SteppedAll, Reversed;
    var all := kept + late;
    if |all| <= MAX_STEPS {
      LateWithRoom(Reversed(kept), truncated, late);
      ReversedConcat(kept, late);
    } else {
      var room := MAX_STEPS - |kept|;
      var a, b := late[..room], late[room..];
      assert late == a + b;
      SteppedConcat(Trail(Reversed(kept), truncated, true), a, b);
      LateWithRoom(Reversed(kept), truncated, a);
      ReversedConcat(kept, a);
      assert kept + a == all[..MAX_STEPS];
      LateOnFull(Reversed(kept + a), truncated, b);
      ReversedSnoc(all, MAX_STEPS - 1);
      assert ([all[MAX_STEPS - 1]] + Reversed(all[..MAX_STEPS - 1]))[1..] == Reversed(all[..MAX_STEPS - 1]);
    }
  }

  /** Passing an error on is stepping its trail. */
  lemma {:induction false} PushedIsStepped(e: Failure, steps: seq<PathStep>)
    ensures var t := SteppedAll(Trail(e.path, e.truncated, false), steps);
            PushedOut(e, steps) == e.(path := t.steps, truncated := t.truncated) && !t.finalized
            && Finalized(PushedOut(e, steps)).path == TurnedRound(t).steps
    decreases |steps|
  {
    hide Reversed;
    if steps != [] {
      PushedIsStepped(Push(e, steps[0]), steps[1..]);
    }
  }

  /** The path of an error with `early` steps on the way out and `late` ones after it was turned round: root first, all
      of them if they fit; otherwise the innermost ones it had room for, with the last step pushed in the place of
      the outermost if one came late; and it is marked exactly when a step is missing. */
  lemma PathOf(early: seq<PathStep>, late: seq<PathStep>)
    ensures var kept := if |early| <= MAX_STEPS then early else early[..MAX_STEPS];
            var all := kept + late;
            var path := SteppedAll(TurnedRound(SteppedAll(Trail([], false, false), early)), late);
            && path.finalized
            && path.steps == (if |all| <= MAX_STEPS then Reversed(all)
                              else [late[|late| - 1]] + Reversed(all[..MAX_STEPS - 1]))
            && (path.truncated <==> |early + late| > MAX_STEPS)
  {
    hide SteppedAll, Reversed, PushedOut;
    var e := Failure(MissingField, 0, [], false);
    PathBound(e, early);
    PushedIsStepped(e, early);
    assert [] + early == early;
    LateSteps(if |early| <= MAX_STEPS then early else early[..MAX_STEPS], |early| > MAX_STEPS, late);
  }

  /** A late step does what pushing it in time would have done, exactly while the path has room or when it is the
      outermost step over again. */
  lemma LateIsEarly(t: Trail, s: PathStep)
    requires !t.finalized && |t.steps| <= MAX_STEPS
    ensures Stepped(TurnedRound(t), s) == TurnedRound(Stepped(t, s))
       <==> |t.steps| < MAX_STEPS || t.steps[MAX_STEPS - 1] == s
  {
    if |t.steps| < MAX_STEPS {
      ReversedConcat(t.steps, [s]);
      assert Reversed([s]) == [s];
    } else {
      ReversedSnoc(t.steps, MAX_STEPS - 1);
      assert t.steps[..MAX_STEPS] == t.steps;
    }
  }

  /** A full path of sixteen equal steps and a different late one: the outermost step is replaced, where in time the new
      one would have been dropped. */
  lemma LateReplaces()
    ensures var t, s := Trail(seq(MAX_STEPS, i => Index(0)), false, false), Index(1);
            && TurnedRound(t).steps != [] && TurnedRound(t).steps[0] != s
            && Stepped(TurnedRound(t), s).steps[0] == s && TurnedRound(Stepped(t, s)).steps[0] != s
            && Stepped(TurnedRound(t), s) != TurnedRound(Stepped(t, s))
  {
    var t := Trail(seq(MAX_STEPS, i => Index(0)), false, false);
    LateIsEarly(t, Index(1));
    ReversedSnoc(t.steps, MAX_STEPS - 1);
    assert t.steps[..MAX_STEPS] == t.steps;
  }
}
