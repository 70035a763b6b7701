/**
 What the delivery protocol gets done: no entry is skipped, idle consumers go, and every pass of a node comes to its end,
 whatever the other nodes do and whichever of its calls fail.
 */
module DeliveryProgress {
  import opened GroupServer
  import opened Delivery
  import opened DeliveryInvariant
  import opened DeliveryTheorems

  // ------------------------------------------------------------------------------------------
  // Nothing is skipped
  // ------------------------------------------------------------------------------------------

  /** Whatever the group has moved past was delivered, or trimmed away. */
  ghost predicate NoneSkipped(s: Sys) {
    forall id :: 0 <= id < s.server.cursor ==> id in s.ledger || id < s.server.trimmed
  }

  lemma ReadSkipsNothing(s: Sys, c: Consumer, count: nat)
    requires Inv(s) && NoneSkipped(s) && c in s.nodes
    ensures NoneSkipped(DoRead(s, c, count))
  {
  }

  /** Only a read delivers anything or moves the group on. */
  ghost predicate SamePlace(s: Sys, t: Sys) {
    t.ledger.Keys == s.ledger.Keys && t.server.cursor == s.server.cursor && t.server.trimmed == s.server.trimmed
  }

  lemma LettingGoKeepsPlace(s: Sys, c: Consumer)
    requires c in s.nodes && s.nodes[c].phase.Holding?
    ensures SamePlace(s, DoAck(s, c)) && SamePlace(s, DoAckFails(s, c)) && SamePlace(s, DoCrash(s, c))
  {
  }

  lemma DeleteKeepsPlace(s: Sys, name: Consumer, remover: Remover)
    ensures SamePlace(s, DoDelete(s, name, remover))
  {
  }

  lemma ClaimKeepsPlace(s: Sys, c: Consumer)
    requires c in s.nodes && s.nodes[c].phase.Inspecting?
    ensures SamePlace(s, DoClaim(s, c))
  {
  }

  lemma ReapKeepsPlace(s: Sys, c: Consumer, name: Consumer)
    requires c in s.nodes && s.nodes[c].phase.Reaping?
    ensures SamePlace(s, DoReap(s, c, name))
  {
    var Reaping(at, rows) := s.nodes[c].phase;
    DeleteKeepsPlace(SetPhase(s, c, Reaping(at, rows - {name})), name, Reaper(at));
  }

  lemma ActKeepsPlace(s: Sys, c: Consumer, action: Action)
    requires s.server.Valid() && c in s.nodes && !action.Read?
    ensures SamePlace(s, DoAct(s, c, action))
  {
    var phase := s.nodes[c].phase;
    if phase.Holding? {
      LettingGoKeepsPlace(s, c);
    } else if phase.Inspecting? {
      ClaimKeepsPlace(s, c);
    } else if phase.Reaping? && action.ReapNext? {
      ReapKeepsPlace(s, c, action.name);
    } else if action.Depart? {
      DeleteKeepsPlace(s, c, Departure);
    }
  }

  lemma StepSkipsNothing(s: Sys, step: Step)
    requires Inv(s) && NoneSkipped(s)
    ensures NoneSkipped(Do(s, step))
  {
    if step.Act? && step.c in s.nodes {
      if step.action.Read? {
        ReadSkipsNothing(s, step.c, step.action.count);
      } else {
        ActKeepsPlace(s, step.c, step.action);
      }
    }
  }

  lemma {:induction false} RunSkipsNothing(s: Sys, run: seq<Step>)
    requires Inv(s) && NoneSkipped(s)
    ensures NoneSkipped(Exec(s, run))
    decreases |run|
  {
    if run != [] {
      StepKeepsInv(s, run[0]);
      StepSkipsNothing(s, run[0]);
      RunSkipsNothing(Do(s, run[0]), run[1..]);
    }
  }

  /** In every run, an entry has been delivered only if the group has moved past it, and the group moves past no other but a trimmed one. */
  lemma NothingIsSkipped(run: seq<Step>, id: nat)
    ensures var s := Reached(run);
            && (id in s.ledger ==> id < s.server.cursor)
            && (id < s.server.cursor ==> id in s.ledger || id < s.server.trimmed)
  {
    RunSkipsNothing(INITIAL, run);
    if id in Reached(run).ledger {
      assert AccountOk(Reached(run), id);
    }
  }

  // ------------------------------------------------------------------------------------------
  // Every pass ends
  // ------------------------------------------------------------------------------------------

  /** How many calls of its own a node is from the end of its pass. */
  function CallsLeft(phase: Phase): nat {
    match phase
    case Holding(_, _) => 1
    case Inspecting(rows, next, _) => if next <= |rows| then |rows| - next + 1 else 1
    case Reaping(_, unseen) => |unseen| + 1
    case _ => 0
  }

  /** The calls that are next in a phase, succeeding or failing. */
  predicate Fits(phase: Phase, action: Action) {
    match phase
    case Holding(_, _) => action.AckSweep? || action.AckFails?
    case Inspecting(rows, next, _) => if next < |rows| then action.Inspect? || action.InspectFails? else action.ClaimNow? || action.ClaimFails?
    case Reaping(_, unseen) => if unseen == map[] then action.ReapNext? else (action.ReapNext? || action.ReapFails?) && action.name in unseen
    case _ => false
  }

  lemma SomethingFits(phase: Phase)
    ensures CallsLeft(phase) > 0 <==> exists action :: Fits(phase, action)
  {
    match phase
    case Holding(_, _) => assert Fits(phase, AckSweep);
    case Inspecting(rows, next, _) =>
      assert Fits(phase, if next < |rows| then Inspect else ClaimNow);
    case Reaping(_, unseen) =>
      if unseen == map[] {
        assert Fits(phase, ReapNext(""));
      } else {
        var name :| name in unseen;
        assert Fits(phase, ReapNext(name));
      }
    case _ =>
  }

  lemma OneRowLess(unseen: map<Consumer, ConsumerRow>, name: Consumer)
    requires name in unseen
    ensures |unseen - {name}| == |unseen| - 1
  {
    assert (unseen - {name}).Keys == unseen.Keys - {name};
  }

  /** A call that fits brings the node one call nearer to the end, and at the end it is ready again. */
  lemma OneCallLess(s: Sys, c: Consumer, action: Action)
    requires Inv(s) && c in s.nodes && Fits(s.nodes[c].phase, action)
    ensures var t := DoAct(s, c, action);
            c in t.nodes && !t.nodes[c].phase.Down? && CallsLeft(t.nodes[c].phase) == CallsLeft(s.nodes[c].phase) - 1
  {
    match s.nodes[c].phase
    case Holding(_, _) =>
    case Inspecting(_, _, _) => OneInspectionLess(s, c, action);
    case Reaping(_, _) => OneRemovalLess(s, c, action);
  }

  lemma OneInspectionLess(s: Sys, c: Consumer, action: Action)
    requires Inv(s) && c in s.nodes && s.nodes[c].phase.Inspecting? && Fits(s.nodes[c].phase, action)
    ensures var t := DoAct(s, c, action);
            c in t.nodes && !t.nodes[c].phase.Down? && CallsLeft(t.nodes[c].phase) == CallsLeft(s.nodes[c].phase) - 1
  {
    assert NodeOk(s, c);
    if s.nodes[c].phase.next < |s.nodes[c].phase.rows| {
      assert DoAct(s, c, action) == DoInspect(s, c, action.Inspect?);
    } else if action.ClaimNow? {
      assert DoAct(s, c, action) == DoClaim(s, c);
    }
  }

  lemma OneRemovalLess(s: Sys, c: Consumer, action: Action)
    requires s.server.Valid() && c in s.nodes && s.nodes[c].phase.Reaping? && Fits(s.nodes[c].phase, action)
    ensures var t := DoAct(s, c, action);
            c in t.nodes && !t.nodes[c].phase.Down? && CallsLeft(t.nodes[c].phase) == CallsLeft(s.nodes[c].phase) - 1
  {
    var unseen := s.nodes[c].phase.unseen;
    if unseen != map[] {
      OneRowLess(unseen, action.name);
    }
  }

  /** Nothing another node or the environment does moves a node that is up. */
  lemma OthersLeaveItAlone(s: Sys, step: Step, c: Consumer)
    requires s.server.Valid() && c in s.nodes && !s.nodes[c].phase.Down? && !(step.Act? && step.c == c)
    ensures c in Do(s, step).nodes && Do(s, step).nodes[c] == s.nodes[c]
  {
    if step.Act? && step.c in s.nodes { ActMovesItsOwnNode(s, step.c, step.action, c); }
  }

  lemma ActMovesItsOwnNode(s: Sys, mover: Consumer, action: Action, c: Consumer)
    requires s.server.Valid() && mover in s.nodes && c in s.nodes && mover != c
    ensures c in DoAct(s, mover, action).nodes && DoAct(s, mover, action).nodes[c] == s.nodes[c]
  {
  }

  /** How many steps of a run are the node's own. */
  function OwnSteps(run: seq<Step>, c: Consumer): nat {
    if run == [] then 0 else (if run[0].Act? && run[0].c == c then 1 else 0) + OwnSteps(run[1..], c)
  }

  /** Each step of the node's own is the next call of its pass. */
  ghost predicate Follows(s: Sys, run: seq<Step>, c: Consumer)
    requires Inv(s)
    decreases |run|
  {
    run != [] ==>
      && (run[0].Act? && run[0].c == c ==> c in s.nodes && Fits(s.nodes[c].phase, run[0].action))
      && (StepKeepsInv(s, run[0]); Follows(Do(s, run[0]), run[1..], c))
  }

  /**
   A node that has begun a pass is ready again after exactly as many calls as the pass had left, whatever other nodes and the
   environment do in between and whichever of the calls fail; until then it is still in it.
   */
  lemma {:induction false} EveryPassEnds(s: Sys, run: seq<Step>, c: Consumer)
    requires Inv(s) && c in s.nodes && !s.nodes[c].phase.Down? && Follows(s, run, c)
    ensures var t := Exec(s, run);
            && c in t.nodes && CallsLeft(t.nodes[c].phase) == CallsLeft(s.nodes[c].phase) - OwnSteps(run, c)
            && (t.nodes[c].phase.Ready? <==> OwnSteps(run, c) == CallsLeft(s.nodes[c].phase))
            && !t.nodes[c].phase.Down?
    decreases |run|
  {
    if run != [] {
      FirstStep(s, run[0], c);
      EveryPassEnds(Do(s, run[0]), run[1..], c);
    }
  }

  lemma FirstStep(s: Sys, step: Step, c: Consumer)
    requires Inv(s) && c in s.nodes && !s.nodes[c].phase.Down?
    requires step.Act? && step.c == c ==> Fits(s.nodes[c].phase, step.action)
    ensures Inv(Do(s, step)) && c in Do(s, step).nodes && !Do(s, step).nodes[c].phase.Down?
    ensures CallsLeft(Do(s, step).nodes[c].phase) == CallsLeft(s.nodes[c].phase) - if step.Act? && step.c == c then 1 else 0
  {
    StepKeepsInv(s, step);
    if step.Act? && step.c == c {
      OneCallLess(s, c, step.action);
    } else {
      OthersLeaveItAlone(s, step, c);
    }
  }

  /** No node's step adds an entry, trims one or moves the clock. */
  lemma NodesOnlyManage(s: Sys, c: Consumer, action: Action)
    requires s.server.Valid() && c in s.nodes
    ensures var t := DoAct(s, c, action);
            t.server.log == s.server.log && t.server.trimmed == s.server.trimmed && t.server.now == s.server.now
  {
  }

  // ------------------------------------------------------------------------------------------
  // A whole reap
  // ------------------------------------------------------------------------------------------

  function ReapNexts(c: Consumer, names: seq<Consumer>): seq<Step> {
    if names == [] then [] else ReapNexts(c, names[..|names| - 1]) + [Act(c, ReapNext(names[|names| - 1]))]
  }

  /** Another consumer that holds nothing and has neither read nor claimed for an hour. */
  ghost predicate IsIdleAndEmpty(s: Server, c: Consumer, name: Consumer) {
    && name in s.seen && name != c
    && (forall id :: id in s.pel ==> s.pel[id].owner != name)
    && s.now - s.seen[name] >= 3_600_000
  }

  /** The reaper has looked at these names and nobody else has moved. */
  ghost predicate ReapedSoFar(s: Sys, t: Sys, c: Consumer, names: set<Consumer>)
    requires s.server.Valid()
  {
    && c in t.nodes && t.deleted == s.deleted && t.ledger == s.ledger
    && t.server == s.server.(seen := t.server.seen)
    && (forall n :: n in t.server.seen <==> n in s.server.seen && !(n in names && IsIdleAndEmpty(s.server, c, n)))
    && (forall n :: n in t.server.seen ==> t.server.seen[n] == s.server.seen[n])
    && match t.nodes[c].phase
       case Ready => s.server.seen.Keys <= names
       case Reaping(_, unseen) => unseen == s.server.Consumers() - names
       case _ => false
  }

  lemma ReapedOneMore(s: Sys, t: Sys, c: Consumer, names: set<Consumer>, name: Consumer)
    requires s.server.Valid() && t.server.Valid() && ReapedSoFar(s, t, c, names)
    ensures ReapedSoFar(s, Do(t, Act(c, ReapNext(name))), c, names + {name})
  {
    var rows := s.server.Consumers();
    if t.nodes[c].phase.Reaping? {
      assert Do(t, Act(c, ReapNext(name))) == DoReap(t, c, name);
      if name in rows - names {
        ReapedThisOne(s, t, c, names, name);
      } else {
        ReapedNoOne(s, t, c, names, name);
      }
    }
  }

  lemma ReapedNoOne(s: Sys, t: Sys, c: Consumer, names: set<Consumer>, name: Consumer)
    requires s.server.Valid() && ReapedSoFar(s, t, c, names) && t.nodes[c].phase.Reaping?
    requires name !in s.server.Consumers() - names
    ensures ReapedSoFar(s, DoReap(t, c, name), c, names + {name})
  {
    var rows := s.server.Consumers();
    assert rows - names == rows - (names + {name});
    if rows - names == map[] {
      assert rows.Keys == s.server.seen.Keys;
      assert forall n :: n in s.server.seen && n !in names ==> n in rows - names;
    }
  }

  lemma ReapedThisOne(s: Sys, t: Sys, c: Consumer, names: set<Consumer>, name: Consumer)
    requires s.server.Valid() && t.server.Valid() && ReapedSoFar(s, t, c, names) && t.nodes[c].phase.Reaping?
    requires name in s.server.Consumers() - names
    ensures ReapedSoFar(s, DoReap(t, c, name), c, names + {name})
  {
    var rows := s.server.Consumers();
    assert rows - names - {name} == rows - (names + {name});
    HoldsNothing(s.server, name);
    assert Reapable(c, name, rows[name]) <==> IsIdleAndEmpty(s.server, c, name);
    if Reapable(c, name, rows[name]) { ReapsNobodysWork(t, c, name); }
  }

  lemma ReapsNobodysWork(t: Sys, c: Consumer, name: Consumer)
    requires |t.server.Held(name)| == 0
    ensures var u := DoDelete(t, name, Reaper(0));
            u.deleted == t.deleted && u.ledger == t.ledger && u.server == t.server.(seen := t.server.seen - {name})
  {
    assert t.server.Held(name) == {};
  }

  function Members(names: seq<Consumer>): set<Consumer> {
    set n | n in names
  }

  /** The state after the reaper has looked at these names, step by step. */
  function AfterReaps(scanned: Sys, c: Consumer, names: seq<Consumer>): (t: Sys)
    requires Inv(scanned)
    ensures Inv(t)
  {
    if names == [] then scanned
    else
      var before, next := AfterReaps(scanned, c, names[..|names| - 1]), Act(c, ReapNext(names[|names| - 1]));
      StepKeepsInv(before, next);
      Do(before, next)
  }

  lemma {:induction false} ReapsAreARun(scanned: Sys, c: Consumer, names: seq<Consumer>)
    requires Inv(scanned)
    ensures Exec(scanned, ReapNexts(c, names)) == AfterReaps(scanned, c, names)
  {
    if names != [] {
      var front := names[..|names| - 1];
      ReapsAreARun(scanned, c, front);
      OneMore(scanned, ReapNexts(c, front), Act(c, ReapNext(names[|names| - 1])));
    }
  }

  lemma MembersOneMore(names: seq<Consumer>)
    requires names != []
    ensures Members(names) == Members(names[..|names| - 1]) + {names[|names| - 1]}
  {
    assert names == names[..|names| - 1] + [names[|names| - 1]];
  }

  lemma {:induction false} ReapsSoFar(s: Sys, scanned: Sys, c: Consumer, names: seq<Consumer>)
    requires s.server.Valid() && Inv(scanned) && ReapedSoFar(s, scanned, c, {})
    ensures ReapedSoFar(s, AfterReaps(scanned, c, names), c, Members(names))
  {
    if names == [] {
      assert Members(names) == {};
    } else {
      var front := names[..|names| - 1];
      ReapsSoFar(s, scanned, c, front);
      ReapedOneMore(s, AfterReaps(scanned, c, front), c, Members(front), names[|names| - 1]);
      MembersOneMore(names);
    }
  }

  /**
   A reap nobody disturbs removes exactly the other consumers that hold nothing and have been idle for an hour, in whatever
   order it comes to them, and no pending entry.
   */
  lemma {:induction false} IdleConsumersAreReaped(run: seq<Step>, c: Consumer, names: seq<Consumer>)
    requires c in Reached(run).nodes && Reached(run).nodes[c].phase.Ready?
    requires forall n :: n in Reached(run).server.seen ==> n in names
    ensures var s := Reached(run);
            var t := Exec(s, [Act(c, ScanConsumers)] + ReapNexts(c, names));
            && (forall n :: n in t.server.seen <==> n in s.server.seen && !IsIdleAndEmpty(s.server, c, n))
            && t.server.pel == s.server.pel && t.deleted == s.deleted
  {
    var s, scan := Reached(run), Act(c, ScanConsumers);
    var scanned := Do(s, scan);
    StepKeepsInv(s, scan);
    assert scanned.nodes[c].phase.unseen == s.server.Consumers() - {};
    ReapsSoFar(s, scanned, c, names);
    ReapsAreARun(scanned, c, names);
    assert ([scan] + ReapNexts(c, names))[1..] == ReapNexts(c, names);
  }
}
