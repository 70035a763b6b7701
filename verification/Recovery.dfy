/** The two recovery loops of a worker: choosing what to claim, and deleting the consumers that are gone. */
module Recovery {
  import opened Wrappers
  import opened Routing
  import opened GroupServer
  import opened Delivery
  import opened DeliveryInvariant
  import opened DeliveryTheorems
  import opened Selection

  // ------------------------------------------------------------------------------------------
  // Reclaim
  // ------------------------------------------------------------------------------------------

  /** The ids admitted by the first rows, in row order; `replies[j]` is what XRANGE answered for row `j` when it was asked. */
  function Admitted(self: Consumer, exposure: ExposureSet, rows: seq<PendingRow>, replies: seq<Option<Entry>>): seq<nat>
    requires |rows| == |replies|
    decreases |rows|
  {
    if rows == [] then []
    else
      var n := |rows| - 1;
      Admitted(self, exposure, rows[..n], replies[..n]) + (if Admits(self, exposure, rows[n], replies[n]) then [rows[n].id] else [])
  }

  /** The inspection loop of `reclaim_exposed_pending_messages`, under any replies the server gives on the way. */
  method SelectClaimable(self: Consumer, exposure: ExposureSet, rows: seq<PendingRow>, replies: seq<Option<Entry>>)
    returns (claimable: seq<nat>, skippedUnexposed: nat)
    requires |rows| == |replies|
    ensures claimable == Admitted(self, exposure, rows, replies)
    ensures skippedUnexposed == |Unexposed(self, exposure, rows, replies, |rows|)|
    ensures forall id :: id in claimable <==> IsAdmitted(self, exposure, rows, replies, id)
  {
    claimable, skippedUnexposed := [], 0;
    assert Unexposed(self, exposure, rows, replies, 0) == {};
    var j := 0;
    while j < |rows|
      invariant 0 <= j <= |rows|
      invariant claimable == Admitted(self, exposure, rows[..j], replies[..j])
      invariant skippedUnexposed == |Unexposed(self, exposure, rows, replies, j)|
    {
      UnexposedStep(self, exposure, rows, replies, j);
      AdmittedStep(self, exposure, rows, replies, j);
      if rows[j].owner != self && replies[j].Some? {
        if exposure.Accepts(replies[j].value.hint) {
          claimable := claimable + [rows[j].id];
        } else {
          skippedUnexposed := skippedUnexposed + 1;
        }
      }
      j := j + 1;
    }
    assert rows[..j] == rows && replies[..j] == replies;
    forall id ensures id in claimable <==> IsAdmitted(self, exposure, rows, replies, id) {
      AdmittedId(self, exposure, rows, replies, id);
    }
  }

  /** The rows before `n` of other owners whose entry came back with a hint the exposure does not accept. */
  function Unexposed(self: Consumer, exposure: ExposureSet, rows: seq<PendingRow>, replies: seq<Option<Entry>>, n: nat): set<nat>
    requires |rows| == |replies|
  {
    set j | 0 <= j < n && j < |rows| && rows[j].owner != self && replies[j].Some? && !exposure.Accepts(replies[j].value.hint)
  }

  lemma UnexposedStep(self: Consumer, exposure: ExposureSet, rows: seq<PendingRow>, replies: seq<Option<Entry>>, j: nat)
    requires |rows| == |replies| && j < |rows|
    ensures |Unexposed(self, exposure, rows, replies, j + 1)| == |Unexposed(self, exposure, rows, replies, j)|
            + if rows[j].owner != self && replies[j].Some? && !exposure.Accepts(replies[j].value.hint) then 1 else 0
  {
    var before := Unexposed(self, exposure, rows, replies, j);
    if rows[j].owner != self && replies[j].Some? && !exposure.Accepts(replies[j].value.hint) {
      assert Unexposed(self, exposure, rows, replies, j + 1) == before + {j};
    } else {
      assert Unexposed(self, exposure, rows, replies, j + 1) == before;
    }
  }

  lemma {:induction false} AdmittedStep(self: Consumer, exposure: ExposureSet, rows: seq<PendingRow>, replies: seq<Option<Entry>>, j: nat)
    requires |rows| == |replies| && j < |rows|
    ensures Admitted(self, exposure, rows[..j + 1], replies[..j + 1]) ==
            Admitted(self, exposure, rows[..j], replies[..j]) + (if Admits(self, exposure, rows[j], replies[j]) then [rows[j].id] else [])
  {
    assert rows[..j + 1][..j] == rows[..j] && replies[..j + 1][..j] == replies[..j];
  }

  ghost predicate IsAdmitted(self: Consumer, exposure: ExposureSet, rows: seq<PendingRow>, replies: seq<Option<Entry>>, id: nat)
    requires |rows| == |replies|
  {
    exists j :: 0 <= j < |rows| && rows[j].id == id && Admits(self, exposure, rows[j], replies[j])
  }

  lemma {:induction false} AdmittedId(self: Consumer, exposure: ExposureSet, rows: seq<PendingRow>, replies: seq<Option<Entry>>, id: nat)
    requires |rows| == |replies|
    ensures id in Admitted(self, exposure, rows, replies) <==> IsAdmitted(self, exposure, rows, replies, id)
    decreases |rows|
  {
    if rows != [] {
      var n := |rows| - 1;
      AdmittedId(self, exposure, rows[..n], replies[..n], id);
      if IsAdmitted(self, exposure, rows[..n], replies[..n], id) {
        var j :| 0 <= j < n && rows[..n][j].id == id && Admits(self, exposure, rows[..n][j], replies[..n][j]);
        assert rows[j] == rows[..n][j] && replies[j] == replies[..n][j];
      }
      if IsAdmitted(self, exposure, rows, replies, id) {
        var j :| 0 <= j < |rows| && rows[j].id == id && Admits(self, exposure, rows[j], replies[j]);
        if j < n { assert rows[j] == rows[..n][j] && replies[j] == replies[..n][j]; }
      }
    }
  }

  function Members(ids: seq<nat>): set<nat> {
    set id | id in ids
  }

  // ------------------------------------------------------------------------------------------
  // The loop among the other nodes' steps
  // ------------------------------------------------------------------------------------------

  /** An XRANGE answered with the entry, or with nothing because it failed or the entry had been trimmed. */
  ghost predicate ReplyOk(server: Server, id: nat, reply: Option<Entry>, failed: bool) {
    match reply
    case Some(entry) => id < |server.log| && entry == server.log[id]
    case None => failed || id < server.trimmed
  }

  /** With these replies so far, the loop admits what the inspecting node has collected. */
  ghost predicate Explains(s: Sys, c: Consumer, replies: seq<Option<Entry>>, failed: bool)
    requires c in s.nodes && s.nodes[c].phase.Inspecting?
  {
    var Node(exposure, Inspecting(rows, next, claimable)) := s.nodes[c];
    && |replies| == next <= |rows|
    && (forall j :: 0 <= j < next ==> ReplyOk(s.server, rows[j].id, replies[j], failed))
    && claimable == Members(Admitted(c, exposure, rows[..next], replies))
  }

  ghost predicate ScanExplained(s: Sys, c: Consumer, failed: bool) {
    c in s.nodes && s.nodes[c].phase.Inspecting? ==> exists replies :: Explains(s, c, replies, failed)
  }

  lemma ServerGrows(s: Sys, step: Step)
    requires s.server.Valid()
    ensures s.server.log <= Do(s, step).server.log && s.server.trimmed <= Do(s, step).server.trimmed
  {
  }

  lemma RepliesLast(s: Sys, t: Sys, c: Consumer, replies: seq<Option<Entry>>, failed: bool, failedNow: bool)
    requires c in s.nodes && s.nodes[c].phase.Inspecting? && Explains(s, c, replies, failed)
    requires c in t.nodes && t.nodes[c] == s.nodes[c] && s.server.log <= t.server.log && s.server.trimmed <= t.server.trimmed
    requires failed ==> failedNow
    ensures Explains(t, c, replies, failedNow)
  {
    var rows := s.nodes[c].phase.rows;
    forall j | 0 <= j < |replies| ensures ReplyOk(t.server, rows[j].id, replies[j], failedNow) {
      assert ReplyOk(s.server, rows[j].id, replies[j], failed);
    }
  }

  lemma ScanLasts(s: Sys, t: Sys, c: Consumer, failed: bool, failedNow: bool)
    requires ScanExplained(s, c, failed) && (failed ==> failedNow)
    requires c in s.nodes && c in t.nodes && t.nodes[c] == s.nodes[c]
    requires s.server.log <= t.server.log && s.server.trimmed <= t.server.trimmed
    ensures ScanExplained(t, c, failedNow)
  {
    if s.nodes[c].phase.Inspecting? {
      var replies :| Explains(s, c, replies, failed);
      RepliesLast(s, t, c, replies, failed, failedNow);
    }
  }

  lemma {:induction false} AdmittedOneMore(c: Consumer, exposure: ExposureSet, rows: seq<PendingRow>, replies: seq<Option<Entry>>, n: nat, reply: Option<Entry>)
    requires n == |replies| < |rows|
    ensures Members(Admitted(c, exposure, rows[..n + 1], replies + [reply]))
         == if Admits(c, exposure, rows[n], reply) then Members(Admitted(c, exposure, rows[..n], replies)) + {rows[n].id}
            else Members(Admitted(c, exposure, rows[..n], replies))
  {
    assert rows[..n + 1][..n] == rows[..n] && (replies + [reply])[..n] == replies;
  }

  lemma InspectExplained(s: Sys, c: Consumer, answered: bool, replies: seq<Option<Entry>>, failed: bool, failedNow: bool)
    requires c in s.nodes && s.nodes[c].phase.Inspecting? && Explains(s, c, replies, failed)
    requires s.nodes[c].phase.next < |s.nodes[c].phase.rows| && s.nodes[c].phase.rows[s.nodes[c].phase.next].id < |s.server.log|
    requires failed || !answered ==> failedNow
    ensures DoInspect(s, c, answered).nodes[c].phase.Inspecting?
    ensures exists more :: Explains(DoInspect(s, c, answered), c, more, failedNow)
  {
    var Node(exposure, Inspecting(rows, next, claimable)) := s.nodes[c];
    var reply := if answered then s.server.Range(rows[next].id) else None;
    var t := DoInspect(s, c, answered);
    AdmittedOneMore(c, exposure, rows, replies, next, reply);
    RepliesStayOk(s.server, rows, replies, reply, failed, failedNow);
    assert Explains(t, c, replies + [reply], failedNow);
  }

  lemma RepliesStayOk(server: Server, rows: seq<PendingRow>, replies: seq<Option<Entry>>, reply: Option<Entry>, failed: bool, failedNow: bool)
    requires |replies| < |rows| && (failed ==> failedNow)
    requires forall j :: 0 <= j < |replies| ==> ReplyOk(server, rows[j].id, replies[j], failed)
    requires ReplyOk(server, rows[|replies|].id, reply, failedNow)
    ensures forall j :: 0 <= j < |replies| + 1 ==> ReplyOk(server, rows[j].id, (replies + [reply])[j], failedNow)
  {
    forall j | 0 <= j < |replies| + 1 ensures ReplyOk(server, rows[j].id, (replies + [reply])[j], failedNow) {
      if j < |replies| { assert ReplyOk(server, rows[j].id, replies[j], failed); }
    }
  }

  lemma ScanBegins(s: Sys, c: Consumer, failed: bool)
    requires s.server.Valid() && c in s.nodes && Do(s, Act(c, ScanPending)).nodes[c] != s.nodes[c]
    ensures ScanExplained(Do(s, Act(c, ScanPending)), c, failed)
  {
    var t := Do(s, Act(c, ScanPending));
    assert Admitted(c, t.nodes[c].exposure, t.nodes[c].phase.rows[..0], []) == [];
    assert Explains(t, c, [], failed);
  }

  lemma InspectionGoesOn(s: Sys, c: Consumer, answered: bool, failed: bool, failedNow: bool)
    requires Inv(s) && c in s.nodes && s.nodes[c].phase.Inspecting? && s.nodes[c].phase.next < |s.nodes[c].phase.rows|
    requires ScanExplained(s, c, failed) && (failed || !answered ==> failedNow)
    ensures ScanExplained(DoInspect(s, c, answered), c, failedNow)
  {
    var replies :| Explains(s, c, replies, failed);
    RowInTheLog(s, c);
    InspectExplained(s, c, answered, replies, failed, failedNow);
  }

  /** How a step can leave a node inspecting: not touching it, beginning its scan, or inspecting its next row. */
  ghost predicate ScanSteps(s: Sys, t: Sys, step: Step, c: Consumer)
    requires s.server.Valid()
  {
    || c !in t.nodes || !t.nodes[c].phase.Inspecting?
    || (c in s.nodes && t.nodes[c] == s.nodes[c] && s.server.log <= t.server.log && s.server.trimmed <= t.server.trimmed)
    || (step == Act(c, ScanPending) && t == Do(s, step) && c in s.nodes && t.nodes[c] != s.nodes[c])
    || (c in s.nodes && s.nodes[c].phase.Inspecting? && s.nodes[c].phase.next < |s.nodes[c].phase.rows|
        && ((step == Act(c, Inspect) && t == DoInspect(s, c, true)) || (step == Act(c, InspectFails) && t == DoInspect(s, c, false))))
  }

  lemma StepIsOneOfThese(s: Sys, step: Step, c: Consumer)
    requires s.server.Valid()
    ensures ScanSteps(s, Do(s, step), step, c)
  {
    var t := Do(s, step);
    ServerGrows(s, step);
    if c in t.nodes && t.nodes[c].phase.Inspecting? && (c !in s.nodes || t.nodes[c] != s.nodes[c]) && step != Act(c, ScanPending) {
      OnlyInspectsGoOn(s, step, c);
    }
  }

  lemma ScanStepsKeepExplained(s: Sys, t: Sys, step: Step, c: Consumer, failed: bool, failedNow: bool)
    requires Inv(s) && ScanExplained(s, c, failed) && ScanSteps(s, t, step, c)
    requires failed || step == Act(c, InspectFails) ==> failedNow
    ensures ScanExplained(t, c, failedNow)
  {
    if c in t.nodes && t.nodes[c].phase.Inspecting? {
      if c in s.nodes && t.nodes[c] == s.nodes[c] && s.server.log <= t.server.log && s.server.trimmed <= t.server.trimmed {
        ScanLasts(s, t, c, failed, failedNow);
      } else if step == Act(c, ScanPending) {
        ScanBegins(s, c, failedNow);
      } else {
        InspectionGoesOn(s, c, step.action.Inspect?, failed, failedNow);
      }
    }
  }

  lemma StepKeepsExplained(s: Sys, step: Step, c: Consumer, failed: bool)
    requires Inv(s) && ScanExplained(s, c, failed)
    ensures ScanExplained(Do(s, step), c, failed || step == Act(c, InspectFails))
  {
    StepIsOneOfThese(s, step, c);
    ScanStepsKeepExplained(s, Do(s, step), step, c, failed, failed || step == Act(c, InspectFails));
  }

  lemma OnlyInspectsGoOn(s: Sys, step: Step, c: Consumer)
    requires s.server.Valid() && c in Do(s, step).nodes && Do(s, step).nodes[c].phase.Inspecting?
    requires c !in s.nodes || Do(s, step).nodes[c] != s.nodes[c]
    requires step != Act(c, ScanPending)
    ensures c in s.nodes && s.nodes[c].phase.Inspecting? && (step == Act(c, Inspect) || step == Act(c, InspectFails))
    ensures s.nodes[c].phase.next < |s.nodes[c].phase.rows|
  {
    if step.Act? && step.c in s.nodes {
      if step.c != c { OthersPhase(s, step.c, step.action, c); }
      OwnInspection(s, c, step.action);
    }
  }

  /** An action changes no other node. */
  lemma OthersPhase(s: Sys, actor: Consumer, action: Action, c: Consumer)
    requires s.server.Valid() && actor in s.nodes && c != actor
    ensures c in DoAct(s, actor, action).nodes <==> c in s.nodes
    ensures c in s.nodes ==> DoAct(s, actor, action).nodes[c] == s.nodes[c]
  {
  }

  lemma OwnInspection(s: Sys, c: Consumer, action: Action)
    requires s.server.Valid() && c in s.nodes && action != ScanPending
    requires DoAct(s, c, action).nodes[c].phase.Inspecting? && DoAct(s, c, action).nodes[c] != s.nodes[c]
    ensures action == Inspect || action == InspectFails
    ensures s.nodes[c].phase.Inspecting? && s.nodes[c].phase.next < |s.nodes[c].phase.rows|
  {
  }

  lemma RowInTheLog(s: Sys, c: Consumer)
    requires Inv(s) && c in s.nodes && s.nodes[c].phase.Inspecting? && s.nodes[c].phase.next < |s.nodes[c].phase.rows|
    ensures s.nodes[c].phase.rows[s.nodes[c].phase.next].id < |s.server.log|
  {
    assert NodeOk(s, c);
    var row := s.nodes[c].phase.rows[s.nodes[c].phase.next];
    assert RowOk(s, c, row);
    assert AccountOk(s, row.id);
  }

  /**
   Whatever other steps fall between its XRANGEs, in every run an inspecting node has collected what the loop admits for
   the replies it got: each the entry itself, or nothing when the entry had been trimmed or one of its XRANGEs failed.
   */
  lemma {:induction false} InspectionMatchesTheLoop(run: seq<Step>, c: Consumer)
    ensures ScanExplained(Reached(run), c, Act(c, InspectFails) in run)
    decreases |run|
  {
    if run != [] {
      var front, last := run[..|run| - 1], run[|run| - 1];
      InspectionMatchesTheLoop(front, c);
      assert run == front + [last];
      OneMore(INITIAL, front, last);
      StepKeepsExplained(Reached(front), last, c, Act(c, InspectFails) in front);
    }
  }

  /** What XCLAIM does to entry `id` of the pending list when these are the rows and replies of the loop. */
  ghost predicate ClaimedByReplies(s: Sys, t: Sys, c: Consumer, replies: seq<Option<Entry>>, id: nat)
    requires c in s.nodes && s.nodes[c].phase.Inspecting? && |replies| == |s.nodes[c].phase.rows| && id in s.server.pel
  {
    var admitted := IsAdmitted(c, s.nodes[c].exposure, s.nodes[c].phase.rows, replies, id);
    && (admitted && s.server.Present(id) && s.server.now - s.server.pel[id].since >= RECLAIM_MIN_IDLE_MS
        <==> id in t.server.pel && t.server.pel[id] != s.server.pel[id])
    && (admitted && !s.server.Present(id) <==> id !in t.server.pel)
  }

  lemma ClaimableIsAdmitted(s: Sys, c: Consumer, replies: seq<Option<Entry>>, failed: bool, id: nat)
    requires c in s.nodes && s.nodes[c].phase.Inspecting? && s.nodes[c].phase.next == |s.nodes[c].phase.rows|
    requires Explains(s, c, replies, failed)
    ensures id in s.nodes[c].phase.claimable <==> IsAdmitted(c, s.nodes[c].exposure, s.nodes[c].phase.rows, replies, id)
  {
    var Node(exposure, Inspecting(rows, next, claimable)) := s.nodes[c];
    assert rows[..next] == rows;
    AdmittedId(c, exposure, rows, replies, id);
  }

  /**
   Reclaim by the rows and the replies: when the loop is done, XCLAIM moves an entry exactly if some row of another owner
   got it back with an accepted hint and it is still pending, in the stream and idle, and clears it exactly if it was
   admitted and is trimmed by then.
   */
  lemma ReclaimFollowsTheReplies(run: seq<Step>, c: Consumer)
    requires c in Reached(run).nodes && Reached(run).nodes[c].phase.Inspecting?
    requires Reached(run).nodes[c].phase.next == |Reached(run).nodes[c].phase.rows|
    ensures exists replies :: Explains(Reached(run), c, replies, Act(c, InspectFails) in run) &&
              forall id :: id in Reached(run).server.pel ==> ClaimedByReplies(Reached(run), Do(Reached(run), Act(c, ClaimNow)), c, replies, id)
  {
    var s, t := Reached(run), Do(Reached(run), Act(c, ClaimNow));
    InspectionMatchesTheLoop(run, c);
    var replies :| Explains(s, c, replies, Act(c, InspectFails) in run);
    forall id | id in s.server.pel ensures ClaimedByReplies(s, t, c, replies, id) {
      ReclaimIsSafe(run, c, id);
      ClaimableIsAdmitted(s, c, replies, Act(c, InspectFails) in run, id);
    }
  }

  // ------------------------------------------------------------------------------------------
  // A whole reclaim
  // ------------------------------------------------------------------------------------------

  function Inspects(c: Consumer, n: nat): seq<Step> {
    if n == 0 then [] else [Act(c, Inspect)] + Inspects(c, n - 1)
  }

  /** XPENDING, one XRANGE for each row it offers, XCLAIM. */
  function ReclaimOf(s: Server, c: Consumer): seq<Step>
    requires s.Valid()
  {
    [Act(c, ScanPending)] + Inspects(c, |s.Pending(RECLAIM_MIN_IDLE_MS, 0, RECLAIM_BATCH)|) + [Act(c, ClaimNow)]
  }

  predicate AdmitsRow(s: Server, c: Consumer, exposure: ExposureSet, rows: seq<PendingRow>, j: int, id: nat) {
    0 <= j < |rows| && rows[j].id == id && Admits(c, exposure, rows[j], s.Range(id))
  }

  /** `n` rows inspected without anybody else's step in between. */
  ghost predicate InspectedAlone(s: Sys, t: Sys, c: Consumer, rows: seq<PendingRow>, n: nat) {
    && c in s.nodes && c in t.nodes && t.server == s.server && t.nodes[c].exposure == s.nodes[c].exposure
    && t.nodes[c].phase.Inspecting? && t.nodes[c].phase.rows == rows && t.nodes[c].phase.next == n <= |rows|
    && forall id :: id in t.nodes[c].phase.claimable <==> exists j :: j < n && AdmitsRow(s.server, c, s.nodes[c].exposure, rows, j, id)
  }

  lemma InspectAlone(s: Sys, t: Sys, c: Consumer, rows: seq<PendingRow>, n: nat)
    requires s.server.Valid() && InspectedAlone(s, t, c, rows, n) && n < |rows|
    ensures InspectedAlone(s, Do(t, Act(c, Inspect)), c, rows, n + 1)
  {
    var u, x := DoInspect(t, c, true), s.nodes[c].exposure;
    assert Do(t, Act(c, Inspect)) == u;
    var row := rows[n];
    forall id ensures id in u.nodes[c].phase.claimable <==> exists j :: j < n + 1 && AdmitsRow(s.server, c, x, rows, j, id) {
      if AdmitsRow(s.server, c, x, rows, n, id) { assert id in u.nodes[c].phase.claimable; }
    }
  }

  lemma DoKeepsValid(s: Sys, step: Step)
    requires s.server.Valid()
    ensures Do(s, step).server.Valid()
  {
    if step.Act? && step.c in s.nodes { ActKeepsValid(s, step.c, step.action); }
  }

  lemma ActKeepsValid(s: Sys, c: Consumer, action: Action)
    requires s.server.Valid() && c in s.nodes
    ensures DoAct(s, c, action).server.Valid()
  {
  }

  /** A run from any well-formed server; from a state that satisfies the invariant it is the run of the theorems. */
  function Run(s: Sys, run: seq<Step>): (t: Sys)
    requires s.server.Valid()
    ensures t.server.Valid()
    decreases |run|
  {
    if run == [] then s
    else
      DoKeepsValid(s, run[0]);
      Run(Do(s, run[0]), run[1..])
  }

  lemma {:induction false} RunIsExec(s: Sys, run: seq<Step>)
    requires Inv(s)
    ensures Exec(s, run) == Run(s, run)
    decreases |run|
  {
    if run != [] {
      StepKeepsInv(s, run[0]);
      RunIsExec(Do(s, run[0]), run[1..]);
    }
  }

  lemma {:induction false} RunInParts(s: Sys, a: seq<Step>, b: seq<Step>)
    requires s.server.Valid()
    ensures Run(s, a + b) == Run(Run(s, a), b)
    decreases |a|
  {
    if a == [] {
      assert a + b == b;
    } else {
      DoKeepsValid(s, a[0]);
      RunInParts(Do(s, a[0]), a[1..], b);
      assert (a + b)[1..] == a[1..] + b;
    }
  }

  lemma OneInspection(s: Sys, t: Sys, c: Consumer, rows: seq<PendingRow>, n: nat) returns (u: Sys)
    requires s.server.Valid() && t.server.Valid() && InspectedAlone(s, t, c, rows, n) && n < |rows|
    ensures u.server.Valid() && InspectedAlone(s, u, c, rows, n + 1)
    ensures Run(t, Inspects(c, |rows| - n)) == Run(u, Inspects(c, |rows| - n - 1))
  {
    InspectAlone(s, t, c, rows, n);
    DoKeepsValid(t, Act(c, Inspect));
    u := Do(t, Act(c, Inspect));
    assert Inspects(c, |rows| - n)[1..] == Inspects(c, |rows| - n - 1);
  }

  /** The rows that are left are inspected without anybody else's step in between. */
  lemma {:induction false} InspectsAlone(s: Sys, t: Sys, c: Consumer, rows: seq<PendingRow>, n: nat)
    requires s.server.Valid() && t.server.Valid() && InspectedAlone(s, t, c, rows, n)
    ensures InspectedAlone(s, Run(t, Inspects(c, |rows| - n)), c, rows, |rows|)
    decreases |rows| - n
  {
    if n < |rows| {
      var u := OneInspection(s, t, c, rows, n);
      InspectsAlone(s, u, c, rows, n + 1);
    }
  }

  /** Someone else's entry, idle for the bound, in the stream, of an accepted hint, and among the first of the idle ones. */
  ghost predicate Reclaimable(s: Server, c: Consumer, exposure: ExposureSet, id: nat) {
    && IsIdle(s, 30_000, id) && s.pel[id].owner != c
    && s.Present(id) && exposure.Accepts(s.log[id].hint)
    && |IdleBetween(s, 30_000, 0, id)| < 10
  }

  lemma {:induction false} OfferedIsAdmitted(s: Server, c: Consumer, exposure: ExposureSet, id: nat)
    requires s.Valid() && id in s.pel
    ensures Reclaimable(s, c, exposure, id) <==>
            exists j :: AdmitsRow(s, c, exposure, s.Pending(RECLAIM_MIN_IDLE_MS, 0, RECLAIM_BATCH), j, id)
  {
    var rows := s.Pending(RECLAIM_MIN_IDLE_MS, 0, RECLAIM_BATCH);
    PendingOffers(s, RECLAIM_MIN_IDLE_MS, 0, RECLAIM_BATCH, id);
    PendingAscends(s, RECLAIM_MIN_IDLE_MS, 0, RECLAIM_BATCH);
    if Reclaimable(s, c, exposure, id) {
      var j :| 0 <= j < |rows| && OffersAt(s, rows, id, j);
      assert AdmitsRow(s, c, exposure, rows, j, id);
    }
    if j :| AdmitsRow(s, c, exposure, rows, j, id) {
      assert OffersAt(s, rows, rows[j].id, j);
      assert Offers(s, rows, id);
    }
  }

  lemma ClaimAlone(s: Sys, t: Sys, c: Consumer, rows: seq<PendingRow>, id: nat)
    requires s.server.Valid() && InspectedAlone(s, t, c, rows, |rows|) && id in s.server.pel
    requires IsIdle(s.server, RECLAIM_MIN_IDLE_MS, id) || forall j :: !AdmitsRow(s.server, c, s.nodes[c].exposure, rows, j, id)
    ensures var u := Do(t, Act(c, ClaimNow));
            id in u.server.pel && u.server.pel[id] ==
              if exists j :: AdmitsRow(s.server, c, s.nodes[c].exposure, rows, j, id) then Owned(c, s.server.now) else s.server.pel[id]
  {
    var claimable := t.nodes[c].phase.claimable;
    assert Do(t, Act(c, ClaimNow)) == DoClaim(t, c);
    assert id in claimable <==> exists j :: j < |rows| && AdmitsRow(s.server, c, s.nodes[c].exposure, rows, j, id);
    if j :| AdmitsRow(s.server, c, s.nodes[c].exposure, rows, j, id) {
      assert id in claimable;
    }
  }

  lemma ScanAlone(s: Sys, c: Consumer)
    requires s.server.Valid() && c in s.nodes && s.nodes[c].phase.Ready?
    ensures Do(s, Act(c, ScanPending)).server.Valid()
    ensures InspectedAlone(s, Do(s, Act(c, ScanPending)), c, s.server.Pending(RECLAIM_MIN_IDLE_MS, 0, RECLAIM_BATCH), 0)
  {
  }

  lemma {:induction false} OneStep(s: Sys, step: Step)
    requires s.server.Valid()
    ensures Run(s, [step]) == Do(s, step)
  {
    assert [step][1..] == [];
  }

  lemma {:induction false} ReclaimInThreeParts(s: Sys, c: Consumer, inspects: seq<Step>)
    requires s.server.Valid() && Do(s, Act(c, ScanPending)).server.Valid()
    ensures Run(s, [Act(c, ScanPending)] + inspects + [Act(c, ClaimNow)]) == Do(Run(Do(s, Act(c, ScanPending)), inspects), Act(c, ClaimNow))
  {
    RunInParts(s, [Act(c, ScanPending)] + inspects, [Act(c, ClaimNow)]);
    RunInParts(s, [Act(c, ScanPending)], inspects);
    OneStep(s, Act(c, ScanPending));
    OneStep(Run(Do(s, Act(c, ScanPending)), inspects), Act(c, ClaimNow));
  }

  /** The node's state just before its XCLAIM. */
  lemma UpToTheClaim(s: Sys, c: Consumer) returns (inspected: Sys)
    requires s.server.Valid() && c in s.nodes && s.nodes[c].phase.Ready?
    ensures var rows := s.server.Pending(RECLAIM_MIN_IDLE_MS, 0, RECLAIM_BATCH); InspectedAlone(s, inspected, c, rows, |rows|)
    ensures inspected.server.Valid() && Run(s, ReclaimOf(s.server, c)) == Do(inspected, Act(c, ClaimNow))
  {
    var rows, scanned := s.server.Pending(RECLAIM_MIN_IDLE_MS, 0, RECLAIM_BATCH), Do(s, Act(c, ScanPending));
    ScanAlone(s, c);
    InspectsAlone(s, scanned, c, rows, 0);
    inspected := Run(scanned, Inspects(c, |rows|));
    ReclaimInThreeParts(s, c, Inspects(c, |rows|));
  }

  /**
   A reclaim nobody disturbs takes exactly the reclaimable entries: an orphan is handed to the node that scans for it, at
   that time, unless a whole batch of idle entries comes before it; every other pending entry keeps its owner and clock.
   */
  lemma OrphansAreReclaimed(run: seq<Step>, c: Consumer, id: nat)
    requires c in Reached(run).nodes && Reached(run).nodes[c].phase.Ready? && id in Reached(run).server.pel
    ensures var s := Reached(run);
            var t := Exec(s, ReclaimOf(s.server, c));
            id in t.server.pel && t.server.pel[id] ==
              if Reclaimable(s.server, c, s.nodes[c].exposure, id) then Owned(c, s.server.now) else s.server.pel[id]
  {
    var s := Reached(run);
    ReclaimEnds(s, c, id);
    RunIsExec(s, ReclaimOf(s.server, c));
  }

  lemma {:induction false} ReclaimEnds(s: Sys, c: Consumer, id: nat)
    requires s.server.Valid() && c in s.nodes && s.nodes[c].phase.Ready? && id in s.server.pel
    ensures var t := Run(s, ReclaimOf(s.server, c));
            id in t.server.pel && t.server.pel[id] ==
              if Reclaimable(s.server, c, s.nodes[c].exposure, id) then Owned(c, s.server.now) else s.server.pel[id]
  {
    var inspected := UpToTheClaim(s, c);
    ClaimReclaims(s, inspected, Run(s, ReclaimOf(s.server, c)), c, id);
  }

  lemma ClaimReclaims(s: Sys, inspected: Sys, t: Sys, c: Consumer, id: nat)
    requires s.server.Valid() && c in s.nodes && id in s.server.pel
    requires var rows := s.server.Pending(RECLAIM_MIN_IDLE_MS, 0, RECLAIM_BATCH); InspectedAlone(s, inspected, c, rows, |rows|)
    requires t == Do(inspected, Act(c, ClaimNow))
    ensures id in t.server.pel
    ensures t.server.pel[id] == if Reclaimable(s.server, c, s.nodes[c].exposure, id) then Owned(c, s.server.now) else s.server.pel[id]
  {
    OfferedIsAdmitted(s.server, c, s.nodes[c].exposure, id);
    ClaimAlone(s, inspected, c, s.server.Pending(RECLAIM_MIN_IDLE_MS, 0, RECLAIM_BATCH), id);
  }

  // ------------------------------------------------------------------------------------------
  // Reaping
  // ------------------------------------------------------------------------------------------

  /** One XINFO CONSUMERS row as it arrives: any field may be missing or unreadable. */
  datatype InfoRow = InfoRow(name: Option<string>, pending: Option<nat>, idle: Option<nat>)

  /** A row without a pending count counts as holding one entry, a row without an idle time as just active. */
  function Defaulted(row: InfoRow): ConsumerRow {
    ConsumerRow(if row.pending.Some? then row.pending.value else 1, if row.idle.Some? then row.idle.value else 0)
  }

  predicate Doomed(self: Consumer, row: InfoRow) {
    row.name.Some? && Reapable(self, row.name.value, Defaulted(row))
  }

  /** The names DELCONSUMER is sent for, in row order. */
  function DoomedNames(self: Consumer, rows: seq<InfoRow>): seq<Consumer> {
    if rows == [] then []
    else
      var n := |rows| - 1;
      DoomedNames(self, rows[..n]) + (if Doomed(self, rows[n]) then [rows[n].name.value] else [])
  }

  /** How many of the deletions of the first rows replied that they discarded nothing. */
  function Clean(self: Consumer, rows: seq<InfoRow>, replies: seq<Option<nat>>): nat
    requires |rows| == |replies|
    decreases |rows|
  {
    if rows == [] then 0
    else
      var n := |rows| - 1;
      Clean(self, rows[..n], replies[..n]) + (if Doomed(self, rows[n]) && replies[n] == Some(0) then 1 else 0)
  }

  /** `reap_stale_consumers`; `replies[j]` is what DELCONSUMER answers for row `j`, `None` an error. */
  method Reap(self: Consumer, rows: seq<InfoRow>, replies: seq<Option<nat>>) returns (deleted: seq<Consumer>, removed: nat)
    requires |rows| == |replies|
    ensures deleted == DoomedNames(self, rows)
    ensures removed == Clean(self, rows, replies) <= |deleted|
    ensures self !in deleted
  {
    deleted, removed := [], 0;
    var j := 0;
    while j < |rows|
      invariant 0 <= j <= |rows|
      invariant deleted == DoomedNames(self, rows[..j])
      invariant removed == Clean(self, rows[..j], replies[..j]) <= |deleted|
      invariant self !in deleted
    {
      assert rows[..j + 1][..j] == rows[..j] && replies[..j + 1][..j] == replies[..j];
      if rows[j].name.Some? && rows[j].name.value != self {
        var pending := if rows[j].pending.Some? then rows[j].pending.value else 1;
        var idle := if rows[j].idle.Some? then rows[j].idle.value else 0;
        if pending == 0 && idle >= REAP_IDLE_MS {
          deleted := deleted + [rows[j].name.value];
          if replies[j].Some? && replies[j].value <= 0 {
            removed := removed + 1;
          }
        }
      }
      j := j + 1;
    }
    assert rows[..j] == rows && replies[..j] == replies;
  }

  /** The row said, in so many words, that another consumer holds nothing and has been idle for an hour. */
  function SaidSo(self: Consumer): InfoRow -> bool {
    (row: InfoRow) => row.name.Some? && row.name != Some(self) && row.pending == Some(0) && row.idle.Some? && row.idle.value >= 3_600_000
  }

  function NameIn(): InfoRow -> Consumer {
    (row: InfoRow) => if row.name.Some? then row.name.value else ""
  }

  /** DELCONSUMER goes out once for each such row, in their order. */
  lemma {:induction false} DoomedAre(self: Consumer, rows: seq<InfoRow>)
    ensures Selects(rows, DoomedNames(self, rows), SaidSo(self), NameIn())
  {
    if rows == [] {
      SelectsNone(SaidSo(self), NameIn());
    } else {
      var front := rows[..|rows| - 1];
      DoomedAre(self, front);
      SelectsLast(rows, DoomedNames(self, front), DoomedNames(self, rows), SaidSo(self), NameIn());
    }
  }

  /** The rows before `n` whose consumer was deleted with a reply of nothing discarded. */
  function CleanRows(self: Consumer, rows: seq<InfoRow>, replies: seq<Option<nat>>, n: nat): set<nat>
    requires |rows| == |replies|
  {
    set j | 0 <= j < n && j < |rows| && SaidSo(self)(rows[j]) && replies[j] == Some(0)
  }

  lemma {:induction false} CleanAre(self: Consumer, rows: seq<InfoRow>, replies: seq<Option<nat>>, n: nat)
    requires |rows| == |replies| && n <= |rows|
    ensures Clean(self, rows[..n], replies[..n]) == |CleanRows(self, rows, replies, n)|
  {
    if n == 0 {
      assert CleanRows(self, rows, replies, 0) == {};
    } else {
      CleanAre(self, rows, replies, n - 1);
      assert rows[..n][..n - 1] == rows[..n - 1] && replies[..n][..n - 1] == replies[..n - 1];
      CleanRowsGrow(self, rows, replies, n - 1);
    }
  }

  lemma CleanRowsGrow(self: Consumer, rows: seq<InfoRow>, replies: seq<Option<nat>>, n: nat)
    requires |rows| == |replies| && n < |rows|
    ensures |CleanRows(self, rows, replies, n + 1)| ==
            |CleanRows(self, rows, replies, n)| + if SaidSo(self)(rows[n]) && replies[n] == Some(0) then 1 else 0
  {
    var before := CleanRows(self, rows, replies, n);
    if SaidSo(self)(rows[n]) && replies[n] == Some(0) {
      assert CleanRows(self, rows, replies, n + 1) == before + {n};
    } else {
      assert CleanRows(self, rows, replies, n + 1) == before;
    }
  }

  /** Every deleted consumer's row said, in so many words, that it held nothing and had been idle for the bound. */
  lemma {:induction false} DoomedSaidSo(self: Consumer, rows: seq<InfoRow>, name: Consumer)
    ensures name in DoomedNames(self, rows) <==>
              name != self && exists j :: 0 <= j < |rows| && rows[j].name == Some(name) && rows[j].pending == Some(0) && rows[j].idle.Some? && rows[j].idle.value >= 3_600_000
    decreases |rows|
  {
    if rows != [] {
      var n := |rows| - 1;
      DoomedSaidSo(self, rows[..n], name);
      if name in DoomedNames(self, rows[..n]) {
        var j :| 0 <= j < n && rows[..n][j].name == Some(name) && rows[..n][j].pending == Some(0) && rows[..n][j].idle.Some? && rows[..n][j].idle.value >= 3_600_000;
        assert rows[j] == rows[..n][j];
      }
      if exists j :: 0 <= j < n && rows[j].name == Some(name) && rows[j].pending == Some(0) && rows[j].idle.Some? && rows[j].idle.value >= 3_600_000 {
        var j :| 0 <= j < n && rows[j].name == Some(name) && rows[j].pending == Some(0) && rows[j].idle.Some? && rows[j].idle.value >= 3_600_000;
        assert rows[j] == rows[..n][j];
      }
    }
  }
}
