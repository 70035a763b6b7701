/** What the delivery protocol guarantees over whole runs, and what it does not. */
module DeliveryTheorems {
  import opened Wrappers
  import opened Routing
  import opened GroupServer
  import opened Delivery
  import opened DeliveryInvariant

  /** The state after a run, from any state that satisfies the invariant; every reachable state does. */
  function Exec(s: Sys, run: seq<Step>): (t: Sys)
    requires Inv(s)
    ensures Inv(t)
    decreases |run|
  {
    if run == [] then s
    else
      StepKeepsInv(s, run[0]);
      Exec(Do(s, run[0]), run[1..])
  }

  function Reached(run: seq<Step>): (t: Sys)
    ensures Inv(t)
  {
    Exec(INITIAL, run)
  }

  function AckedIds(ledger: map<nat, Account>): set<nat> {
    set id | id in ledger && ledger[id].fate.Acked?
  }

  function DroppedIds(ledger: map<nat, Account>): set<nat> {
    set id | id in ledger && ledger[id].fate.Dropped?
  }

  /**
   Conservation, over every run and interleaving: each delivered entry is in exactly one of pending (with one
   registered owner), acknowledged, discarded by a DELCONSUMER, or dropped because trimmed; and the discarded
   entries number exactly the sum of the DELCONSUMER replies.
   */
  lemma Conservation(run: seq<Step>)
    ensures var t := Reached(run);
            var pending, acked, discarded, dropped := t.server.pel.Keys, AckedIds(t.ledger), DiscardedIds(t.ledger), DroppedIds(t.ledger);
            && t.ledger.Keys == pending + acked + discarded + dropped
            && pending !! acked !! discarded !! dropped
            && |t.ledger| == |t.server.pel| + |acked| + t.deleted + |dropped|
            && (forall id :: id in pending ==> t.server.pel[id].owner in t.server.seen)
  {
    Partition(Reached(run));
  }

  lemma Partition(t: Sys)
    requires Inv(t)
    ensures t.ledger.Keys == t.server.pel.Keys + AckedIds(t.ledger) + DiscardedIds(t.ledger) + DroppedIds(t.ledger)
    ensures t.server.pel.Keys !! AckedIds(t.ledger) !! DiscardedIds(t.ledger) !! DroppedIds(t.ledger)
    ensures |t.ledger| == |t.server.pel| + |AckedIds(t.ledger)| + t.deleted + |DroppedIds(t.ledger)|
  {
    forall id | id in t.ledger ensures t.ledger[id].fate.Open? <==> id in t.server.pel {
      assert AccountOk(t, id);
    }
    PartitionByFate(t.ledger, t.server.pel.Keys);
  }

  lemma PartitionByFate(ledger: map<nat, Account>, pending: set<nat>)
    requires pending <= ledger.Keys && forall id :: id in ledger ==> (ledger[id].fate.Open? <==> id in pending)
    ensures ledger.Keys == pending + AckedIds(ledger) + DiscardedIds(ledger) + DroppedIds(ledger)
    ensures pending !! AckedIds(ledger) !! DiscardedIds(ledger) !! DroppedIds(ledger)
    ensures |ledger| == |pending| + |AckedIds(ledger)| + |DiscardedIds(ledger)| + |DroppedIds(ledger)|
  {
    FourParts(ledger.Keys, pending, AckedIds(ledger), DiscardedIds(ledger), DroppedIds(ledger));
  }

  lemma FourParts(whole: set<nat>, a: set<nat>, b: set<nat>, c: set<nat>, d: set<nat>)
    requires forall x :: x in whole <==> x in a || x in b || x in c || x in d
    requires a !! b && a !! c && a !! d && b !! c && b !! d && c !! d
    ensures whole == a + b + c + d && a !! b !! c !! d
    ensures |whole| == |a| + |b| + |c| + |d|
  {
    var ab, abc := a + b, a + b + c;
    assert ab !! c && abc !! d;
    assert whole == abc + d;
  }

  /** A delivered entry stays delivered, a settled fate stays settled, and what left its reader's hands is never acknowledged. */
  ghost predicate Keeps(a: Account, after: map<nat, Account>, id: nat) {
    && id in after && after[id].reader == a.reader && after[id].readAt == a.readAt && a.claims <= after[id].claims
    && (!a.fate.Open? ==> after[id].fate == a.fate)
    && (!a.left.InHand? ==> after[id].left == a.left && (a.fate.Open? ==> !after[id].fate.Acked?))
  }

  lemma ReleaseKeepsAccount(s: Sys, t: Sys, c: Consumer, id: nat)
    requires Releases(s, t, c) && id in s.ledger
    ensures Keeps(s.ledger[id], t.ledger, id)
  {
    assert AccountOk(s, id);
    if s.nodes[c].phase.lo <= id < s.nodes[c].phase.hi {
      BatchId(s, c, id);
      assert ReleasesOne(s, t, c, id);
    }
  }

  lemma DeleteKeepsAccount(s: Sys, name: Consumer, remover: Remover, id: nat)
    requires id in s.ledger && (s.ledger[id].fate.Open? <==> id in s.server.pel)
    ensures Keeps(s.ledger[id], DoDelete(s, name, remover).ledger, id)
  {
  }

  lemma XclaimKeepsAccount(s: Sys, c: Consumer, exposure: ExposureSet, ids: set<nat>, id: nat)
    requires id in s.ledger && (s.ledger[id].fate.Open? <==> id in s.server.pel)
    ensures Keeps(s.ledger[id], DoXclaim(s, c, exposure, ids).ledger, id)
  {
  }

  lemma ReadKeepsAccount(s: Sys, c: Consumer, count: nat, id: nat)
    requires Inv(s) && id in s.ledger && c in s.nodes
    ensures Keeps(s.ledger[id], DoRead(s, c, count).ledger, id)
  {
    FreshIds(s, s.server.ReadRange(count).0, s.server.ReadRange(count).1);
  }

  lemma ClaimKeepsAccount(s: Sys, c: Consumer, id: nat)
    requires id in s.ledger && (s.ledger[id].fate.Open? <==> id in s.server.pel) && c in s.nodes && s.nodes[c].phase.Inspecting?
    ensures Keeps(s.ledger[id], DoClaim(s, c).ledger, id)
  {
    XclaimKeepsAccount(SetPhase(s, c, Ready), c, s.nodes[c].exposure, s.nodes[c].phase.claimable, id);
  }

  lemma ReapKeepsAccount(s: Sys, c: Consumer, name: Consumer, id: nat)
    requires id in s.ledger && (s.ledger[id].fate.Open? <==> id in s.server.pel) && c in s.nodes && s.nodes[c].phase.Reaping?
    ensures Keeps(s.ledger[id], DoReap(s, c, name).ledger, id)
  {
    var Reaping(at, unseen) := s.nodes[c].phase;
    DeleteKeepsAccount(SetPhase(s, c, Reaping(at, unseen - {name})), name, Reaper(at), id);
  }

  lemma OpenMeansPending(s: Sys, id: nat)
    requires Inv(s) && id in s.ledger
    ensures s.ledger[id].fate.Open? <==> id in s.server.pel
  {
    assert AccountOk(s, id);
  }

  lemma LetGoKeepsAccount(s: Sys, c: Consumer, id: nat)
    requires Inv(s) && id in s.ledger && c in s.nodes && s.nodes[c].phase.Holding?
    ensures Keeps(s.ledger[id], DoAck(s, c).ledger, id) && Keeps(s.ledger[id], DoAckFails(s, c).ledger, id)
    ensures Keeps(s.ledger[id], DoCrash(s, c).ledger, id)
  {
    AckReleases(s, c);
    ReleaseKeepsAccount(s, DoAck(s, c), c, id);
    AckFailsReleases(s, c);
    ReleaseKeepsAccount(s, DoAckFails(s, c), c, id);
    CrashReleases(s, c);
    ReleaseKeepsAccount(s, DoCrash(s, c), c, id);
  }

  lemma ActKeepsAccount(s: Sys, c: Consumer, action: Action, id: nat)
    requires Inv(s) && id in s.ledger && c in s.nodes
    ensures Keeps(s.ledger[id], DoAct(s, c, action).ledger, id)
  {
    var phase := s.nodes[c].phase;
    OpenMeansPending(s, id);
    match action
    case Read(count) => ReadKeepsAccount(s, c, count, id);
    case ClaimNow => if phase.Inspecting? { ClaimKeepsAccount(s, c, id); }
    case ReapNext(name) => if phase.Reaping? { ReapKeepsAccount(s, c, name, id); }
    case Depart => DeleteKeepsAccount(s, c, Departure, id);
    case AckSweep => if phase.Holding? { LetGoKeepsAccount(s, c, id); }
    case AckFails => if phase.Holding? { LetGoKeepsAccount(s, c, id); }
    case Crash => if phase.Holding? { LetGoKeepsAccount(s, c, id); }
    case _ =>
  }

  lemma StepKeepsAccount(s: Sys, step: Step, id: nat)
    requires Inv(s) && id in s.ledger
    ensures Keeps(s.ledger[id], Do(s, step).ledger, id)
  {
    if step.Act? && step.c in s.nodes { ActKeepsAccount(s, step.c, step.action, id); }
  }

  lemma KeepsTwice(a: Account, middle: map<nat, Account>, after: map<nat, Account>, id: nat)
    requires Keeps(a, middle, id) && Keeps(middle[id], after, id)
    ensures Keeps(a, after, id)
  {
  }

  lemma {:induction false} RunKeepsAccount(s: Sys, run: seq<Step>, id: nat)
    requires Inv(s) && id in s.ledger
    ensures Keeps(s.ledger[id], Exec(s, run).ledger, id)
    decreases |run|
  {
    if run != [] {
      var t := Do(s, run[0]);
      StepKeepsInv(s, run[0]);
      StepKeepsAccount(s, run[0], id);
      RunKeepsAccount(t, run[1..], id);
      KeepsTwice(s.ledger[id], t.ledger, Exec(s, run).ledger, id);
    }
  }

  // ------------------------------------------------------------------------------------------
  // Acknowledgement
  // ------------------------------------------------------------------------------------------

  /**
   One sweep's acknowledgement splits its batch: what was pending and wanted is acknowledged, what the exposure
   refuses stays pending with its owner, and no entry outside the batch is touched.
   */
  lemma SweepSplitsItsBatch(run: seq<Step>, c: Consumer)
    requires c in Reached(run).nodes && Reached(run).nodes[c].phase.Holding?
    ensures var s := Reached(run);
            var t, Node(exposure, Holding(lo, hi)) := Do(s, Act(c, AckSweep)), s.nodes[c];
            && (forall id :: id in t.server.pel <==> id in s.server.pel && !(lo <= id < hi && Wanted(s.server.log[id], exposure)))
            && (forall id :: id in t.server.pel ==> t.server.pel[id] == s.server.pel[id])
            && AckedIds(t.ledger) - AckedIds(s.ledger) == s.server.pel.Keys - t.server.pel.Keys
  {
    var s := Reached(run);
    forall id | id in s.ledger ensures s.ledger[id].fate.Open? <==> id in s.server.pel {
      OpenMeansPending(s, id);
    }
    AckEffect(s, c);
  }

  lemma AckEffect(s: Sys, c: Consumer)
    requires s.server.Valid() && c in s.nodes && s.nodes[c].phase.Holding?
    requires s.server.pel.Keys <= s.ledger.Keys
    requires forall id :: id in s.ledger ==> (s.ledger[id].fate.Open? <==> id in s.server.pel)
    ensures var t, Node(exposure, Holding(lo, hi)) := Do(s, Act(c, AckSweep)), s.nodes[c];
            && (forall id :: id in t.server.pel <==> id in s.server.pel && !(lo <= id < hi && Wanted(s.server.log[id], exposure)))
            && (forall id :: id in t.server.pel ==> t.server.pel[id] == s.server.pel[id])
            && AckedIds(t.ledger) - AckedIds(s.ledger) == s.server.pel.Keys - t.server.pel.Keys
  {
  }

  /** Over every run: only the node that read an entry acknowledges it, and only a command its exposure then accepted, or no command. */
  lemma AckedByAnExposedReader(run: seq<Step>, id: nat)
    requires id in AckedIds(Reached(run).ledger)
    ensures var t := Reached(run);
            var a := t.ledger[id];
            a.fate.acker == a.reader && Wanted(t.server.log[id], a.fate.exposure)
  {
    assert AccountOk(Reached(run), id);
  }

  /**
   Every pending entry is in the batch of the node that read it and is still working on it, or was refused by that
   node's exposure, or was left by an XACK that failed or a crash. Reclaim changes owners only, so it adds no reason.
   */
  lemma WhyAnEntryIsPending(run: seq<Step>, id: nat)
    requires id in Reached(run).server.pel
    ensures var t := Reached(run);
            var a := t.ledger[id];
            match a.left
            case InHand => a.reader in t.nodes && t.nodes[a.reader].phase.Holding? && t.nodes[a.reader].phase.lo <= id < t.nodes[a.reader].phase.hi
            case Refused(exposure) => t.server.log[id].command && !exposure.Accepts(t.server.log[id].hint)
            case Finished => false
            case Interrupted => true
  {
    assert AccountOk(Reached(run), id);
  }

  /**
   An entry its reader has let go of without acknowledging it is never acknowledged afterwards, whatever any node
   does: reclaiming moves its ownership but hands it to no sweep.
   */
  lemma {:induction false} LeftBehindIsNeverAcked(run: seq<Step>, more: seq<Step>, id: nat)
    requires id in Reached(run).server.pel && !Reached(run).ledger[id].left.InHand?
    ensures id !in AckedIds(Exec(Reached(run), more).ledger)
  {
    var s := Reached(run);
    assert id in s.ledger;
    OpenMeansPending(s, id);
    RunKeepsAccount(s, more, id);
  }

  /** No run forgets a delivered entry, and a fate once settled stays settled: nothing acknowledged, discarded or dropped comes back. */
  lemma {:induction false} FatesAreFinal(run: seq<Step>, more: seq<Step>, id: nat)
    requires id in Reached(run).ledger
    ensures var s, t := Reached(run), Exec(Reached(run), more);
            && id in t.ledger
            && (id !in s.server.pel ==> id !in t.server.pel && t.ledger[id].fate == s.ledger[id].fate)
  {
    var s, t := Reached(run), Exec(Reached(run), more);
    OpenMeansPending(s, id);
    RunKeepsAccount(s, more, id);
    OpenMeansPending(t, id);
  }

  // ------------------------------------------------------------------------------------------
  // Reclaim
  // ------------------------------------------------------------------------------------------

  /**
   Reclaim under races: whatever ran between XPENDING, the XRANGEs and XCLAIM, ownership moves exactly for the
   admitted entries that are still pending, still in the stream and still idle; each was held by another consumer at
   the scan and is held by another at the claim, and its hint is one the claimant accepts.
   */
  lemma ReclaimIsSafe(run: seq<Step>, c: Consumer, id: nat)
    requires c in Reached(run).nodes && Reached(run).nodes[c].phase.Inspecting?
    requires Reached(run).nodes[c].phase.next == |Reached(run).nodes[c].phase.rows|
    requires id in Reached(run).server.pel
    ensures var s := Reached(run);
            var t, Node(exposure, Inspecting(rows, next, claimable)) := Do(s, Act(c, ClaimNow)), s.nodes[c];
            && (id in t.server.pel && t.server.pel[id] != s.server.pel[id] ==>
                  && t.server.pel[id] == Owned(c, s.server.now)
                  && s.server.pel[id].owner != c
                  && exposure.Accepts(s.server.log[id].hint)
                  && exists j :: 0 <= j < |rows| && rows[j].id == id && rows[j].owner != c && rows[j].idle >= RECLAIM_MIN_IDLE_MS)
            && (id in claimable && s.server.Present(id) && s.server.now - s.server.pel[id].since >= RECLAIM_MIN_IDLE_MS <==>
                  id in t.server.pel && t.server.pel[id] != s.server.pel[id])
            && (id !in t.server.pel <==> id in claimable && !s.server.Present(id))
  {
    var s := Reached(run);
    assert NodeOk(s, c);
    InspectedIsFairGame(s, c);
    var Node(exposure, Inspecting(rows, next, claimable)) := s.nodes[c];
    if id in claimable {
      assert Inspected(s.server.log, c, exposure, rows, next, id);
    }
    ClaimEffect(s, c, id);
  }

  lemma ClaimEffect(s: Sys, c: Consumer, id: nat)
    requires s.server.Valid() && c in s.nodes && s.nodes[c].phase.Inspecting? && id in s.server.pel
    requires |s.nodes[c].phase.rows| <= s.nodes[c].phase.next
    requires id in s.nodes[c].phase.claimable ==> s.server.pel[id].owner != c
    ensures var t, claimable := Do(s, Act(c, ClaimNow)), s.nodes[c].phase.claimable;
            && (id in claimable && s.server.Present(id) && s.server.now - s.server.pel[id].since >= RECLAIM_MIN_IDLE_MS <==>
                  id in t.server.pel && t.server.pel[id] != s.server.pel[id])
            && (id in t.server.pel && t.server.pel[id] != s.server.pel[id] ==> t.server.pel[id] == Owned(c, s.server.now))
            && (id !in t.server.pel <==> id in claimable && !s.server.Present(id))
  {
  }

  /** Between any two handovers of one entry the idle bound has passed once for every handover in between, in every run. */
  lemma HandoversAreSpaced(run: seq<Step>, id: nat, j: nat, k: nat)
    requires id in Reached(run).ledger && j <= k <= |Reached(run).ledger[id].claims|
    ensures var a := Reached(run).ledger[id];
            SinceAfter(a.readAt, a.claims, k) >= SinceAfter(a.readAt, a.claims, j) + (k - j) * RECLAIM_MIN_IDLE_MS
  {
    var s := Reached(run);
    assert AccountOk(s, id);
    var a := s.ledger[id];
    ChainIsSpaced(a.reader, a.readAt, a.claims, s.server.log[id], j, k);
  }

  lemma LinkIsSpaced(reader: Consumer, readAt: nat, claims: seq<Claim>, entry: Entry, k: nat)
    requires Chained(reader, readAt, claims, entry) && 0 < k <= |claims|
    ensures SinceAfter(readAt, claims, k) >= SinceAfter(readAt, claims, k - 1) + RECLAIM_MIN_IDLE_MS
  {
    assert Handover(reader, readAt, claims, k - 1, entry);
  }

  lemma {:induction false} ChainIsSpaced(reader: Consumer, readAt: nat, claims: seq<Claim>, entry: Entry, j: nat, k: nat)
    requires Chained(reader, readAt, claims, entry) && j <= k <= |claims|
    ensures SinceAfter(readAt, claims, k) >= SinceAfter(readAt, claims, j) + (k - j) * RECLAIM_MIN_IDLE_MS
    decreases k - j
  {
    if j < k {
      ChainIsSpaced(reader, readAt, claims, entry, j, k - 1);
      LinkIsSpaced(reader, readAt, claims, entry, k);
      assert (k - j) * RECLAIM_MIN_IDLE_MS == (k - 1 - j) * RECLAIM_MIN_IDLE_MS + RECLAIM_MIN_IDLE_MS;
    }
  }

  // ------------------------------------------------------------------------------------------
  // Removing consumers
  // ------------------------------------------------------------------------------------------

  /**
   Over every run, the reaper discards no entry that was pending when it looked: everything a reap discards was handed
   to the removed consumer at or after the XINFO the reap acts on.
   */
  lemma ReaperSparesWhatItSaw(run: seq<Step>, id: nat, at: nat)
    requires id in Reached(run).ledger && Reached(run).ledger[id].fate == Discarded(Reaper(at))
    ensures Reached(run).ledger[id].Since() >= at
  {
    assert AccountOk(Reached(run), id);
  }

  /**
   "A consumer holding pending entries is never removed" fails in one race, and in no other way: a reap step discards
   work exactly when its row passes the guard and the consumer holds something, and all of that was handed over since the scan.
   */
  lemma ReapDiscardsExactly(run: seq<Step>, c: Consumer, name: Consumer)
    requires c in Reached(run).nodes && Reached(run).nodes[c].phase.Reaping? && name in Reached(run).nodes[c].phase.unseen
    ensures var s, t := Reached(run), Do(Reached(run), Act(c, ReapNext(name)));
            var Reaping(at, unseen) := s.nodes[c].phase;
            && (t.deleted > s.deleted <==> Reapable(c, name, unseen[name]) && exists id :: id in s.server.pel && s.server.pel[id].owner == name)
            && (t.deleted > s.deleted ==> EmptySince(s.server, at, name))
  {
    var s := Reached(run);
    var Reaping(at, unseen) := s.nodes[c].phase;
    assert NodeOk(s, c);
    if Reapable(c, name, unseen[name]) { assert EmptySince(s.server, at, name); }
    HoldsNothing(s.server, name);
  }

  /** The race is open whenever a reapable consumer is a live node: one read by it between the two commands is lost. */
  lemma ReaperRace(run: seq<Step>, c: Consumer, name: Consumer)
    requires var s := Reached(run);
             && c in s.nodes && s.nodes[c].phase.Reaping? && name in s.nodes[c].phase.unseen
             && Reapable(c, name, s.nodes[c].phase.unseen[name])
             && name in s.nodes && s.nodes[name].phase.Ready? && s.server.ReadRange(1).0 < |s.server.log|
    ensures var s := Reached(run);
            var lo, t := s.server.ReadRange(1).0, Exec(s, [Act(name, Read(1)), Act(c, ReapNext(name))]);
            lo in DiscardedIds(t.ledger) && lo !in s.ledger
  {
    var s := Reached(run);
    var read, reap := Act(name, Read(1)), Act(c, ReapNext(name));
    OneMore(s, [], read);
    OneMore(s, [] + [read], reap);
    assert [] + [read] + [reap] == [read, reap];
    StepKeepsInv(s, read);
    FreshIds(s, s.server.ReadRange(1).0, s.server.ReadRange(1).1);
    ReapTakesTheRead(s, c, name);
  }

  lemma ReapTakesTheRead(s: Sys, c: Consumer, name: Consumer)
    requires s.server.Valid() && c in s.nodes && s.nodes[c].phase.Reaping? && name in s.nodes[c].phase.unseen
    requires Reapable(c, name, s.nodes[c].phase.unseen[name]) && name in s.nodes && s.nodes[name].phase.Ready?
    requires s.server.ReadRange(1).0 < |s.server.log| && Do(s, Act(name, Read(1))).server.Valid()
    ensures s.server.ReadRange(1).0 in DiscardedIds(Do(Do(s, Act(name, Read(1))), Act(c, ReapNext(name))).ledger)
  {
    var lo, m := s.server.ReadRange(1).0, Do(s, Act(name, Read(1)));
    assert m.server.pel[lo] == Owned(name, s.server.now);
    assert lo in m.server.Held(name);
  }

  /** A departing node discards exactly what it holds, so it discards nothing exactly when it holds nothing. */
  lemma DepartureDiscardsWhatItHolds(run: seq<Step>, c: Consumer)
    requires c in Reached(run).nodes && Reached(run).nodes[c].phase.Ready?
    ensures var s := Reached(run);
            var t := Do(s, Act(c, Depart));
            && DiscardedIds(t.ledger) - DiscardedIds(s.ledger) == s.server.Held(c)
            && t.server.pel == s.server.pel - s.server.Held(c)
            && (t.deleted == s.deleted <==> forall id :: id in s.server.pel ==> s.server.pel[id].owner != c)
  {
    var s := Reached(run);
    forall id | id in s.ledger ensures s.ledger[id].fate.Open? <==> id in s.server.pel {
      OpenMeansPending(s, id);
    }
    DepartEffect(s, c);
    HoldsNothing(s.server, c);
  }

  lemma DepartEffect(s: Sys, c: Consumer)
    requires s.server.Valid() && c in s.nodes && s.nodes[c].phase.Ready? && s.server.pel.Keys <= s.ledger.Keys
    requires forall id :: id in s.ledger ==> (s.ledger[id].fate.Open? <==> id in s.server.pel)
    ensures var t := Do(s, Act(c, Depart));
            && DiscardedIds(t.ledger) - DiscardedIds(s.ledger) == s.server.Held(c)
            && t.server.pel == s.server.pel - s.server.Held(c)
            && t.deleted == s.deleted + |s.server.Held(c)|
  {
  }

  lemma HoldsNothing(server: Server, c: Consumer)
    ensures |server.Held(c)| == 0 <==> forall id :: id in server.pel ==> server.pel[id].owner != c
  {
    if |server.Held(c)| == 0 {
      forall id | id in server.pel ensures server.pel[id].owner != c {
        assert id !in server.Held(c);
      }
    } else {
      var id :| id in server.Held(c);
    }
  }

  /** A run grows at its end. */
  lemma {:induction false} OneMore(s: Sys, run: seq<Step>, step: Step)
    requires Inv(s)
    ensures Exec(s, run + [step]) == Do(Exec(s, run), step)
    decreases |run|
  {
    if run == [] {
      StepKeepsInv(s, step);
      assert run + [step] == [step];
      assert Exec(s, [step]) == Exec(Do(s, step), [step][1..]);
    } else {
      StepKeepsInv(s, run[0]);
      assert (run + [step])[1..] == run[1..] + [step];
      OneMore(Do(s, run[0]), run[1..], step);
    }
  }

  const GENERAL_NODE := ExposureSet([GENERAL])
  const REFUSED := Entry(Some("inference"), true)

  lemma GeneralRefuses()
    ensures !GENERAL_NODE.Accepts(REFUSED.hint) && !Wanted(REFUSED, GENERAL_NODE)
  {
    assert !GENERAL.ShouldProcess(Some("inference"));
  }

  /** One general node and one inference command, on the way through the node's hands. */
  function Served(log: seq<Entry>, cursor: nat, pel: map<nat, Owned>, seen: map<Consumer, nat>, phase: Phase, ledger: map<nat, Account>, deleted: nat): Sys {
    Sys(Server(0, log, 0, cursor, pel, seen), map["a" := Node(GENERAL_NODE, phase)], ledger, deleted)
  }

  const STARTED := Served([], 0, map[], map[], Ready, map[], 0)
  const PUBLISHED := Served([REFUSED], 0, map[], map[], Ready, map[], 0)
  const READ := Served([REFUSED], 1, map[0 := Owned("a", 0)], map["a" := 0], Holding(0, 1), map[0 := Account("a", 0, [], InHand, Open)], 0)
  const SWEPT := Served([REFUSED], 1, map[0 := Owned("a", 0)], map["a" := 0], Ready, map[0 := Account("a", 0, [], Refused(GENERAL_NODE), Open)], 0)
  const DEPARTED := Served([REFUSED], 1, map[], map[], Down, map[0 := Account("a", 0, [], Refused(GENERAL_NODE), Discarded(Departure))], 1)

  lemma OneNodePublishes()
    ensures Do(INITIAL, Start("a", GENERAL_NODE)) == STARTED && Do(STARTED, Publish(REFUSED)) == PUBLISHED
  {
  }

  lemma OneNodeReads()
    ensures PUBLISHED.server.Valid() && Do(PUBLISHED, Act("a", Read(1))) == READ
  {
    assert PUBLISHED.server.ReadRange(1) == (0, 1);
    assert Span(0, 1, Owned("a", 0)) == map[0 := Owned("a", 0)];
    var account := Account("a", 0, [], InHand, Open);
    assert Span(0, 1, account) == map[0 := account];
  }

  lemma OneNodeSweeps()
    ensures READ.server.Valid() && Do(READ, Act("a", AckSweep)) == SWEPT
  {
    GeneralRefuses();
    assert AckIds(READ.server, GENERAL_NODE, 0, 1) == {};
    assert READ.server.Ack({}).pel == READ.server.pel;
    assert Released(READ, GENERAL_NODE, 0, 1, Finished) == SWEPT.ledger;
    assert Closed(SWEPT.ledger, {}, Acked("a", GENERAL_NODE)) == SWEPT.ledger;
  }

  lemma OneNodeDeparts()
    ensures SWEPT.server.Valid() && Do(SWEPT, Act("a", Depart)) == DEPARTED
  {
    assert SWEPT.server.Held("a") == {0};
    assert Closed(SWEPT.ledger, {0}, Discarded(Departure)) == DEPARTED.ledger;
    assert SWEPT.server.DelConsumer("a") == DEPARTED.server;
  }

  const LOSING_RUN: seq<Step> := [] + [Start("a", GENERAL_NODE)] + [Publish(REFUSED)] + [Act("a", Read(1))] + [Act("a", AckSweep)] + [Act("a", Depart)]

  /**
   "Anything still held is left for another node to reclaim" is not what departure does: a general node that reads one
   inference command leaves it unacknowledged for others, departs, and the command is gone from the pending list.
   */
  lemma DepartureLosesRefusedWork()
    ensures Reached(LOSING_RUN) == DEPARTED
  {
    var run: seq<Step> := [];
    OneMore(INITIAL, run, Start("a", GENERAL_NODE));
    OneMore(INITIAL, run + [Start("a", GENERAL_NODE)], Publish(REFUSED));
    OneMore(INITIAL, run + [Start("a", GENERAL_NODE)] + [Publish(REFUSED)], Act("a", Read(1)));
    OneMore(INITIAL, run + [Start("a", GENERAL_NODE)] + [Publish(REFUSED)] + [Act("a", Read(1))], Act("a", AckSweep));
    OneMore(INITIAL, run + [Start("a", GENERAL_NODE)] + [Publish(REFUSED)] + [Act("a", Read(1))] + [Act("a", AckSweep)], Act("a", Depart));
    OneNodePublishes();
    OneNodeReads();
    OneNodeSweeps();
    OneNodeDeparts();
  }

  /** A consumer that read once and then stayed idle for the reap bound, and a second node that has just looked at it. */
  const IDLE_AND_REAPER: seq<Step> :=
    [] + [Start("b", GENERAL_NODE)] + [Act("b", Read(1))] + [Act("b", AckSweep)] + [Elapse(REAP_IDLE_MS)]
       + [Start("a", GENERAL_NODE)] + [Act("a", ScanConsumers)] + [Publish(REFUSED)]

  function Registered(now: nat, phase: Phase): Sys {
    Sys(Server(now, [], 0, 0, map[], map["b" := 0]), map["b" := Node(GENERAL_NODE, phase)], map[], 0)
  }

  const ABOUT_TO_REAP := Sys(Server(REAP_IDLE_MS, [REFUSED], 0, 0, map[], map["b" := 0]),
                             map["b" := Node(GENERAL_NODE, Ready), "a" := Node(GENERAL_NODE, Reaping(REAP_IDLE_MS, map["b" := ConsumerRow(0, REAP_IDLE_MS)]))],
                             map[], 0)

  lemma IdleConsumerRegisters()
    ensures var s := Do(INITIAL, Start("b", GENERAL_NODE));
            && s.server.Valid() && Do(s, Act("b", Read(1))) == Registered(0, Holding(0, 0))
            && Registered(0, Holding(0, 0)).server.Valid() && Do(Registered(0, Holding(0, 0)), Act("b", AckSweep)) == Registered(0, Ready)
  {
    var s := Registered(0, Holding(0, 0));
    assert AckIds(s.server, GENERAL_NODE, 0, 0) == {};
    assert s.server.Ack({}).pel == map[];
    assert Released(s, GENERAL_NODE, 0, 0, Finished) == map[];
  }

  lemma ReaperLooks()
    ensures var s := Do(Do(Registered(0, Ready), Elapse(REAP_IDLE_MS)), Start("a", GENERAL_NODE));
            s.server.Valid() && Do(Do(s, Act("a", ScanConsumers)), Publish(REFUSED)) == ABOUT_TO_REAP
  {
    var s := Do(Do(Registered(0, Ready), Elapse(REAP_IDLE_MS)), Start("a", GENERAL_NODE));
    assert s.server.Held("b") == {};
    assert s.server.Consumers() == map["b" := ConsumerRow(0, REAP_IDLE_MS)];
  }

  /** The race is reachable from the empty system, so the rule does fail in some run. */
  lemma ReaperRaceIsReachable()
    ensures 0 in DiscardedIds(Exec(Reached(IDLE_AND_REAPER), [Act("b", Read(1)), Act("a", ReapNext("b"))]).ledger)
  {
    IdleAndReaperReached();
    assert ABOUT_TO_REAP.server.ReadRange(1) == (0, 1);
    ReaperRace(IDLE_AND_REAPER, "a", "b");
  }

  lemma IdleAndReaperReached()
    ensures Reached(IDLE_AND_REAPER) == ABOUT_TO_REAP
  {
    var r1 := [] + [Start("b", GENERAL_NODE)];
    var r3 := r1 + [Act("b", Read(1))] + [Act("b", AckSweep)];
    var r5 := r3 + [Elapse(REAP_IDLE_MS)] + [Start("a", GENERAL_NODE)];
    OneMore(INITIAL, [], Start("b", GENERAL_NODE));
    OneMore(INITIAL, r1, Act("b", Read(1)));
    OneMore(INITIAL, r1 + [Act("b", Read(1))], Act("b", AckSweep));
    OneMore(INITIAL, r3, Elapse(REAP_IDLE_MS));
    OneMore(INITIAL, r3 + [Elapse(REAP_IDLE_MS)], Start("a", GENERAL_NODE));
    OneMore(INITIAL, r5, Act("a", ScanConsumers));
    OneMore(INITIAL, r5 + [Act("a", ScanConsumers)], Publish(REFUSED));
    IdleConsumerRegisters();
    ReaperLooks();
  }
}
