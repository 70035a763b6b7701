/** The invariant of the delivery protocol, and that every step of every node and of the environment keeps it. */
module DeliveryInvariant {
  import opened Routing
  import opened GroupServer
  import opened Delivery

  /** The claims of an entry form a chain of handovers: to another consumer, never before the idle bound. */
  ghost predicate Chained(reader: Consumer, readAt: nat, claims: seq<Claim>, entry: Entry) {
    forall k :: 0 <= k < |claims| ==> Handover(reader, readAt, claims, k, entry)
  }

  /** Claim `k` takes the entry from the consumer that had it, which had held it for the idle bound. */
  ghost predicate Handover(reader: Consumer, readAt: nat, claims: seq<Claim>, k: nat, entry: Entry)
    requires k < |claims|
  {
    && claims[k].from == OwnerAfter(reader, claims, k) != claims[k].claimant
    && claims[k].at >= SinceAfter(readAt, claims, k) + RECLAIM_MIN_IDLE_MS
    && claims[k].exposure.Accepts(entry.hint)
  }

  ghost predicate FateOk(a: Account, entry: Entry) {
    match a.fate
    case Acked(acker, exposure) => acker == a.reader && Wanted(entry, exposure) && a.left.Finished?
    case Discarded(Reaper(at)) => at <= a.Since()
    case _ => true
  }

  ghost predicate LeftOk(nodes: map<Consumer, Node>, id: nat, a: Account, entry: Entry) {
    match a.left
    case InHand => a.reader in nodes && nodes[a.reader].phase.Holding? && nodes[a.reader].phase.lo <= id < nodes[a.reader].phase.hi
    case Finished => !a.fate.Open?
    case Refused(exposure) => !Wanted(entry, exposure)
    case Interrupted => true
  }

  ghost predicate AccountOk(s: Sys, id: nat)
    requires s.server.Valid()
  {
    && id in s.ledger
    && id < s.server.cursor
    && var a, entry := s.ledger[id], s.server.log[id];
    && (a.fate.Open? <==> id in s.server.pel)
    && (id in s.server.pel ==> s.server.pel[id] == Owned(a.Owner(), a.Since()))
    && a.Since() <= s.server.now
    && Chained(a.reader, a.readAt, a.claims, entry)
    && FateOk(a, entry)
    && LeftOk(s.nodes, id, a, entry)
  }

  /** An id the scan offered and the inspection admitted: held by somebody else, with an accepted hint. */
  ghost predicate Inspected(log: seq<Entry>, c: Consumer, exposure: ExposureSet, rows: seq<PendingRow>, next: nat, id: nat) {
    && id < |log|
    && exposure.Accepts(log[id].hint)
    && exists j :: 0 <= j < next && j < |rows| && rows[j].id == id && rows[j].owner != c && rows[j].idle >= RECLAIM_MIN_IDLE_MS
  }

  ghost predicate RowOk(s: Sys, c: Consumer, row: PendingRow) {
    && row.id in s.ledger
    && row.idle >= RECLAIM_MIN_IDLE_MS
    && (row.owner != c && row.id in s.server.pel ==> s.server.pel[row.id].owner != c)
  }

  ghost predicate EmptySince(s: Server, at: nat, name: Consumer) {
    forall id :: id in s.pel && s.pel[id].owner == name ==> at <= s.pel[id].since
  }

  ghost predicate NodeOk(s: Sys, c: Consumer)
    requires c in s.nodes
  {
    match s.nodes[c].phase
    case Holding(lo, hi) =>
      forall id :: lo <= id < hi ==> id in s.ledger && s.ledger[id].reader == c && s.ledger[id].left.InHand?
    case Inspecting(rows, next, claimable) =>
      && next <= |rows|
      && (forall j :: 0 <= j < |rows| ==> RowOk(s, c, rows[j]))
      && (forall id :: id in claimable ==> Inspected(s.server.log, c, s.nodes[c].exposure, rows, next, id))
    case Reaping(at, unseen) =>
      && at <= s.server.now
      && (forall name :: name in unseen && unseen[name].pending == 0 ==> EmptySince(s.server, at, name))
    case _ => true
  }

  function DiscardedIds(ledger: map<nat, Account>): set<nat> {
    set id | id in ledger && ledger[id].fate.Discarded?
  }

  ghost predicate Inv(s: Sys) {
    && s.server.Valid()
    && (forall id :: id in s.server.pel ==> id in s.ledger)
    && (forall id :: id in s.ledger ==> AccountOk(s, id))
    && (forall c :: c in s.nodes ==> NodeOk(s, c))
    && |DiscardedIds(s.ledger)| == s.deleted
  }

  /** The clock, the log and the trim point may only grow. */
  lemma GrowthKeepsInv(s: Sys, server: Server)
    requires Inv(s) && server == s.server.(now := server.now, log := server.log, trimmed := server.trimmed)
    requires server.now >= s.server.now && s.server.log <= server.log && server.trimmed <= |server.log|
    ensures Inv(s.(server := server))
  {
    var t := s.(server := server);
    forall id | id in t.ledger ensures AccountOk(t, id) {
      assert AccountOk(s, id);
    }
    forall c | c in t.nodes ensures NodeOk(t, c) {
      assert NodeOk(s, c);
      GrowthKeepsNodeOk(s, server, c);
    }
  }

  lemma GrowthKeepsNodeOk(s: Sys, server: Server, c: Consumer)
    requires c in s.nodes && NodeOk(s, c)
    requires server == s.server.(now := server.now, log := server.log, trimmed := server.trimmed)
    requires server.now >= s.server.now && s.server.log <= server.log
    ensures NodeOk(s.(server := server), c)
  {
    var t := s.(server := server);
    match t.nodes[c].phase
    case Inspecting(rows, next, claimable) =>
      forall j | 0 <= j < |rows| ensures RowOk(t, c, rows[j]) {
        assert RowOk(s, c, rows[j]);
      }
    case Reaping(at, unseen) =>
      forall name | name in unseen && unseen[name].pending == 0 ensures EmptySince(server, at, name) {
        assert EmptySince(s.server, at, name);
      }
    case _ =>
  }

  lemma StartKeepsInv(s: Sys, c: Consumer, exposure: ExposureSet)
    requires Inv(s) && (c in s.nodes ==> s.nodes[c].phase.Down?)
    ensures Inv(s.(nodes := s.nodes[c := Node(exposure, Ready)]))
  {
    var t := s.(nodes := s.nodes[c := Node(exposure, Ready)]);
    forall id | id in t.ledger ensures AccountOk(t, id) {
      assert AccountOk(s, id);
    }
    forall d | d in t.nodes ensures NodeOk(t, d) {
      if d != c { StartKeepsNodeOk(s, c, exposure, d); }
    }
  }

  lemma StartKeepsNodeOk(s: Sys, c: Consumer, exposure: ExposureSet, d: Consumer)
    requires d in s.nodes && NodeOk(s, d) && d != c
    ensures NodeOk(s.(nodes := s.nodes[c := Node(exposure, Ready)]), d)
  {
    if s.nodes[d].phase.Inspecting? {
      forall j | 0 <= j < |s.nodes[d].phase.rows| ensures RowOk(s.(nodes := s.nodes[c := Node(exposure, Ready)]), d, s.nodes[d].phase.rows[j]) {
        assert RowOk(s, d, s.nodes[d].phase.rows[j]);
      }
    }
  }

  lemma EnvironmentKeepsInv(s: Sys, step: Step)
    requires Inv(s) && !step.Act?
    ensures Inv(Do(s, step))
  {
    if step.Start? {
      if step.c !in s.nodes || s.nodes[step.c].phase.Down? { StartKeepsInv(s, step.c, step.exposure); }
    } else {
      GrowthKeepsInv(s, Do(s, step).server);
    }
  }

  /** Everything node `c`'s actions can do, as the other nodes see it. */
  ghost predicate Moves(s: Sys, t: Sys, c: Consumer) {
    && s.server.Valid() && t.server.Valid()
    && t.server.log == s.server.log && t.server.now == s.server.now && s.server.cursor <= t.server.cursor
    && (forall id :: id in t.server.pel ==>
          t.server.pel[id] == Owned(c, s.server.now) || (id in s.server.pel && t.server.pel[id] == s.server.pel[id]))
    && (forall id :: id in s.ledger ==> id in t.ledger && t.ledger[id].reader == s.ledger[id].reader)
    && (forall id :: id in s.ledger && s.ledger[id].reader != c ==> t.ledger[id].left == s.ledger[id].left)
    && c in s.nodes && t.nodes.Keys == s.nodes.Keys
    && (forall d :: d in s.nodes && d != c ==> t.nodes[d] == s.nodes[d])
  }

  lemma OthersKeepNodeOk(s: Sys, t: Sys, c: Consumer, d: Consumer)
    requires Moves(s, t, c) && d in s.nodes && d != c && NodeOk(s, d)
    ensures NodeOk(t, d)
  {
    match t.nodes[d].phase
    case Inspecting(rows, next, claimable) =>
      forall j | 0 <= j < |rows| ensures RowOk(t, d, rows[j]) {
        assert RowOk(s, d, rows[j]);
      }
    case Reaping(at, unseen) =>
      forall name | name in unseen && unseen[name].pending == 0 ensures EmptySince(t.server, at, name) {
        assert EmptySince(s.server, at, name);
      }
    case _ =>
  }

  /** An account the action does not touch, whose reader's batch it does not touch either. */
  lemma UntouchedAccountOk(s: Sys, t: Sys, c: Consumer, id: nat)
    requires Moves(s, t, c) && id in s.ledger && AccountOk(s, id)
    requires t.ledger[id] == s.ledger[id]
    requires id in s.server.pel <==> id in t.server.pel
    requires id in s.server.pel ==> t.server.pel[id] == s.server.pel[id]
    requires s.ledger[id].reader == c ==> !s.ledger[id].left.InHand?
    ensures AccountOk(t, id)
  {
  }

  /** An action keeps the invariant once the accounts, its own node and the discard count are seen to. */
  lemma Assemble(s: Sys, t: Sys, c: Consumer)
    requires Inv(s) && Moves(s, t, c) && t.deleted == s.deleted
    requires forall id :: id in t.server.pel ==> id in t.ledger
    requires forall id :: id in t.ledger ==> AccountOk(t, id)
    requires forall id :: id in t.ledger && t.ledger[id].fate.Discarded? <==> id in s.ledger && s.ledger[id].fate.Discarded?
    requires NodeOk(t, c)
    ensures Inv(t)
  {
    forall d | d in t.nodes ensures NodeOk(t, d) {
      if d != c {
        assert NodeOk(s, d);
        OthersKeepNodeOk(s, t, c, d);
      }
    }
    assert DiscardedIds(t.ledger) == DiscardedIds(s.ledger);
  }

  lemma NotInHand(s: Sys, c: Consumer, id: nat)
    requires s.server.Valid() && AccountOk(s, id) && c in s.nodes && !s.nodes[c].phase.Holding?
    ensures s.ledger[id].reader == c ==> !s.ledger[id].left.InHand?
  {
  }

  lemma ReadKeepsInv(s: Sys, c: Consumer, count: nat)
    requires Inv(s) && c in s.nodes && s.nodes[c].phase.Ready?
    ensures Inv(DoRead(s, c, count))
  {
    var t := DoRead(s, c, count);
    var (lo, hi) := s.server.ReadRange(count);
    ReadMoves(s, c, count);
    forall id | id in t.ledger ensures AccountOk(t, id) {
      if lo <= id < hi {
        FreshAccountOk(s, c, count, id);
      } else {
        NotInHand(s, c, id);
        UntouchedAccountOk(s, t, c, id);
      }
    }
    FreshIds(s, lo, hi);
    Assemble(s, t, c);
  }

  lemma FreshIds(s: Sys, lo: nat, hi: nat)
    requires Inv(s) && s.server.cursor <= lo
    ensures forall id :: lo <= id < hi ==> id !in s.ledger && id !in s.server.pel
  {
    forall id | id in s.ledger ensures id < lo {
      assert AccountOk(s, id);
    }
  }

  lemma ReadMoves(s: Sys, c: Consumer, count: nat)
    requires Inv(s) && c in s.nodes
    ensures Moves(s, DoRead(s, c, count), c)
  {
    var (lo, hi) := s.server.ReadRange(count);
    FreshIds(s, lo, hi);
    s.server.CommandsKeepValid(c, count, 0, {});
    var t := DoRead(s, c, count);
    assert forall id :: id in s.ledger ==> id in t.ledger && t.ledger[id] == s.ledger[id];
  }

  lemma FreshAccountOk(s: Sys, c: Consumer, count: nat, id: nat)
    requires Inv(s) && c in s.nodes && s.server.ReadRange(count).0 <= id < s.server.ReadRange(count).1
    requires DoRead(s, c, count).server.Valid()
    ensures AccountOk(DoRead(s, c, count), id)
  {
  }

  /** What letting go does to one entry of the batch: still open and interrupted or refused, or no longer pending. */
  ghost predicate LetGo(s: Sys, t: Sys, c: Consumer, id: nat)
    requires s.server.Valid() && c in s.nodes && id in s.ledger && id in t.ledger && id < |s.server.log|
  {
    var a, b, x := s.ledger[id], t.ledger[id], s.nodes[c].exposure;
    && b == a.(left := b.left, fate := b.fate)
    && match b.left
       case InHand => false
       case Finished => id !in t.server.pel && Wanted(s.server.log[id], x) && b.fate == (if id in s.server.pel then Acked(c, x) else a.fate)
       case Refused(y) => b.fate == a.fate && (id in t.server.pel <==> id in s.server.pel) && y == x && !Wanted(s.server.log[id], x)
       case Interrupted => b.fate == a.fate && (id in t.server.pel <==> id in s.server.pel)
  }

  ghost predicate Releases(s: Sys, t: Sys, c: Consumer) {
    && Inv(s) && c in s.nodes && s.nodes[c].phase.Holding?
    && c in t.nodes
    && t == t.(nodes := s.nodes[c := t.nodes[c]], deleted := s.deleted, server := s.server.(pel := t.server.pel))
    && (t.nodes[c].phase.Ready? || t.nodes[c].phase.Down?)
    && t.ledger.Keys == s.ledger.Keys
    && (forall id :: id in t.server.pel ==> id in s.server.pel && t.server.pel[id] == s.server.pel[id])
    && var phase := s.nodes[c].phase;
    && (forall id :: id in s.ledger && !(phase.lo <= id < phase.hi) ==>
          t.ledger[id] == s.ledger[id] && (id in t.server.pel <==> id in s.server.pel))
    && (forall id: nat :: phase.lo <= id < phase.hi ==> ReleasesOne(s, t, c, id))
  }

  ghost predicate ReleasesOne(s: Sys, t: Sys, c: Consumer, id: nat)
    requires s.server.Valid() && c in s.nodes && s.nodes[c].phase.Holding? && t.ledger.Keys == s.ledger.Keys
  {
    id in s.ledger && id < |s.server.log| && LetGo(s, t, c, id)
  }

  lemma BatchId(s: Sys, c: Consumer, id: nat)
    requires Inv(s) && c in s.nodes && s.nodes[c].phase.Holding? && s.nodes[c].phase.lo <= id < s.nodes[c].phase.hi
    ensures id in s.ledger && id < |s.server.log| && s.ledger[id].reader == c && s.ledger[id].left.InHand?
  {
    assert NodeOk(s, c);
    assert id in s.ledger;
    assert AccountOk(s, id);
  }

  lemma AckReleases(s: Sys, c: Consumer)
    requires Inv(s) && c in s.nodes && s.nodes[c].phase.Holding?
    ensures Releases(s, DoAck(s, c), c)
  {
    forall id: nat | s.nodes[c].phase.lo <= id < s.nodes[c].phase.hi
      ensures ReleasesOne(s, DoAck(s, c), c, id)
    {
      BatchId(s, c, id);
      AckLetsGo(s, c, id);
    }
  }

  lemma AckLetsGo(s: Sys, c: Consumer, id: nat)
    requires s.server.Valid() && c in s.nodes && s.nodes[c].phase.Holding?
    requires s.nodes[c].phase.lo <= id < s.nodes[c].phase.hi && id in s.ledger && id < |s.server.log|
    ensures LetGo(s, DoAck(s, c), c, id)
  {
  }

  lemma AckFailsReleases(s: Sys, c: Consumer)
    requires Inv(s) && c in s.nodes && s.nodes[c].phase.Holding?
    ensures Releases(s, DoAckFails(s, c), c)
  {
    forall id: nat | s.nodes[c].phase.lo <= id < s.nodes[c].phase.hi
      ensures ReleasesOne(s, DoAckFails(s, c), c, id)
    {
      BatchId(s, c, id);
      AckFailsLetsGo(s, c, id);
    }
  }

  lemma AckFailsLetsGo(s: Sys, c: Consumer, id: nat)
    requires s.server.Valid() && c in s.nodes && s.nodes[c].phase.Holding?
    requires s.nodes[c].phase.lo <= id < s.nodes[c].phase.hi && id in s.ledger && id < |s.server.log|
    ensures LetGo(s, DoAckFails(s, c), c, id)
  {
  }

  lemma CrashReleases(s: Sys, c: Consumer)
    requires Inv(s) && c in s.nodes && s.nodes[c].phase.Holding?
    ensures Releases(s, DoCrash(s, c), c)
  {
    forall id: nat | s.nodes[c].phase.lo <= id < s.nodes[c].phase.hi
      ensures ReleasesOne(s, DoCrash(s, c), c, id)
    {
      BatchId(s, c, id);
      CrashLetsGo(s, c, id);
    }
  }

  lemma CrashLetsGo(s: Sys, c: Consumer, id: nat)
    requires s.server.Valid() && c in s.nodes && s.nodes[c].phase.Holding?
    requires s.nodes[c].phase.lo <= id < s.nodes[c].phase.hi && id in s.ledger && id < |s.server.log|
    ensures LetGo(s, DoCrash(s, c), c, id)
  {
  }

  /** Letting a batch go only takes entries off the pending list. */
  lemma ReleaseKeepsServer(s: Sys, t: Sys, c: Consumer)
    requires Releases(s, t, c)
    ensures s.server.Valid() && t.server.Valid()
    ensures t.server.log == s.server.log && t.server.now == s.server.now && s.server.cursor == t.server.cursor
  {
  }

  /** It touches no account another node read. */
  lemma ReleaseKeepsOthers(s: Sys, t: Sys, c: Consumer, id: nat)
    requires Releases(s, t, c) && id in s.ledger
    ensures t.ledger[id].reader == s.ledger[id].reader
    ensures s.ledger[id].reader != c ==> t.ledger[id].left == s.ledger[id].left
  {
    if s.nodes[c].phase.lo <= id < s.nodes[c].phase.hi {
      BatchId(s, c, id);
      assert ReleasesOne(s, t, c, id);
    }
  }

  lemma ReleaseMoves(s: Sys, t: Sys, c: Consumer)
    requires Releases(s, t, c)
    ensures Moves(s, t, c)
  {
    ReleaseKeepsServer(s, t, c);
    forall id | id in s.ledger
      ensures t.ledger[id].reader == s.ledger[id].reader && (s.ledger[id].reader != c ==> t.ledger[id].left == s.ledger[id].left)
    {
      ReleaseKeepsOthers(s, t, c, id);
    }
  }

  lemma ReleasedAccountOk(s: Sys, t: Sys, c: Consumer, id: nat)
    requires Releases(s, t, c) && Moves(s, t, c) && id in s.ledger
    ensures AccountOk(t, id)
  {
    assert AccountOk(s, id);
    if s.nodes[c].phase.lo <= id < s.nodes[c].phase.hi {
      assert ReleasesOne(s, t, c, id);
      LetGoAccountOk(s, t, c, id);
    } else {
      OutsideBatch(s, c, id);
      UntouchedAccountOk(s, t, c, id);
    }
  }

  lemma OutsideBatch(s: Sys, c: Consumer, id: nat)
    requires s.server.Valid() && AccountOk(s, id) && c in s.nodes && s.nodes[c].phase.Holding?
    requires !(s.nodes[c].phase.lo <= id < s.nodes[c].phase.hi)
    ensures s.ledger[id].reader == c ==> !s.ledger[id].left.InHand?
  {
  }

  lemma LetGoAccountOk(s: Sys, t: Sys, c: Consumer, id: nat)
    requires s.server.Valid() && t.server.Valid() && c in s.nodes && AccountOk(s, id) && id in t.ledger
    requires LetGo(s, t, c, id)
    requires t.server == s.server.(pel := t.server.pel)
    requires id in t.server.pel ==> id in s.server.pel && t.server.pel[id] == s.server.pel[id]
    requires s.nodes[c].phase.Holding? && s.ledger[id].reader == c && s.ledger[id].left.InHand?
    ensures AccountOk(t, id)
  {
  }

  lemma ReleaseKeepsInv(s: Sys, t: Sys, c: Consumer)
    requires Releases(s, t, c)
    ensures Inv(t)
  {
    ReleaseMoves(s, t, c);
    forall id | id in t.ledger
      ensures AccountOk(t, id) && t.ledger[id].fate.Discarded? == s.ledger[id].fate.Discarded?
    {
      ReleasedAccountOk(s, t, c, id);
      FateSurvives(s, t, c, id);
    }
    Assemble(s, t, c);
  }

  lemma FateSurvives(s: Sys, t: Sys, c: Consumer, id: nat)
    requires Releases(s, t, c) && id in s.ledger
    ensures t.ledger[id].fate.Discarded? == s.ledger[id].fate.Discarded?
  {
    assert AccountOk(s, id);
    if s.nodes[c].phase.lo <= id < s.nodes[c].phase.hi {
      assert ReleasesOne(s, t, c, id);
    }
  }

  /** A phase change of a node that holds no batch, before or after. */
  lemma PhaseKeepsInv(s: Sys, c: Consumer, phase: Phase)
    requires Inv(s) && c in s.nodes && !s.nodes[c].phase.Holding?
    requires NodeOk(SetPhase(s, c, phase), c) && !phase.Holding?
    ensures Inv(SetPhase(s, c, phase))
  {
    var t := SetPhase(s, c, phase);
    forall id | id in t.ledger ensures AccountOk(t, id) {
      NotInHand(s, c, id);
      UntouchedAccountOk(s, t, c, id);
    }
    Assemble(s, t, c);
  }

  lemma {:induction false} PendingRows(s: Server, lo: nat, count: nat)
    requires s.Valid()
    ensures forall row :: row in s.Pending(RECLAIM_MIN_IDLE_MS, lo, count) ==>
              row.id in s.pel && row.owner == s.pel[row.id].owner && row.idle == s.now - s.pel[row.id].since >= RECLAIM_MIN_IDLE_MS
    decreases s.cursor - lo
  {
    if s.cursor <= lo || count == 0 {
    } else if lo in s.pel && s.now - s.pel[lo].since >= RECLAIM_MIN_IDLE_MS {
      PendingRows(s, lo + 1, count - 1);
    } else {
      PendingRows(s, lo + 1, count);
    }
  }

  lemma ScanKeepsInv(s: Sys, c: Consumer)
    requires Inv(s) && c in s.nodes && s.nodes[c].phase.Ready?
    ensures Inv(DoAct(s, c, ScanPending)) && Inv(DoAct(s, c, ScanConsumers))
  {
    var rows := s.server.Pending(RECLAIM_MIN_IDLE_MS, 0, RECLAIM_BATCH);
    PendingRows(s.server, 0, RECLAIM_BATCH);
    forall j | 0 <= j < |rows| ensures RowOk(DoAct(s, c, ScanPending), c, rows[j]) {
      assert rows[j] in rows;
    }
    PhaseKeepsInv(s, c, Inspecting(rows, 0, {}));
    var unseen := s.server.Consumers();
    forall name | name in unseen && unseen[name].pending == 0 ensures EmptySince(s.server, s.server.now, name) {
      assert s.server.Held(name) == {};
      forall id | id in s.server.pel ensures s.server.pel[id].owner != name {
        assert id !in s.server.Held(name);
      }
    }
    PhaseKeepsInv(s, c, Reaping(s.server.now, unseen));
  }

  lemma InspectKeepsInv(s: Sys, c: Consumer, answered: bool)
    requires Inv(s) && c in s.nodes && s.nodes[c].phase.Inspecting?
    ensures Inv(DoInspect(s, c, answered))
  {
    var t := DoInspect(s, c, answered);
    var Inspecting(rows, next, claimable) := s.nodes[c].phase;
    if next < |rows| {
      assert RowOk(s, c, rows[next]);
      forall j | 0 <= j < |rows| ensures RowOk(t, c, rows[j]) {
        assert RowOk(s, c, rows[j]);
      }
      PhaseKeepsInv(s, c, t.nodes[c].phase);
    }
  }

  /** What the inspection leaves true of every id about to be claimed. */
  ghost predicate FairGame(s: Sys, c: Consumer, exposure: ExposureSet, ids: set<nat>) {
    forall id :: id in ids ==>
      && id < |s.server.log| && exposure.Accepts(s.server.log[id].hint)
      && (id in s.server.pel ==> s.server.pel[id].owner != c)
  }

  lemma InspectedIsFairGame(s: Sys, c: Consumer)
    requires c in s.nodes && s.nodes[c].phase.Inspecting? && NodeOk(s, c)
    ensures FairGame(s, c, s.nodes[c].exposure, s.nodes[c].phase.claimable)
  {
    var Inspecting(rows, next, claimable) := s.nodes[c].phase;
    forall id | id in claimable
      ensures id < |s.server.log| && s.nodes[c].exposure.Accepts(s.server.log[id].hint)
      ensures id in s.server.pel ==> s.server.pel[id].owner != c
    {
      assert Inspected(s.server.log, c, s.nodes[c].exposure, rows, next, id);
      var j :| 0 <= j < next && j < |rows| && rows[j].id == id && rows[j].owner != c && rows[j].idle >= RECLAIM_MIN_IDLE_MS;
      assert RowOk(s, c, rows[j]);
    }
  }

  lemma XclaimMoves(s: Sys, c: Consumer, exposure: ExposureSet, ids: set<nat>)
    requires s.server.Valid() && c in s.nodes
    ensures Moves(s, DoXclaim(s, c, exposure, ids), c)
  {
    s.server.CommandsKeepValid(c, 0, RECLAIM_MIN_IDLE_MS, ids);
  }

  lemma XclaimAccountOk(s: Sys, c: Consumer, exposure: ExposureSet, ids: set<nat>, id: nat)
    requires s.server.Valid() && AccountOk(s, id) && c in s.nodes && !s.nodes[c].phase.Holding?
    requires FairGame(s, c, exposure, ids) && Moves(s, DoXclaim(s, c, exposure, ids), c)
    ensures AccountOk(DoXclaim(s, c, exposure, ids), id)
    ensures DoXclaim(s, c, exposure, ids).ledger[id].fate.Discarded? == s.ledger[id].fate.Discarded?
  {
    var t := DoXclaim(s, c, exposure, ids);
    if id in s.server.Claimable(RECLAIM_MIN_IDLE_MS, ids) {
      ChainExtends(s.ledger[id], s.server.log[id], Claim(c, s.server.pel[id].owner, s.server.now, exposure));
    } else if id !in s.server.Phantoms(ids) {
      NotInHand(s, c, id);
      UntouchedAccountOk(s, t, c, id);
    }
  }

  lemma ChainExtends(a: Account, entry: Entry, claim: Claim)
    requires Chained(a.reader, a.readAt, a.claims, entry)
    requires claim.from == a.Owner() != claim.claimant && claim.at >= a.Since() + RECLAIM_MIN_IDLE_MS && claim.exposure.Accepts(entry.hint)
    ensures Chained(a.reader, a.readAt, a.claims + [claim], entry)
  {
    var longer := a.claims + [claim];
    forall k | 0 <= k < |longer| ensures Handover(a.reader, a.readAt, longer, k, entry) {
      if k < |a.claims| {
        assert Handover(a.reader, a.readAt, a.claims, k, entry);
      }
    }
  }

  lemma XclaimKeepsInv(s: Sys, c: Consumer, exposure: ExposureSet, ids: set<nat>)
    requires Inv(s) && c in s.nodes && s.nodes[c].phase.Ready? && FairGame(s, c, exposure, ids)
    ensures Inv(DoXclaim(s, c, exposure, ids))
  {
    var t := DoXclaim(s, c, exposure, ids);
    XclaimMoves(s, c, exposure, ids);
    forall id | id in t.ledger
      ensures AccountOk(t, id) && t.ledger[id].fate.Discarded? == s.ledger[id].fate.Discarded?
    {
      assert AccountOk(s, id);
      XclaimAccountOk(s, c, exposure, ids, id);
    }
    Assemble(s, t, c);
  }

  lemma ClaimKeepsInv(s: Sys, c: Consumer)
    requires Inv(s) && c in s.nodes && s.nodes[c].phase.Inspecting?
    ensures Inv(DoClaim(s, c))
  {
    var Node(exposure, Inspecting(rows, next, claimable)) := s.nodes[c];
    if |rows| <= next {
      InspectedIsFairGame(s, c);
      PhaseKeepsInv(s, c, Ready);
      if claimable != {} { XclaimKeepsInv(SetPhase(s, c, Ready), c, exposure, claimable); }
    }
  }

  lemma DeleteMoves(s: Sys, c: Consumer, name: Consumer, remover: Remover)
    requires s.server.Valid() && c in s.nodes
    ensures Moves(s, DoDelete(s, name, remover), c)
  {
  }

  lemma DeletedAccountOk(s: Sys, name: Consumer, remover: Remover, id: nat)
    requires s.server.Valid() && AccountOk(s, id)
    requires remover.Reaper? ==> EmptySince(s.server, remover.scannedAt, name)
    requires DoDelete(s, name, remover).server.Valid()
    ensures AccountOk(DoDelete(s, name, remover), id)
    ensures var t := DoDelete(s, name, remover);
            t.ledger[id].fate.Discarded? <==> s.ledger[id].fate.Discarded? || id in s.server.Held(name)
    ensures id in s.server.Held(name) ==> s.ledger[id].fate.Open?
  {
  }

  /** Deleting a consumer closes exactly what it holds, and the count of discarded entries grows by the reply. */
  lemma DeleteKeepsInv(s: Sys, c: Consumer, name: Consumer, remover: Remover)
    requires Inv(s) && c in s.nodes && !s.nodes[c].phase.Holding?
    requires remover.Reaper? ==> EmptySince(s.server, remover.scannedAt, name)
    ensures Inv(DoDelete(s, name, remover))
  {
    var t := DoDelete(s, name, remover);
    var held := s.server.Held(name);
    DeleteMoves(s, c, name, remover);
    forall id | id in t.ledger
      ensures AccountOk(t, id)
      ensures t.ledger[id].fate.Discarded? <==> s.ledger[id].fate.Discarded? || id in held
      ensures id in held ==> s.ledger[id].fate.Open?
    {
      assert AccountOk(s, id);
      DeletedAccountOk(s, name, remover, id);
    }
    forall d | d in t.nodes ensures NodeOk(t, d) {
      if d != c { OthersKeepNodeOk(s, t, c, d); } else { SelfAfterDelete(s, c, name, remover); }
    }
    DiscardedGrows(s.ledger, t.ledger, held);
  }

  lemma DiscardedGrows(before: map<nat, Account>, after: map<nat, Account>, held: set<nat>)
    requires after.Keys == before.Keys && held <= before.Keys
    requires forall id :: id in after ==> (after[id].fate.Discarded? <==> before[id].fate.Discarded? || id in held)
    requires forall id :: id in held ==> before[id].fate.Open?
    ensures |DiscardedIds(after)| == |DiscardedIds(before)| + |held|
  {
    assert DiscardedIds(after) == DiscardedIds(before) + held;
    assert DiscardedIds(before) !! held;
  }

  lemma SelfAfterDelete(s: Sys, c: Consumer, name: Consumer, remover: Remover)
    requires Inv(s) && c in s.nodes && !s.nodes[c].phase.Holding?
    ensures NodeOk(DoDelete(s, name, remover), c)
  {
    var t := DoDelete(s, name, remover);
    assert NodeOk(s, c);
    match s.nodes[c].phase
    case Inspecting(rows, next, claimable) =>
      forall j | 0 <= j < |rows| ensures RowOk(t, c, rows[j]) {
        assert RowOk(s, c, rows[j]);
      }
    case Reaping(at, unseen) =>
      forall n | n in unseen && unseen[n].pending == 0 ensures EmptySince(t.server, at, n) {
        assert EmptySince(s.server, at, n);
      }
    case _ =>
  }

  lemma ReapKeepsInv(s: Sys, c: Consumer, name: Consumer)
    requires Inv(s) && c in s.nodes && s.nodes[c].phase.Reaping?
    ensures Inv(DoReap(s, c, name))
  {
    assert NodeOk(s, c);
    var Reaping(at, unseen) := s.nodes[c].phase;
    if unseen == map[] {
      PhaseKeepsInv(s, c, Ready);
    } else if name in unseen {
      var rest := SetPhase(s, c, Reaping(at, unseen - {name}));
      PhaseKeepsInv(s, c, Reaping(at, unseen - {name}));
      if Reapable(c, name, unseen[name]) {
        assert EmptySince(s.server, at, name);
        DeleteKeepsInv(rest, c, name, Reaper(at));
      }
    }
  }

  lemma ReapFailsKeepsInv(s: Sys, c: Consumer, name: Consumer)
    requires Inv(s) && c in s.nodes && s.nodes[c].phase.Reaping?
    ensures Inv(SetPhase(s, c, Reaping(s.nodes[c].phase.at, s.nodes[c].phase.unseen - {name})))
  {
    var Reaping(at, unseen) := s.nodes[c].phase;
    assert NodeOk(s, c);
    PhaseKeepsInv(s, c, Reaping(at, unseen - {name}));
  }

  lemma ActKeepsInv(s: Sys, c: Consumer, action: Action)
    requires Inv(s) && c in s.nodes
    ensures Inv(DoAct(s, c, action))
  {
    var phase := s.nodes[c].phase;
    match action
    case Read(count) => if phase.Ready? { ReadKeepsInv(s, c, count); }
    case AckSweep => if phase.Holding? { AckReleases(s, c); ReleaseKeepsInv(s, DoAck(s, c), c); }
    case AckFails => if phase.Holding? { AckFailsReleases(s, c); ReleaseKeepsInv(s, DoAckFails(s, c), c); }
    case ScanPending => if phase.Ready? { ScanKeepsInv(s, c); }
    case Inspect => if phase.Inspecting? { InspectKeepsInv(s, c, true); }
    case InspectFails => if phase.Inspecting? { InspectKeepsInv(s, c, false); }
    case ClaimNow => if phase.Inspecting? { ClaimKeepsInv(s, c); }
    case ClaimFails => if phase.Inspecting? { PhaseKeepsInv(s, c, Ready); }
    case ReapFails(name) => if phase.Reaping? { ReapFailsKeepsInv(s, c, name); }
    case ScanConsumers => if phase.Ready? { ScanKeepsInv(s, c); }
    case ReapNext(name) => if phase.Reaping? { ReapKeepsInv(s, c, name); }
    case Depart =>
      if phase.Ready? {
        DeleteKeepsInv(s, c, c, Departure);
        PhaseKeepsInv(DoDelete(s, c, Departure), c, Down);
      }
    case Crash =>
      if phase.Holding? {
        CrashReleases(s, c);
        ReleaseKeepsInv(s, DoCrash(s, c), c);
      } else {
        PhaseKeepsInv(s, c, Down);
      }
  }

  lemma StepKeepsInv(s: Sys, step: Step)
    requires Inv(s)
    ensures Inv(Do(s, step))
  {
    match step
    case Act(c, action) => if c in s.nodes { ActKeepsInv(s, c, action); }
    case _ => EnvironmentKeepsInv(s, step);
  }
}
