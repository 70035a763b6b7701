/**
 The delivery protocol of one stream group: any number of nodes read, filter by exposure, acknowledge,
 reclaim orphans, reap idle consumers, depart or crash, and every server command is a step of its own, so
 that the other nodes' steps fall between any two of them. A run is any sequence of steps; a step that is
 not possible leaves the state as it is. The ledger is history: no step reads it.
 */
module Delivery {
  import opened Wrappers
  import opened Routing
  import opened GroupServer

  const RECLAIM_MIN_IDLE_MS: nat := 30_000
  const RECLAIM_BATCH: nat := 10
  const REAP_IDLE_MS: nat := 3_600_000

  /** Where a node is between two of its server commands. */
  datatype Phase =
    | Down
    | Ready
    | Holding(lo: nat, hi: nat)                                              // entries [lo, hi) read, not yet acknowledged
    | Inspecting(rows: seq<PendingRow>, next: nat, claimable: set<nat>)      // after XPENDING, before XCLAIM
    | Reaping(at: nat, unseen: map<Consumer, ConsumerRow>)                     // after XINFO; the rows still to look at

  datatype Node = Node(exposure: ExposureSet, phase: Phase)

  /** How an entry left its reader's hands: its sweep acknowledged it, refused it, or never got that far. */
  datatype Leaving = InHand | Finished | Refused(exposure: ExposureSet) | Interrupted

  datatype Remover = Departure | Reaper(scannedAt: nat)

  datatype Fate = Open | Acked(acker: Consumer, exposure: ExposureSet) | Discarded(remover: Remover) | Dropped

  datatype Claim = Claim(claimant: Consumer, from: Consumer, at: nat, exposure: ExposureSet)

  datatype Account = Account(reader: Consumer, readAt: nat, claims: seq<Claim>, left: Leaving, fate: Fate) {
    /** Which consumer the entry was last handed to, and when. */
    function Owner(): Consumer { OwnerAfter(reader, claims, |claims|) }
    function Since(): nat { SinceAfter(readAt, claims, |claims|) }
  }

  function OwnerAfter(reader: Consumer, claims: seq<Claim>, k: nat): Consumer
    requires k <= |claims|
  {
    if k == 0 then reader else claims[k - 1].claimant
  }

  function SinceAfter(readAt: nat, claims: seq<Claim>, k: nat): nat
    requires k <= |claims|
  {
    if k == 0 then readAt else claims[k - 1].at
  }

  /** `deleted` is the sum of all DELCONSUMER replies. */
  datatype Sys = Sys(server: Server, nodes: map<Consumer, Node>, ledger: map<nat, Account>, deleted: nat)

  datatype Action =
    | Read(count: nat)
    | AckSweep            // XACK of the sweep's ids
    | AckFails            // the XACK was refused: the sweep only warns
    | ScanPending         // XPENDING
    | Inspect             // XRANGE of the next row
    | InspectFails        // XRANGE of the next row returned an error
    | ClaimNow            // XCLAIM
    | ClaimFails          // the XCLAIM was refused: nothing is claimed
    | ScanConsumers       // XINFO CONSUMERS
    | ReapNext(name: Consumer)
    | ReapFails(name: Consumer)   // its DELCONSUMER was refused: the consumer stays
    | Depart
    | Crash

  datatype Step =
    | Publish(entry: Entry)
    | Trim(to: nat)
    | Elapse(ms: nat)
    | Start(c: Consumer, exposure: ExposureSet)
    | Act(c: Consumer, action: Action)

  // ------------------------------------------------------------------------------------------
  // Steps
  // ------------------------------------------------------------------------------------------

  /** Acknowledged by a sweep: everything that is not a command, and the commands the node accepts. */
  predicate Wanted(entry: Entry, exposure: ExposureSet) {
    !entry.command || exposure.Accepts(entry.hint)
  }

  function AckIds(s: Server, exposure: ExposureSet, lo: nat, hi: nat): set<nat> {
    set id | lo <= id < hi && id < |s.log| && Wanted(s.log[id], exposure)
  }

  function Closed(ledger: map<nat, Account>, ids: set<nat>, fate: Fate): map<nat, Account> {
    map id | id in ledger :: if id in ids then ledger[id].(fate := fate) else ledger[id]
  }

  function SetPhase(s: Sys, c: Consumer, phase: Phase): Sys
    requires c in s.nodes
  {
    s.(nodes := s.nodes[c := s.nodes[c].(phase := phase)])
  }

  function DoRead(s: Sys, c: Consumer, count: nat): Sys
    requires c in s.nodes
  {
    var (lo, hi) := s.server.ReadRange(count);
    var account := Account(c, s.server.now, [], InHand, Open);
    SetPhase(s, c, Holding(lo, hi)).(
      server := s.server.Read(c, count),
      ledger := s.ledger + Span(lo, hi, account))
  }

  /** The ledger once a node lets go of its batch: the entries it wanted end as `wanted`, the others are refused. */
  function Released(s: Sys, exposure: ExposureSet, lo: nat, hi: nat, wanted: Leaving): map<nat, Account> {
    var ids := AckIds(s.server, exposure, lo, hi);
    map id | id in s.ledger ::
      if id in ids then s.ledger[id].(left := wanted)
      else if lo <= id < hi then s.ledger[id].(left := Refused(exposure))
      else s.ledger[id]
  }

  function DoAck(s: Sys, c: Consumer): Sys
    requires c in s.nodes && s.nodes[c].phase.Holding?
  {
    var Node(exposure, Holding(lo, hi)) := s.nodes[c];
    var ids := AckIds(s.server, exposure, lo, hi);
    SetPhase(s, c, Ready).(
      server := s.server.Ack(ids),
      ledger := Closed(Released(s, exposure, lo, hi, Finished), ids * s.server.pel.Keys, Acked(c, exposure)))
  }

  function DoAckFails(s: Sys, c: Consumer): Sys
    requires c in s.nodes && s.nodes[c].phase.Holding?
  {
    var Node(exposure, Holding(lo, hi)) := s.nodes[c];
    SetPhase(s, c, Ready).(ledger := Released(s, exposure, lo, hi, Interrupted))
  }

  function DoCrash(s: Sys, c: Consumer): Sys
    requires c in s.nodes
  {
    var down := SetPhase(s, c, Down);
    match s.nodes[c].phase
    case Holding(lo, hi) =>
      down.(ledger := map id | id in s.ledger :: if lo <= id < hi then s.ledger[id].(left := Interrupted) else s.ledger[id])
    case _ => down
  }

  /** One row of the reclaim scan: whether its id joins the claim, given what XRANGE answered. */
  predicate Admits(self: Consumer, exposure: ExposureSet, row: PendingRow, reply: Option<Entry>) {
    row.owner != self && reply.Some? && exposure.Accepts(reply.value.hint)
  }

  function DoInspect(s: Sys, c: Consumer, answered: bool): Sys
    requires c in s.nodes && s.nodes[c].phase.Inspecting?
  {
    var Node(exposure, Inspecting(rows, next, claimable)) := s.nodes[c];
    if |rows| <= next then s
    else
      var reply := if answered then s.server.Range(rows[next].id) else None;
      var grown := if Admits(c, exposure, rows[next], reply) then claimable + {rows[next].id} else claimable;
      SetPhase(s, c, Inspecting(rows, next + 1, grown))
  }

  function DoClaim(s: Sys, c: Consumer): Sys
    requires c in s.nodes && s.nodes[c].phase.Inspecting?
  {
    var Node(exposure, Inspecting(rows, next, claimable)) := s.nodes[c];
    if next < |rows| then s
    else if claimable == {} then SetPhase(s, c, Ready)
    else DoXclaim(SetPhase(s, c, Ready), c, exposure, claimable)
  }

  function DoXclaim(s: Sys, c: Consumer, exposure: ExposureSet, ids: set<nat>): Sys {
    var claimed, gone := s.server.Claimable(RECLAIM_MIN_IDLE_MS, ids), s.server.Phantoms(ids);
    s.(server := s.server.Claim(c, RECLAIM_MIN_IDLE_MS, ids),
       ledger := map id | id in s.ledger ::
         if id in claimed && id in s.server.pel then s.ledger[id].(claims := s.ledger[id].claims + [Claim(c, s.server.pel[id].owner, s.server.now, exposure)])
         else if id in gone then s.ledger[id].(fate := Dropped)
         else s.ledger[id])
  }

  function DoDelete(s: Sys, name: Consumer, remover: Remover): Sys {
    var held := s.server.Held(name);
    s.(server := s.server.DelConsumer(name), ledger := Closed(s.ledger, held, Discarded(remover)), deleted := s.deleted + |held|)
  }

  /** The reaper removes a consumer whose row says empty and idle; never itself. */
  predicate Reapable(self: Consumer, name: Consumer, row: ConsumerRow) {
    name != self && row.pending == 0 && row.idle >= REAP_IDLE_MS
  }

  function DoReap(s: Sys, c: Consumer, name: Consumer): Sys
    requires c in s.nodes && s.nodes[c].phase.Reaping?
  {
    var Reaping(at, rows) := s.nodes[c].phase;
    if rows == map[] then SetPhase(s, c, Ready)
    else if name !in rows then s
    else
      var rest := SetPhase(s, c, Reaping(at, rows - {name}));
      if Reapable(c, name, rows[name]) then DoDelete(rest, name, Reaper(at)) else rest
  }

  function DoAct(s: Sys, c: Consumer, action: Action): Sys
    requires s.server.Valid() && c in s.nodes
  {
    var phase := s.nodes[c].phase;
    match action
    case Read(count) => if phase.Ready? then DoRead(s, c, count) else s
    case AckSweep => if phase.Holding? then DoAck(s, c) else s
    case AckFails => if phase.Holding? then DoAckFails(s, c) else s
    case ScanPending => if phase.Ready? then SetPhase(s, c, Inspecting(s.server.Pending(RECLAIM_MIN_IDLE_MS, 0, RECLAIM_BATCH), 0, {})) else s
    case Inspect => if phase.Inspecting? then DoInspect(s, c, true) else s
    case InspectFails => if phase.Inspecting? then DoInspect(s, c, false) else s
    case ClaimNow => if phase.Inspecting? then DoClaim(s, c) else s
    case ClaimFails => if phase.Inspecting? then SetPhase(s, c, Ready) else s
    case ReapFails(name) => if phase.Reaping? then SetPhase(s, c, Reaping(phase.at, phase.unseen - {name})) else s
    case ScanConsumers => if phase.Ready? then SetPhase(s, c, Reaping(s.server.now, s.server.Consumers())) else s
    case ReapNext(name) => if phase.Reaping? then DoReap(s, c, name) else s
    case Depart => if phase.Ready? then SetPhase(DoDelete(s, c, Departure), c, Down) else s
    case Crash => DoCrash(s, c)
  }

  function Do(s: Sys, step: Step): Sys
    requires s.server.Valid()
  {
    match step
    case Publish(e) => s.(server := s.server.(log := s.server.log + [e]))
    case Trim(to) => if s.server.trimmed <= to <= |s.server.log| then s.(server := s.server.(trimmed := to)) else s
    case Elapse(ms) => s.(server := s.server.(now := s.server.now + ms))
    case Start(c, x) => if c in s.nodes && !s.nodes[c].phase.Down? then s else s.(nodes := s.nodes[c := Node(x, Ready)])
    case Act(c, action) => if c in s.nodes then DoAct(s, c, action) else s
  }

  const INITIAL := Sys(Server(0, [], 0, 0, map[], map[]), map[], map[], 0)
}
