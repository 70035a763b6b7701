/**
 One batch of commands through `process_command_batch`: categorised, guarded, then spawned on the Concurrent lane or run
 inline, answered and acknowledged. The tenant guard, the registry and the outcome of every spawn and send are parameters.
 What the sub-commands of a "bc" message do is not looked into; only how many responses they add is.
 */
module CommandLanes {
  import opened Wrappers
  import opened Text
  import opened Commands
  import opened Selection

  datatype Lane = Concurrent | Ordered

  /** Handlers go by the name as written, lanes by the lower-cased name. */
  datatype Registry = Registry(handlers: set<string>, asyncs: set<string>, lanes: map<string, Lane>, lower: string -> string) {
    /** A command without a descriptor is Concurrent. */
    function LaneOf(name: string): Lane {
      if lower(name) in lanes then lanes[lower(name)] else Concurrent
    }
  }

  /** What the daemon brings to a batch: the registry, the tenant guard's verdicts, and whether the spawning runtime is up. */
  datatype Dispatcher = Dispatcher(registry: Registry, refuses: Command -> bool, initialized: bool)

  predicate AddressedToAnother(c: Command) {
    c.relayTarget.Some? || c.relayReplyTo.Some?
  }

  // ------------------------------------------------------------------------------------------
  // Step 1: categorise
  // ------------------------------------------------------------------------------------------

  predicate IsBundle(c: Command) {
    c.messageType == "bc"
  }

  /** The commands that are bundles, or that are not, in the order they came. */
  function Only(commands: seq<(string, Command)>, bundles: bool): seq<Command> {
    if commands == [] then []
    else
      var last := commands[|commands| - 1].1;
      Only(commands[..|commands| - 1], bundles) + if IsBundle(last) == bundles then [last] else []
  }

  function Ids(commands: seq<(string, Command)>): (ids: seq<string>)
    ensures |ids| == |commands|
  {
    seq(|commands|, i requires 0 <= i < |commands| => commands[i].0)
  }

  predicate CarriesBatchId(c: Command) {
    c.batchId.Some? && c.batchId.value != ""
  }

  /** The batch id is the first one carried, and empty when none is. */
  ghost predicate IsBatchId(id: string, commands: seq<(string, Command)>) {
    if id == "" then forall i :: 0 <= i < |commands| ==> !CarriesBatchId(commands[i].1)
    else exists i :: FirstCarried(id, commands, i)
  }

  ghost predicate FirstCarried(id: string, commands: seq<(string, Command)>, i: int) {
    && 0 <= i < |commands| && commands[i].1.batchId == Some(id)
    && forall j :: 0 <= j < i ==> !CarriesBatchId(commands[j].1)
  }

  method Categorise(commands: seq<(string, Command)>) returns (ids: seq<string>, bundles: seq<Command>, regular: seq<Command>, batchId: string)
    ensures ids == Ids(commands)
    ensures bundles == Only(commands, true) && regular == Only(commands, false)
    ensures IsBatchId(batchId, commands)
  {
    ids, bundles, regular, batchId := [], [], [], "";
    for n := 0 to |commands|
      invariant ids == Ids(commands[..n]) && IsBatchId(batchId, commands[..n])
      invariant bundles == Only(commands[..n], true) && regular == Only(commands[..n], false)
    {
      var (id, command) := commands[n];
      assert commands[..n + 1][..n] == commands[..n];
      ids := ids + [id];
      if batchId == "" {
        if command.batchId.Some? && command.batchId.value != "" {
          batchId := command.batchId.value;
          assert FirstCarried(batchId, commands[..n + 1], n);
        }
      } else {
        ghost var i :| FirstCarried(batchId, commands[..n], i);
        assert FirstCarried(batchId, commands[..n + 1], i);
      }
      if command.messageType == "bc" {
        bundles := bundles + [command];
      } else {
        regular := regular + [command];
      }
    }
    assert commands[..|commands|] == commands;
  }

  /** Every command is categorised once. */
  lemma {:induction false} CategoriesPartition(commands: seq<(string, Command)>)
    ensures |Only(commands, true)| + |Only(commands, false)| == |commands|
    ensures forall c :: c in Only(commands, true) ==> IsBundle(c)
    ensures forall c :: c in Only(commands, false) ==> !IsBundle(c)
  {
    if commands != [] {
      CategoriesPartition(commands[..|commands| - 1]);
    }
  }

  function InCategory(bundles: bool): ((string, Command)) -> bool {
    (c: (string, Command)) => (c.1.messageType == "bc") == bundles
  }

  function Bare(): ((string, Command)) -> Command {
    (c: (string, Command)) => c.1
  }

  /** A category is its commands in the order they came. */
  lemma {:induction false} CategoryIs(commands: seq<(string, Command)>, bundles: bool)
    ensures Selects(commands, Only(commands, bundles), InCategory(bundles), Bare())
  {
    if commands == [] {
      SelectsNone(InCategory(bundles), Bare());
    } else {
      var front := commands[..|commands| - 1];
      CategoryIs(front, bundles);
      SelectsLast(commands, Only(front, bundles), Only(commands, bundles), InCategory(bundles), Bare());
    }
  }

  // ------------------------------------------------------------------------------------------
  // Step 3: what becomes of a regular command
  // ------------------------------------------------------------------------------------------

  /** `Refused`, `Ran` and `Unknown` answer inline. */
  datatype Fate = Empty | LeftForOwner | Spawned | Refused | Ran | Unknown

  /** `queued` is what `try_spawn_concurrent` would say for this command. */
  function FateOf(c: Command, d: Dispatcher, queued: bool): Fate {
    if Trim(c.name) == "" then Empty
    else if AddressedToAnother(c) then LeftForOwner
    else if d.refuses(c) then Refused
    else if d.registry.LaneOf(c.name).Concurrent? && c.name in d.registry.asyncs && d.initialized && queued then Spawned
    else if c.name in d.registry.handlers then Ran
    else Unknown
  }

  function Fates(regular: seq<Command>, d: Dispatcher, queued: nat -> bool): (fates: seq<Fate>)
    ensures |fates| == |regular|
  {
    seq(|regular|, k requires 0 <= k < |regular| => FateOf(regular[k], d, queued(k)))
  }

  predicate Answered(f: Fate) { f.Refused? || f.Ran? || f.Unknown? }

  predicate IsSpawned(f: Fate) { f.Spawned? }

  predicate IsRun(f: Fate) { f.Ran? }

  predicate IsEmptyOrLeft(f: Fate) { f.Empty? || f.LeftForOwner? }

  /** The positions below `n` whose fate satisfies `p`, ascending. */
  function Where(fates: seq<Fate>, p: Fate -> bool, n: nat): seq<nat>
    requires n <= |fates|
  {
    if n == 0 then [] else Where(fates, p, n - 1) + if p(fates[n - 1]) then [n - 1] else []
  }

  predicate IsRefused(f: Fate) { f.Refused? }

  predicate IsUnknown(f: Fate) { f.Unknown? }

  /** The dispatch loop: what was handed to tasks, which handlers ran inline, which positions were answered and how, and the count. */
  method Dispatch(regular: seq<Command>, d: Dispatcher, queued: nat -> bool)
    returns (processed: nat, spawned: seq<nat>, ran: seq<nat>, refusals: seq<nat>, unknown: seq<nat>, responses: seq<nat>)
    ensures var fates := Fates(regular, d, queued);
            && spawned == Where(fates, IsSpawned, |regular|) && ran == Where(fates, IsRun, |regular|)
            && refusals == Where(fates, IsRefused, |regular|) && unknown == Where(fates, IsUnknown, |regular|)
            && responses == Where(fates, Answered, |regular|)
            && processed == |spawned| + |responses|
    ensures forall k: nat :: k in ran || k in spawned <==> k < |regular| && IsServed(regular[k], d, queued(k))
    ensures forall k: nat :: k in refusals <==> k < |regular| && IsOurs(regular[k]) && d.refuses(regular[k])
    ensures forall k: nat :: k in unknown <==> k < |regular| && IsOurs(regular[k]) && !d.refuses(regular[k]) && !IsServed(regular[k], d, queued(k))
  {
    ghost var fates := Fates(regular, d, queued);
    processed, spawned, ran, refusals, unknown, responses := 0, [], [], [], [], [];
    for k := 0 to |regular|
      invariant spawned == Where(fates, IsSpawned, k) && ran == Where(fates, IsRun, k)
      invariant refusals == Where(fates, IsRefused, k) && unknown == Where(fates, IsUnknown, k)
      invariant responses == Where(fates, Answered, k) && processed == |spawned| + |responses|
    {
      var command := regular[k];
      assert fates[k] == FateOf(command, d, queued(k));
      if Trim(command.name) == "" { continue; }
      if AddressedToAnother(command) { continue; }
      var refused := d.refuses(command);
      if !refused && d.registry.LaneOf(command.name) == Concurrent && command.name in d.registry.asyncs && d.initialized {
        if queued(k) {
          spawned := spawned + [k];
          processed := processed + 1;
          continue;
        }
      }
      if refused {
        refusals := refusals + [k];
      } else if command.name in d.registry.handlers {
        ran := ran + [k];
      } else {
        unknown := unknown + [k];
      }
      responses := responses + [k];
      processed := processed + 1;
    }
    forall k: nat
      ensures k in ran || k in spawned <==> k < |regular| && IsServed(regular[k], d, queued(k))
      ensures k in refusals <==> k < |regular| && IsOurs(regular[k]) && d.refuses(regular[k])
      ensures k in unknown <==> k < |regular| && IsOurs(regular[k]) && !d.refuses(regular[k]) && !IsServed(regular[k], d, queued(k))
    {
      WhoIsServed(regular, d, queued, k);
    }
  }

  /** A command with a name and without relay metadata. */
  predicate IsOurs(c: Command) {
    (exists i :: 0 <= i < |c.name| && !IsSpace(c.name[i])) && c.relayTarget.None? && c.relayReplyTo.None?
  }

  /** The descriptor under the lower-cased name puts the command on the Ordered lane. */
  predicate HasOrderedDescriptor(name: string, r: Registry) {
    r.lower(name) in r.lanes && r.lanes[r.lower(name)].Ordered?
  }

  /** Some handler is called: the one registered under the name as written, or the async one in a task that was queued. */
  predicate IsServed(c: Command, d: Dispatcher, queued: bool) {
    && IsOurs(c) && !d.refuses(c)
    && (c.name in d.registry.handlers
        || (!HasOrderedDescriptor(c.name, d.registry) && c.name in d.registry.asyncs && d.initialized && queued))
  }

  /** When each fate is met, in terms of the command, the registry, the guard and the runtime. */
  lemma FateIs(c: Command, d: Dispatcher, queued: bool)
    ensures IsEmptyOrLeft(FateOf(c, d, queued)) <==> !IsOurs(c)
    ensures FateOf(c, d, queued).Refused? <==> IsOurs(c) && d.refuses(c)
    ensures FateOf(c, d, queued).Spawned? <==>
            IsOurs(c) && !d.refuses(c) && !HasOrderedDescriptor(c.name, d.registry) && c.name in d.registry.asyncs && d.initialized && queued
    ensures FateOf(c, d, queued).Ran? || FateOf(c, d, queued).Spawned? <==> IsServed(c, d, queued)
    ensures FateOf(c, d, queued).Unknown? <==> IsOurs(c) && !d.refuses(c) && !IsServed(c, d, queued)
    ensures Answered(FateOf(c, d, queued)) <==> IsOurs(c) && !FateOf(c, d, queued).Spawned?
  {
    TrimmedAway(c.name);
  }

  /** Each position is served, refused or unknown exactly when its command is. */
  lemma WhoIsServed(regular: seq<Command>, d: Dispatcher, queued: nat -> bool, k: nat)
    ensures var fates, n := Fates(regular, d, queued), |regular|;
            && (k in Where(fates, IsRun, n) || k in Where(fates, IsSpawned, n) <==> k < n && IsServed(regular[k], d, queued(k)))
            && (k in Where(fates, IsRefused, n) <==> k < n && IsOurs(regular[k]) && d.refuses(regular[k]))
            && (k in Where(fates, IsUnknown, n) <==> k < n && IsOurs(regular[k]) && !d.refuses(regular[k]) && !IsServed(regular[k], d, queued(k)))
  {
    var fates, n := Fates(regular, d, queued), |regular|;
    WhereIs(fates, IsRun, n);
    WhereIs(fates, IsSpawned, n);
    WhereIs(fates, IsRefused, n);
    WhereIs(fates, IsUnknown, n);
    if k < n { FateIs(regular[k], d, queued(k)); }
  }

  /** Each regular command has one fate: the four lists are disjoint and together hold every position. */
  lemma {:induction false} FatesAddUp(fates: seq<Fate>, n: nat)
    requires n <= |fates|
    ensures |Where(fates, IsEmptyOrLeft, n)| + |Where(fates, IsSpawned, n)| + |Where(fates, Answered, n)| == n
  {
    if n > 0 { FatesAddUp(fates, n - 1); }
  }

  lemma {:induction false} WhereIs(fates: seq<Fate>, p: Fate -> bool, n: nat)
    requires n <= |fates|
    ensures forall k: nat :: k in Where(fates, p, n) <==> k < n && p(fates[k])
    ensures forall i, j :: 0 <= i < j < |Where(fates, p, n)| ==> Where(fates, p, n)[i] < Where(fates, p, n)[j]
  {
    if n > 0 {
      WhereIs(fates, p, n - 1);
      var below := Where(fates, p, n - 1);
      forall i | 0 <= i < |below| ensures below[i] < n - 1 { assert below[i] in below; }
    }
  }

  // ------------------------------------------------------------------------------------------
  // Interleaving with the spawned tasks
  // ------------------------------------------------------------------------------------------

  /** The loop's position, the tasks handed over and not yet run, and the positions whose handler has run, in that order. */
  datatype Progress = Progress(next: nat, tasks: set<nat>, log: seq<nat>)

  datatype Event = Loop | Task(k: nat)

  function StepOf(regular: seq<Command>, d: Dispatcher, queued: nat -> bool, s: Progress, e: Event): Option<Progress> {
    match e
    case Loop =>
      if s.next >= |regular| then None
      else
        (match FateOf(regular[s.next], d, queued(s.next))
         case Spawned => Some(Progress(s.next + 1, s.tasks + {s.next}, s.log))
         case Ran => Some(Progress(s.next + 1, s.tasks, s.log + [s.next]))
         case _ => Some(s.(next := s.next + 1)))
    case Task(k) => if k in s.tasks then Some(Progress(s.next, s.tasks - {k}, s.log + [k])) else None
  }

  /** Any interleaving of the loop with its tasks. */
  function Exec(regular: seq<Command>, d: Dispatcher, queued: nat -> bool, events: seq<Event>): Option<Progress> {
    if events == [] then Some(Progress(0, {}, []))
    else
      match Exec(regular, d, queued, events[..|events| - 1])
      case None => None
      case Some(s) => StepOf(regular, d, queued, s, events[|events| - 1])
  }

  function LoopOnly(n: nat): seq<Event> {
    if n == 0 then [] else LoopOnly(n - 1) + [Loop]
  }

  function Positions(ks: seq<nat>): set<nat> {
    set k | k in ks
  }

  /** The loop of these interleavings is the dispatch loop: alone, it runs what `Dispatch` runs and waits on what it spawned. */
  lemma {:induction false} LoopIsDispatch(regular: seq<Command>, d: Dispatcher, queued: nat -> bool, n: nat)
    requires n <= |regular|
    ensures var fates := Fates(regular, d, queued);
            Exec(regular, d, queued, LoopOnly(n)) == Some(Progress(n, Positions(Where(fates, IsSpawned, n)), Where(fates, IsRun, n)))
  {
    if n == 0 {
      assert Positions([]) == {};
    } else {
      LoopIsDispatch(regular, d, queued, n - 1);
      OneEventMore(regular, d, queued, LoopOnly(n - 1), Loop);
      LoopOnce(regular, d, queued, n - 1);
    }
  }

  lemma LoopOnce(regular: seq<Command>, d: Dispatcher, queued: nat -> bool, k: nat)
    requires k < |regular|
    ensures var fates := Fates(regular, d, queued);
            StepOf(regular, d, queued, Progress(k, Positions(Where(fates, IsSpawned, k)), Where(fates, IsRun, k)), Loop)
            == Some(Progress(k + 1, Positions(Where(fates, IsSpawned, k + 1)), Where(fates, IsRun, k + 1)))
  {
    var fates := Fates(regular, d, queued);
    var spawned, ran := Where(fates, IsSpawned, k), Where(fates, IsRun, k);
    assert fates[k] == FateOf(regular[k], d, queued(k));
    assert Where(fates, IsSpawned, k + 1) == spawned + if fates[k].Spawned? then [k] else [];
    assert Where(fates, IsRun, k + 1) == ran + if fates[k].Ran? then [k] else [];
    assert Positions(spawned + [k]) == Positions(spawned) + {k};
    assert spawned + [] == spawned && ran + [] == ran;
  }

  predicate Eligible(c: Command, d: Dispatcher) {
    && Trim(c.name) != "" && !AddressedToAnother(c) && !d.refuses(c)
    && d.registry.LaneOf(c.name).Ordered? && c.name in d.registry.handlers
  }

  function EligibleBelow(regular: seq<Command>, d: Dispatcher, n: nat): seq<nat>
    requires n <= |regular|
  {
    if n == 0 then [] else EligibleBelow(regular, d, n - 1) + if Eligible(regular[n - 1], d) then [n - 1] else []
  }

  predicate OnOrderedLane(regular: seq<Command>, d: Dispatcher, k: nat) {
    k < |regular| && d.registry.LaneOf(regular[k].name).Ordered?
  }

  /** The Ordered commands of a log, in the order they ran. */
  function OrderedPart(regular: seq<Command>, d: Dispatcher, log: seq<nat>): seq<nat> {
    if log == [] then []
    else
      var last := log[|log| - 1];
      OrderedPart(regular, d, log[..|log| - 1]) + if OnOrderedLane(regular, d, last) then [last] else []
  }

  lemma {:induction false} OrderedPartOneMore(regular: seq<Command>, d: Dispatcher, log: seq<nat>, k: nat)
    ensures OrderedPart(regular, d, log + [k]) == OrderedPart(regular, d, log) + if OnOrderedLane(regular, d, k) then [k] else []
  {
    assert (log + [k])[..|log + [k]| - 1] == log;
  }

  /** An Ordered command's fate does not depend on the runtime: it runs inline exactly when it is eligible, and is never spawned. */
  lemma OrderedFate(c: Command, d: Dispatcher, queued: bool)
    ensures FateOf(c, d, queued).Ran? && d.registry.LaneOf(c.name).Ordered? <==> Eligible(c, d)
    ensures d.registry.LaneOf(c.name).Ordered? ==> !FateOf(c, d, queued).Spawned?
  {
  }

  /** What every interleaving keeps: waiting tasks are spawned positions behind the loop. */
  ghost predicate TasksAreSpawned(regular: seq<Command>, d: Dispatcher, queued: nat -> bool, s: Progress) {
    s.next <= |regular| && forall k :: k in s.tasks ==> k < s.next && FateOf(regular[k], d, queued(k)).Spawned?
  }

  lemma {:induction false} TasksStayBehind(regular: seq<Command>, d: Dispatcher, queued: nat -> bool, events: seq<Event>)
    requires Exec(regular, d, queued, events).Some?
    ensures TasksAreSpawned(regular, d, queued, Exec(regular, d, queued, events).value)
  {
    if events != [] {
      TasksStayBehind(regular, d, queued, events[..|events| - 1]);
    }
  }

  lemma TaskIsConcurrent(regular: seq<Command>, d: Dispatcher, queued: nat -> bool, s: Progress)
    requires TasksAreSpawned(regular, d, queued, s)
    ensures forall k :: k in s.tasks ==> !OnOrderedLane(regular, d, k)
  {
  }

  /** No Ordered command and no refused one is ever a task. */
  lemma {:induction false} TasksAreConcurrent(regular: seq<Command>, d: Dispatcher, queued: nat -> bool, events: seq<Event>, k: nat)
    requires Exec(regular, d, queued, events).Some? && k in Exec(regular, d, queued, events).value.tasks
    ensures k < |regular| && d.registry.LaneOf(regular[k].name).Concurrent? && !d.refuses(regular[k]) && !AddressedToAnother(regular[k])
    ensures d.initialized && regular[k].name in d.registry.asyncs
  {
    TasksStayBehind(regular, d, queued, events);
  }

  lemma {:induction false} StepKeepsOrder(regular: seq<Command>, d: Dispatcher, queued: nat -> bool, s: Progress, e: Event)
    requires s.next <= |regular| && OrderedPart(regular, d, s.log) == EligibleBelow(regular, d, s.next)
    requires e.Task? && e.k in s.tasks ==> !OnOrderedLane(regular, d, e.k)
    requires StepOf(regular, d, queued, s, e).Some?
    ensures var s' := StepOf(regular, d, queued, s, e).value;
            s'.next <= |regular| && OrderedPart(regular, d, s'.log) == EligibleBelow(regular, d, s'.next)
  {
    var s' := StepOf(regular, d, queued, s, e).value;
    if e.Task? {
      OrderedPartOneMore(regular, d, s.log, e.k);
      assert s'.log == s.log + [e.k];
    } else {
      OrderedFate(regular[s.next], d, queued(s.next));
      OrderedPartOneMore(regular, d, s.log, s.next);
      assert EligibleBelow(regular, d, s.next + 1) == EligibleBelow(regular, d, s.next) + if Eligible(regular[s.next], d) then [s.next] else [];
      if FateOf(regular[s.next], d, queued(s.next)).Ran? {
        assert s'.log == s.log + [s.next];
      } else {
        assert s'.log == s.log;
      }
    }
  }

  /** Under every interleaving the Ordered handlers that have run are the eligible commands so far, in stream order. */
  lemma {:induction false} OrderedRunInStreamOrder(regular: seq<Command>, d: Dispatcher, queued: nat -> bool, events: seq<Event>)
    requires Exec(regular, d, queued, events).Some?
    ensures var s := Exec(regular, d, queued, events).value;
            s.next <= |regular| && OrderedPart(regular, d, s.log) == EligibleBelow(regular, d, s.next)
  {
    if events != [] {
      var before := events[..|events| - 1];
      OrderedRunInStreamOrder(regular, d, queued, before);
      TasksStayBehind(regular, d, queued, before);
      TaskIsConcurrent(regular, d, queued, Exec(regular, d, queued, before).value);
      StepKeepsOrder(regular, d, queued, Exec(regular, d, queued, before).value, events[|events| - 1]);
    }
  }

  /** Two finished runs, with the spawning runtime up or down and tasks landing anywhere, run the same Ordered commands in the same order. */
  lemma {:induction false} OrderedLaneIgnoresTasks(regular: seq<Command>, d: Dispatcher, d': Dispatcher, queued: nat -> bool, queued': nat -> bool,
                                events: seq<Event>, events': seq<Event>)
    requires d'.registry == d.registry && d'.refuses == d.refuses
    requires Exec(regular, d, queued, events).Some? && Exec(regular, d', queued', events').Some?
    requires Exec(regular, d, queued, events).value.next == |regular| == Exec(regular, d', queued', events').value.next
    ensures OrderedPart(regular, d, Exec(regular, d, queued, events).value.log)
         == OrderedPart(regular, d', Exec(regular, d', queued', events').value.log)
  {
    OrderedRunInStreamOrder(regular, d, queued, events);
    OrderedRunInStreamOrder(regular, d', queued', events');
    SameEligible(regular, d, d', |regular|);
  }

  lemma {:induction false} SameEligible(regular: seq<Command>, d: Dispatcher, d': Dispatcher, n: nat)
    requires n <= |regular| && d'.registry == d.registry && d'.refuses == d.refuses
    ensures EligibleBelow(regular, d, n) == EligibleBelow(regular, d', n)
  {
    if n > 0 { SameEligible(regular, d, d', n - 1); }
  }

  function Bit(b: bool): nat { if b then 1 else 0 }

  /** The handler at `k` has run once or waits once if it is served so far, and neither otherwise. */
  ghost predicate OnceIfServed(regular: seq<Command>, d: Dispatcher, queued: nat -> bool, s: Progress, k: nat) {
    s.next <= |regular| && multiset(s.log)[k] + Bit(k in s.tasks) == Bit(k < s.next && IsServed(regular[k], d, queued(k)))
  }

  lemma StepKeepsOnce(regular: seq<Command>, d: Dispatcher, queued: nat -> bool, s: Progress, e: Event, k: nat)
    requires TasksAreSpawned(regular, d, queued, s) && OnceIfServed(regular, d, queued, s, k)
    requires StepOf(regular, d, queued, s, e).Some?
    ensures OnceIfServed(regular, d, queued, StepOf(regular, d, queued, s, e).value, k)
  {
    if s.next < |regular| { FateIs(regular[s.next], d, queued(s.next)); }
  }

  /** No handler runs twice under any interleaving, and none that is to run is lost. */
  lemma {:induction false} EveryHandlerRunsOnce(regular: seq<Command>, d: Dispatcher, queued: nat -> bool, events: seq<Event>, k: nat)
    requires Exec(regular, d, queued, events).Some?
    ensures OnceIfServed(regular, d, queued, Exec(regular, d, queued, events).value, k)
  {
    if events != [] {
      var before := events[..|events| - 1];
      EveryHandlerRunsOnce(regular, d, queued, before, k);
      TasksStayBehind(regular, d, queued, before);
      StepKeepsOnce(regular, d, queued, Exec(regular, d, queued, before).value, events[|events| - 1], k);
    }
  }

  lemma {:induction false} OneEventMore(regular: seq<Command>, d: Dispatcher, queued: nat -> bool, events: seq<Event>, e: Event)
    requires Exec(regular, d, queued, events).Some?
    ensures Exec(regular, d, queued, events + [e]) == StepOf(regular, d, queued, Exec(regular, d, queued, events).value, e)
  {
    assert (events + [e])[..|events + [e]| - 1] == events;
  }

  /** The loop has seen every command and no task waits. */
  predicate Finished(regular: seq<Command>, s: Progress) {
    s.next == |regular| && s.tasks == {}
  }

  function EventsLeft(regular: seq<Command>, s: Progress): int {
    2 * (|regular| - s.next) + |s.tasks|
  }

  /** Something can happen until the batch is finished: the loop goes on, or else a waiting task runs. */
  lemma NextEvent(regular: seq<Command>, d: Dispatcher, queued: nat -> bool, s: Progress) returns (e: Event)
    requires s.next <= |regular| && !Finished(regular, s)
    ensures var t := StepOf(regular, d, queued, s, e); t.Some? && EventsLeft(regular, t.value) < EventsLeft(regular, s)
  {
    if s.next < |regular| {
      e := Loop;
    } else {
      var k :| k in s.tasks;
      e := Task(k);
    }
  }

  /** The interleaving goes on with these events. */
  function Onward(regular: seq<Command>, d: Dispatcher, queued: nat -> bool, s: Progress, more: seq<Event>): Option<Progress>
    decreases |more|
  {
    if more == [] then Some(s)
    else
      match StepOf(regular, d, queued, s, more[0])
      case None => None
      case Some(t) => Onward(regular, d, queued, t, more[1..])
  }

  lemma FirstThenRest(events: seq<Event>, more: seq<Event>)
    requires more != []
    ensures events + more == (events + [more[0]]) + more[1..]
  {
  }

  lemma {:induction false} ExecGoesOn(regular: seq<Command>, d: Dispatcher, queued: nat -> bool, events: seq<Event>, s: Progress, more: seq<Event>)
    requires Exec(regular, d, queued, events) == Some(s) && Onward(regular, d, queued, s, more).Some?
    ensures Exec(regular, d, queued, events + more) == Onward(regular, d, queued, s, more)
    decreases |more|
  {
    if more == [] {
      assert events + more == events;
    } else {
      OneEventMore(regular, d, queued, events, more[0]);
      FirstThenRest(events, more);
      ExecGoesOn(regular, d, queued, events + [more[0]], StepOf(regular, d, queued, s, more[0]).value, more[1..]);
    }
  }

  lemma {:induction false} FinishFrom(regular: seq<Command>, d: Dispatcher, queued: nat -> bool, s: Progress) returns (more: seq<Event>)
    requires s.next <= |regular|
    ensures var t := Onward(regular, d, queued, s, more); t.Some? && Finished(regular, t.value)
    decreases EventsLeft(regular, s)
  {
    if Finished(regular, s) {
      more := [];
    } else {
      var e := NextEvent(regular, d, queued, s);
      var rest := FinishFrom(regular, d, queued, StepOf(regular, d, queued, s, e).value);
      more := [e] + rest;
      assert more[1..] == rest;
    }
  }

  /** From wherever an interleaving stands, the batch can be finished: the loop goes on to the end, and every waiting task can run. */
  lemma {:induction false} EveryBatchCanFinish(regular: seq<Command>, d: Dispatcher, queued: nat -> bool, events: seq<Event>)
    requires Exec(regular, d, queued, events).Some?
    ensures exists more :: var t := Exec(regular, d, queued, events + more); t.Some? && Finished(regular, t.value)
  {
    TasksStayBehind(regular, d, queued, events);
    var s := Exec(regular, d, queued, events).value;
    var more := FinishFrom(regular, d, queued, s);
    ExecGoesOn(regular, d, queued, events, s, more);
  }

  // ------------------------------------------------------------------------------------------
  // Step 4: the relay response and the acknowledgement
  // ------------------------------------------------------------------------------------------

  const ACK_GROUP := "gnode-daemon"

  /** One try at the batch response: not added, added but the stream's information could not be read, added and read. */
  datatype Attempt = NotAdded | AddedUnseen | AddedSeen

  /**
   The retry loop. A response that was added but not seen counts as two failures: the loop may add it once more, and may
   still report failure, after which every response is sent again on its own.
   */
  method SendBatch(attempt: nat -> Attempt) returns (success: bool, landed: nat, tries: nat)
    ensures tries <= 3 && landed <= 2
    ensures success <==> attempt(0).AddedSeen? || attempt(1).AddedSeen? || (attempt(0).NotAdded? && attempt(1).NotAdded? && attempt(2).AddedSeen?)
    ensures landed == 2 <==> attempt(0).AddedUnseen? && !attempt(1).NotAdded?
    ensures landed == 0 <==> attempt(0).NotAdded? && attempt(1).NotAdded? && attempt(2).NotAdded?
  {
    var retryCount := 0;
    success, landed, tries := false, 0, 0;
    while retryCount < 3 && !success
      invariant 0 <= tries <= 3 && landed <= tries
      invariant tries == 0 ==> retryCount == 0 && landed == 0 && !success
      invariant tries == 1 ==> Once(attempt(0), retryCount, landed, success)
      invariant tries == 2 ==> Twice(attempt(0), attempt(1), retryCount, landed, success)
      invariant tries == 3 ==> attempt(0).NotAdded? && attempt(1).NotAdded? && (success || retryCount >= 3)
      invariant tries == 3 ==> (success <==> attempt(2).AddedSeen?) && (landed == if attempt(2).NotAdded? then 0 else 1)
      decreases 3 - retryCount, !success
    {
      match attempt(tries) {
        case AddedSeen =>
          landed := landed + 1;
          success := true;
        case AddedUnseen =>
          landed := landed + 1;
          retryCount := retryCount + 1;
          if !success { retryCount := retryCount + 1; }
        case NotAdded =>
          retryCount := retryCount + 1;
      }
      tries := tries + 1;
    }
  }

  function Cost(a: Attempt): nat {
    match a
    case NotAdded => 1
    case AddedUnseen => 2
    case AddedSeen => 0
  }

  predicate Once(a: Attempt, retryCount: int, landed: nat, success: bool) {
    retryCount == Cost(a) && landed == Bit(!a.NotAdded?) && success == a.AddedSeen?
  }

  predicate Twice(a: Attempt, b: Attempt, retryCount: int, landed: nat, success: bool) {
    && !a.AddedSeen? && retryCount == Cost(a) + Cost(b)
    && landed == Bit(!a.NotAdded?) + Bit(!b.NotAdded?) && success == b.AddedSeen?
  }

  function ResponseStream(commands: seq<(string, Command)>, streamKey: string): string {
    if commands != [] && commands[0].1.relayReplyTo.Some? then commands[0].1.relayReplyTo.value else streamKey
  }

  /** The one way a batch ends in an error: its relay response goes out in batch form and fails validation. */
  ghost predicate RelayRefused(commands: seq<(string, Command)>, streamKey: string, responses: nat, fieldsOk: bool) {
    && commands != [] && commands[0].1.relayReplyTo.Some? && commands[0].1.relayReplyTo.value != streamKey
    && responses > 0 && (responses > 1 || exists i :: 0 <= i < |commands| && commands[i].1.messageType == "bc")
    && !fieldsOk
  }

  lemma {:induction false} HasABundle(commands: seq<(string, Command)>)
    ensures Only(commands, true) != [] <==> exists i :: 0 <= i < |commands| && commands[i].1.messageType == "bc"
  {
    if commands != [] { HasABundle(commands[..|commands| - 1]); }
  }

  function AnsweredCount(commands: seq<(string, Command)>, d: Dispatcher, queued: nat -> bool, bundled: nat): nat {
    var regular := Only(commands, false);
    bundled + |Where(Fates(regular, d, queued), Answered, |regular|)|
  }

  function SpawnedCount(commands: seq<(string, Command)>, d: Dispatcher, queued: nat -> bool): nat {
    var regular := Only(commands, false);
    |Where(Fates(regular, d, queued), IsSpawned, |regular|)|
  }

  /**
   The whole of `process_command_batch`, with `bundled` the responses its bundles add. The acknowledgement is of every
   input id, whatever became of the command, unless the relay response is refused; then nothing is acknowledged.
   */
  method ProcessCommandBatch(commands: seq<(string, Command)>, d: Dispatcher, queued: nat -> bool, streamKey: string, bundled: nat, fieldsOk: bool,
                             attempt: nat -> Attempt) returns (r: Result<nat>, acked: Option<(string, seq<string>)>)
    requires Only(commands, true) == [] ==> bundled == 0
    ensures r.Err? <==> RelayRefused(commands, streamKey, AnsweredCount(commands, d, queued, bundled), fieldsOk)
    ensures r.Ok? ==> r.value == AnsweredCount(commands, d, queued, bundled) + SpawnedCount(commands, d, queued)
    ensures r.Ok? && commands != [] ==> acked == Some(("gnode-daemon", Ids(commands)))
    ensures r.Err? || commands == [] ==> acked == None
  {
    if commands == [] { return Ok(0), None; }
    var ids, bundles, regular, batchId := Categorise(commands);
    var processed, spawned, ran, refusals, unknown, responses := Dispatch(regular, d, queued);
    var total := bundled + |responses|;
    HasABundle(commands);
    if total > 0 && ResponseStream(commands, streamKey) != streamKey {
      if bundles != [] || total > 1 {
        if !fieldsOk { return Err("pre-XADD validation"), None; }
        var success, landed, tries := SendBatch(attempt);
      }
    }
    return Ok(bundled + processed), Some((ACK_GROUP, ids));
  }

  /** A command that asks for its reply on a relay stream is never the one answered. */
  lemma {:induction false} AnsweredAskedForNoRelay(regular: seq<Command>, d: Dispatcher, queued: nat -> bool, k: nat)
    requires k in Where(Fates(regular, d, queued), Answered, |regular|)
    ensures k < |regular| && regular[k].relayReplyTo.None? && regular[k].relayTarget.None?
  {
    WhereIs(Fates(regular, d, queued), Answered, |regular|);
  }

  /** So when the first command is regular, what goes to its relay stream answers commands other than it. */
  lemma {:induction false} RelayRepliesAreOthers(commands: seq<(string, Command)>, d: Dispatcher, queued: nat -> bool, streamKey: string)
    requires ResponseStream(commands, streamKey) != streamKey && !IsBundle(commands[0].1)
    ensures Only(commands, false) != [] && Only(commands, false)[0] == commands[0].1
    ensures 0 !in Where(Fates(Only(commands, false), d, queued), Answered, |Only(commands, false)|)
  {
    FirstRegular(commands);
    if 0 in Where(Fates(Only(commands, false), d, queued), Answered, |Only(commands, false)|) {
      AnsweredAskedForNoRelay(Only(commands, false), d, queued, 0);
    }
  }

  lemma {:induction false} FirstRegular(commands: seq<(string, Command)>)
    requires commands != [] && !IsBundle(commands[0].1)
    ensures Only(commands, false) != [] && Only(commands, false)[0] == commands[0].1
  {
    if |commands| > 1 {
      FirstRegular(commands[..|commands| - 1]);
    } else {
      assert Only(commands[..0], false) == [];
    }
  }
}
