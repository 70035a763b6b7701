/** Two loops of one worker sweep: routing the commands that were read, and choosing which ids to acknowledge. */
module Sweep {
  import opened Routing
  import opened GroupServer
  import opened Delivery
  import opened Commands
  import opened Selection

  // ------------------------------------------------------------------------------------------
  // Routing and acknowledgement
  // ------------------------------------------------------------------------------------------

  /** The commands the exposure accepts, or those it refuses, in the order they were read. */
  function Routed(commands: seq<(string, Command)>, exposure: ExposureSet, accepted: bool): seq<(string, Command)> {
    if commands == [] then []
    else
      var rest := Routed(commands[1..], exposure, accepted);
      if exposure.Accepts(commands[0].1.groupHint) == accepted then [commands[0]] + rest else rest
  }

  /** The non-empty ids of the commands. */
  function Ids(commands: seq<(string, Command)>): seq<string> {
    if commands == [] then []
    else (if commands[0].0 == "" then [] else [commands[0].0]) + Ids(commands[1..])
  }

  function Without(ids: seq<string>, known: set<string>): seq<string> {
    if ids == [] then []
    else (if ids[0] in known then [] else [ids[0]]) + Without(ids[1..], known)
  }

  lemma {:induction false} RoutedAppends(commands: seq<(string, Command)>, last: (string, Command), exposure: ExposureSet, accepted: bool)
    ensures Routed(commands + [last], exposure, accepted) ==
            Routed(commands, exposure, accepted) + (if exposure.Accepts(last.1.groupHint) == accepted then [last] else [])
  {
    if commands == [] {
      assert [last][1..] == [];
      assert commands + [last] == [last];
    } else {
      assert (commands + [last])[1..] == commands[1..] + [last];
      RoutedAppends(commands[1..], last, exposure, accepted);
    }
  }

  function GoesTo(exposure: ExposureSet, accepted: bool): ((string, Command)) -> bool {
    (c: (string, Command)) => exposure.Accepts(c.1.groupHint) == accepted
  }

  function Whole(): ((string, Command)) -> (string, Command) {
    (c: (string, Command)) => c
  }

  /** Each side holds its commands and no more, in the order they were read, whatever their ids. */
  lemma {:induction false} RoutedIs(commands: seq<(string, Command)>, exposure: ExposureSet, accepted: bool)
    ensures Selects(commands, Routed(commands, exposure, accepted), GoesTo(exposure, accepted), Whole())
  {
    if commands == [] {
      SelectsNone(GoesTo(exposure, accepted), Whole());
    } else {
      var front, last := commands[..|commands| - 1], commands[|commands| - 1];
      assert commands == front + [last];
      RoutedIs(front, exposure, accepted);
      RoutedAppends(front, last, exposure, accepted);
      SelectsLast(commands, Routed(front, exposure, accepted), Routed(commands, exposure, accepted), GoesTo(exposure, accepted), Whole());
    }
  }

  lemma {:induction false} IdsAppend(commands: seq<(string, Command)>, last: (string, Command))
    ensures Ids(commands + [last]) == Ids(commands) + (if last.0 == "" then [] else [last.0])
  {
    if commands == [] {
      assert commands + [last] == [last];
      assert [last][1..] == [];
    } else {
      assert (commands + [last])[1..] == commands[1..] + [last];
      IdsAppend(commands[1..], last);
    }
  }

  /** `filter_commands_by_node_type`. */
  method FilterCommands(commands: seq<(string, Command)>, exposure: ExposureSet)
    returns (toProcess: seq<(string, Command)>, toSkip: seq<(string, Command)>, idsToAck: seq<string>, idsToSkip: seq<string>)
    ensures toProcess == Routed(commands, exposure, true) && toSkip == Routed(commands, exposure, false)
    ensures idsToAck == Ids(toProcess) && idsToSkip == Ids(toSkip)
  {
    toProcess, toSkip, idsToAck, idsToSkip := [], [], [], [];
    var i := 0;
    while i < |commands|
      invariant 0 <= i <= |commands|
      invariant toProcess == Routed(commands[..i], exposure, true) && toSkip == Routed(commands[..i], exposure, false)
      invariant idsToAck == Ids(toProcess) && idsToSkip == Ids(toSkip)
    {
      var (id, cmd) := commands[i];
      assert commands[..i + 1] == commands[..i] + [commands[i]];
      RoutedAppends(commands[..i], commands[i], exposure, true);
      RoutedAppends(commands[..i], commands[i], exposure, false);
      if exposure.Accepts(cmd.groupHint) {
        IdsAppend(toProcess, (id, cmd));
        toProcess := toProcess + [(id, cmd)];
        if id != "" { idsToAck := idsToAck + [id]; }
      } else {
        IdsAppend(toSkip, (id, cmd));
        toSkip := toSkip + [(id, cmd)];
        if id != "" { idsToSkip := idsToSkip + [id]; }
      }
      i := i + 1;
    }
    assert commands[..i] == commands;
  }

  /** The ids a sweep acknowledges in the worker group: the accepted commands', then everything that is no command. */
  function AckList(commands: seq<(string, Command)>, unified: seq<string>, exposure: ExposureSet): seq<string> {
    Ids(Routed(commands, exposure, true)) + Without(unified, set c | c in commands :: c.0)
  }

  function SkipList(commands: seq<(string, Command)>, exposure: ExposureSet): seq<string> {
    Ids(Routed(commands, exposure, false))
  }

  /** What a read returns: ids without repetition, none empty, and the commands among them, each once. */
  ghost predicate IsRead(commands: seq<(string, Command)>, unified: seq<string>) {
    && (forall i, j :: 0 <= i < j < |unified| ==> unified[i] != unified[j])
    && "" !in unified
    && (forall i :: 0 <= i < |commands| ==> commands[i].0 in unified)
    && (forall i, j :: 0 <= i < j < |commands| ==> commands[i].0 != commands[j].0)
  }

  function EntryIds(commands: seq<(string, Command)>): seq<string> {
    seq(|commands|, i requires 0 <= i < |commands| => commands[i].0)
  }

  lemma EntryIdsStep(commands: seq<(string, Command)>)
    requires commands != []
    ensures multiset(EntryIds(commands)) == multiset{commands[0].0} + multiset(EntryIds(commands[1..]))
  {
    assert EntryIds(commands) == [commands[0].0] + EntryIds(commands[1..]);
  }

  /** Routing loses and repeats nothing. */
  lemma {:induction false} RoutedIdsAreAll(commands: seq<(string, Command)>, exposure: ExposureSet)
    requires forall i :: 0 <= i < |commands| ==> commands[i].0 != ""
    ensures multiset(Ids(Routed(commands, exposure, true))) + multiset(Ids(Routed(commands, exposure, false))) == multiset(EntryIds(commands))
  {
    if commands != [] {
      RoutedIdsAreAll(commands[1..], exposure);
      EntryIdsStep(commands);
      RoutedIdsStep(commands, exposure);
    }
  }

  lemma {:induction false} RoutedIdsStep(commands: seq<(string, Command)>, exposure: ExposureSet)
    requires commands != [] && commands[0].0 != ""
    ensures multiset(Ids(Routed(commands, exposure, true))) + multiset(Ids(Routed(commands, exposure, false))) ==
            multiset{commands[0].0} + (multiset(Ids(Routed(commands[1..], exposure, true))) + multiset(Ids(Routed(commands[1..], exposure, false))))
  {
    var accepted := exposure.Accepts(commands[0].1.groupHint);
    var rest := Routed(commands[1..], exposure, accepted);
    assert Routed(commands, exposure, accepted) == [commands[0]] + rest;
    assert ([commands[0]] + rest)[1..] == rest;
    assert Ids(Routed(commands, exposure, accepted)) == [commands[0].0] + Ids(rest);
    assert Routed(commands, exposure, !accepted) == Routed(commands[1..], exposure, !accepted);
  }

  lemma {:induction false} WithoutCounts(ids: seq<string>, known: set<string>, x: string)
    ensures multiset(Without(ids, known))[x] == if x in known then 0 else multiset(ids)[x]
  {
    if ids != [] {
      WithoutCounts(ids[1..], known, x);
      assert ids == [ids[0]] + ids[1..];
    }
  }

  lemma {:induction false} DistinctCount(ids: seq<string>, x: string)
    requires forall i, j :: 0 <= i < j < |ids| ==> ids[i] != ids[j]
    ensures multiset(ids)[x] == if x in ids then 1 else 0
  {
    if ids != [] {
      assert ids == [ids[0]] + ids[1..];
      DistinctCount(ids[1..], x);
    }
  }

  /** Each id that was read is acknowledged once or skipped once, never both, and no other id is in either list. */
  lemma AckAndSkipPartitionTheRead(commands: seq<(string, Command)>, unified: seq<string>, exposure: ExposureSet)
    requires IsRead(commands, unified)
    ensures multiset(AckList(commands, unified, exposure)) + multiset(SkipList(commands, exposure)) == multiset(unified)
  {
    var known := set c | c in commands :: c.0;
    var names := EntryIds(commands);
    RoutedIdsAreAll(commands, exposure);
    var all := multiset(AckList(commands, unified, exposure)) + multiset(SkipList(commands, exposure));
    assert all == multiset(names) + multiset(Without(unified, known));
    forall x: string ensures all[x] == multiset(unified)[x] {
      WithoutCounts(unified, known, x);
      DistinctCount(names, x);
      DistinctCount(unified, x);
      KnownIsNamed(commands, x);
    }
  }

  lemma KnownIsNamed(commands: seq<(string, Command)>, x: string)
    ensures x in (set c | c in commands :: c.0) <==> x in EntryIds(commands)
  {
    if x in EntryIds(commands) {
      var i :| 0 <= i < |commands| && EntryIds(commands)[i] == x;
      assert commands[i] in commands;
    }
    if x in (set c | c in commands :: c.0) {
      var c :| c in commands && c.0 == x;
      var i :| 0 <= i < |commands| && commands[i] == c;
      assert EntryIds(commands)[i] == x;
    }
  }

  ghost predicate HasCommand(commands: seq<(string, Command)>, id: string, exposure: ExposureSet, accepted: bool) {
    exists i :: 0 <= i < |commands| && commands[i].0 == id && exposure.Accepts(commands[i].1.groupHint) == accepted
  }

  lemma {:induction false} RoutedId(commands: seq<(string, Command)>, exposure: ExposureSet, accepted: bool, id: string)
    ensures id in Ids(Routed(commands, exposure, accepted)) <==> id != "" && HasCommand(commands, id, exposure, accepted)
  {
    if commands != [] {
      RoutedId(commands[1..], exposure, accepted, id);
      var first := exposure.Accepts(commands[0].1.groupHint) == accepted;
      if first {
        assert Routed(commands, exposure, accepted)[1..] == Routed(commands[1..], exposure, accepted);
      }
      FirstOrRest(commands, exposure, accepted, id);
    }
  }

  lemma FirstOrRest(commands: seq<(string, Command)>, exposure: ExposureSet, accepted: bool, id: string)
    requires commands != []
    ensures HasCommand(commands, id, exposure, accepted) <==>
            (commands[0].0 == id && exposure.Accepts(commands[0].1.groupHint) == accepted) || HasCommand(commands[1..], id, exposure, accepted)
  {
    if HasCommand(commands[1..], id, exposure, accepted) {
      var i :| 0 <= i < |commands[1..]| && commands[1..][i].0 == id && exposure.Accepts(commands[1..][i].1.groupHint) == accepted;
      assert commands[i + 1] == commands[1..][i];
    }
    if HasCommand(commands, id, exposure, accepted) {
      var i :| 0 <= i < |commands| && commands[i].0 == id && exposure.Accepts(commands[i].1.groupHint) == accepted;
      if i > 0 { assert commands[1..][i - 1] == commands[i]; }
    }
  }

  lemma {:induction false} WithoutId(ids: seq<string>, known: set<string>, id: string)
    ensures id in Without(ids, known) <==> id in ids && id !in known
  {
    if ids != [] {
      WithoutId(ids[1..], known, id);
    }
  }

  /** How the stream names its entries: `number` undoes `name`, and no name is empty. */
  datatype Naming = Naming(name: nat -> string, number: string -> nat) {
    ghost predicate Faithful() {
      forall i :: name(i) != "" && number(name(i)) == i
    }
  }

  /** Command `k` is what the entry it is named after parses to. */
  ghost predicate Parses(log: seq<Entry>, lo: nat, hi: nat, n: Naming, command: (string, Command)) {
    var id := n.number(command.0);
    lo <= id < hi && id < |log| && command.0 == n.name(id) && log[id].command && log[id].hint == command.1.groupHint
  }

  /** A read of the entries [lo, hi): every id, and as commands exactly the entries that parse as one. */
  ghost predicate IsBatch(log: seq<Entry>, lo: nat, hi: nat, n: Naming, commands: seq<(string, Command)>, unified: seq<string>) {
    && lo <= hi <= |log| && n.Faithful()
    && unified == seq(hi - lo, i requires 0 <= i => n.name(lo + i))
    && (forall k :: 0 <= k < |commands| ==> Parses(log, lo, hi, n, commands[k]))
    && (forall id :: lo <= id < hi && log[id].command ==> n.name(id) in EntryIds(commands))
  }

  lemma CommandOf(log: seq<Entry>, lo: nat, hi: nat, n: Naming, commands: seq<(string, Command)>, unified: seq<string>, exposure: ExposureSet, id: nat)
    requires IsBatch(log, lo, hi, n, commands, unified) && lo <= id < hi
    ensures HasCommand(commands, n.name(id), exposure, true) <==> log[id].command && exposure.Accepts(log[id].hint)
    ensures n.name(id) in EntryIds(commands) <==> log[id].command
  {
    var name := n.name(id);
    if name in EntryIds(commands) {
      var k :| 0 <= k < |commands| && EntryIds(commands)[k] == name;
      assert Parses(log, lo, hi, n, commands[k]);
    }
    if HasCommand(commands, name, exposure, true) {
      var k :| 0 <= k < |commands| && commands[k].0 == name && exposure.Accepts(commands[k].1.groupHint) == true;
      assert Parses(log, lo, hi, n, commands[k]);
    }
  }

  /** The list a sweep sends to XACK names exactly the entries the protocol's acknowledgement step acknowledges. */
  lemma AckListIsTheProtocols(server: Server, lo: nat, hi: nat, n: Naming, commands: seq<(string, Command)>, unified: seq<string>, exposure: ExposureSet, id: nat)
    requires IsBatch(server.log, lo, hi, n, commands, unified) && lo <= id < hi
    ensures n.name(id) in AckList(commands, unified, exposure) <==> id in AckIds(server, exposure, lo, hi)
  {
    var known := set c | c in commands :: c.0;
    CommandOf(server.log, lo, hi, n, commands, unified, exposure, id);
    RoutedId(commands, exposure, true, n.name(id));
    WithoutId(unified, known, n.name(id));
    KnownIsNamed(commands, n.name(id));
    assert unified[id - lo] == n.name(id);
  }

  /** And it names nothing else. */
  lemma AckListNamesTheBatch(server: Server, lo: nat, hi: nat, n: Naming, commands: seq<(string, Command)>, unified: seq<string>, exposure: ExposureSet, x: string)
    requires IsBatch(server.log, lo, hi, n, commands, unified) && x in AckList(commands, unified, exposure)
    ensures exists id :: lo <= id < hi && x == n.name(id) && id in AckIds(server, exposure, lo, hi)
  {
    var known := set c | c in commands :: c.0;
    RoutedId(commands, exposure, true, x);
    WithoutId(unified, known, x);
    if x in unified {
      var i :| 0 <= i < |unified| && unified[i] == x;
      AckListIsTheProtocols(server, lo, hi, n, commands, unified, exposure, lo + i);
    } else {
      var k :| 0 <= k < |commands| && commands[k].0 == x && exposure.Accepts(commands[k].1.groupHint) == true;
      assert Parses(server.log, lo, hi, n, commands[k]);
      AckListIsTheProtocols(server, lo, hi, n, commands, unified, exposure, n.number(x));
    }
  }
}
