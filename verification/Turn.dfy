/**
 The acknowledgements of one stream pair's turn in a sweep, on the server's groups. Entries of both streams of the pair
 were read in the worker group; `number` is the position a stream's entry id names.
 */
module Turn {
  import opened Wrappers
  import opened Commands
  import opened GroupServer
  import opened Routing
  import opened StreamKeys
  import opened Sweep

  const WORKER_GROUP := "gnode-workers"
  const DAEMON_GROUP := "gnode-daemon"

  /** The state of every group, by stream and group name. */
  type Groups = map<(string, string), Server>

  function Acked(groups: Groups, key: (string, string), ids: set<nat>): Groups {
    if key in groups then groups[key := groups[key].Ack(ids)] else groups
  }

  class Servers {
    var groups: Groups

    constructor (groups: Groups)
      ensures this.groups == groups
    {
      this.groups := groups;
    }

    /** XACK: a group that does not exist acknowledges nothing. */
    method Xack(stream: string, group: string, ids: set<nat>)
      modifies this
      ensures groups == Acked(old(groups), (stream, group), ids)
    {
      if (stream, group) in groups {
        groups := groups[(stream, group) := groups[(stream, group)].Ack(ids)];
      }
    }
  }

  /** Where a turn acknowledges health entries: the health key of the site the unified key belongs to, else of the node's own site. */
  function HealthKey(unified: string, ownSite: string): string {
    BuildHealth(match SiteOf(unified) case Some(site) => site case None => ownSite)
  }

  /** What one turn acknowledges: the health entries, the local batch's own ids, and the sweep's list. */
  datatype Acks = Acks(health: set<nat>, local: set<nat>, swept: set<nat>)

  /** What of it lands in one group: the worker group of the unified stream gets the sweep's list, and nothing else does. */
  function LandsIn(key: (string, string), unified: string, ownSite: string, a: Acks): set<nat> {
    (if key == (HealthKey(unified, ownSite), DAEMON_GROUP) then a.health else {})
    + (if key == (unified, DAEMON_GROUP) then a.local else {})
    + (if key == (unified, WORKER_GROUP) then a.swept else {})
  }

  function After(groups: Groups, unified: string, ownSite: string, a: Acks): Groups {
    map key | key in groups :: groups[key].Ack(LandsIn(key, unified, ownSite, a))
  }

  function Numbers(ids: seq<string>, number: string -> nat): set<nat> {
    set id | id in ids :: number(id)
  }

  lemma AckTwice(s: Server, x: set<nat>, y: set<nat>)
    ensures s.Ack(x).Ack(y) == s.Ack(x + y) && s.Ack({}) == s
  {
    assert s.pel - x - y == s.pel - (x + y);
    assert s.pel - {} == s.pel;
  }

  /** Three acknowledgements in a row, group by group: the order does not matter. */
  lemma AckedThrice(groups: Groups, unified: string, ownSite: string, a: Acks)
    ensures Acked(Acked(Acked(groups, (HealthKey(unified, ownSite), DAEMON_GROUP), a.health), (unified, DAEMON_GROUP), a.local), (unified, WORKER_GROUP), a.swept)
         == After(groups, unified, ownSite, a)
  {
    var health, local, swept := (HealthKey(unified, ownSite), DAEMON_GROUP), (unified, DAEMON_GROUP), (unified, WORKER_GROUP);
    var one := Acked(groups, health, a.health);
    var two := Acked(one, local, a.local);
    forall key | key in groups
      ensures Acked(two, swept, a.swept)[key] == groups[key].Ack(LandsIn(key, unified, ownSite, a))
    {
      LandsOneByOne(groups, key, unified, ownSite, a);
    }
  }

  lemma LandsOneByOne(groups: Groups, key: (string, string), unified: string, ownSite: string, a: Acks)
    requires key in groups
    ensures var two := Acked(Acked(groups, (HealthKey(unified, ownSite), DAEMON_GROUP), a.health), (unified, DAEMON_GROUP), a.local);
            Acked(two, (unified, WORKER_GROUP), a.swept)[key] == groups[key].Ack(LandsIn(key, unified, ownSite, a))
  {
    var x := if key == (HealthKey(unified, ownSite), DAEMON_GROUP) then a.health else {};
    var y := if key == (unified, DAEMON_GROUP) then a.local else {};
    var z := if key == (unified, WORKER_GROUP) then a.swept else {};
    AckTwice(groups[key], x, y);
    AckTwice(groups[key].Ack(x), y, {});
    AckTwice(groups[key], x + y, z);
  }

  lemma AckedNothing(groups: Groups, key: (string, string))
    ensures Acked(groups, key, {}) == groups
  {
    if key in groups { AckTwice(groups[key], {}, {}); }
  }

  /** One turn's acknowledgements in the order they are sent. The local batch acknowledges its ids itself, when it ends well. */
  method AcknowledgeTurn(servers: Servers, unified: string, ownSite: string, healthIds: seq<string>,
                         commands: seq<(string, Command)>, unifiedIds: seq<string>, exposure: ExposureSet,
                         local: seq<string>, localOk: bool, number: string -> nat)
    modifies servers
    ensures servers.groups == After(old(servers.groups), unified, ownSite,
              Acks(Numbers(healthIds, number), if localOk then Numbers(local, number) else {}, Numbers(AckList(commands, unifiedIds, exposure), number)))
  {
    ghost var before := servers.groups;
    AckedNothing(before, (HealthKey(unified, ownSite), DAEMON_GROUP));
    assert Numbers([], number) == {};
    if healthIds != [] {
      servers.Xack(HealthKey(unified, ownSite), DAEMON_GROUP, Numbers(healthIds, number));
    }
    var toProcess, toSkip, idsToAck, idsToSkip := FilterCommands(commands, exposure);
    var nonCommands := Without(unifiedIds, set c | c in commands :: c.0);
    if nonCommands != [] {
      idsToAck := idsToAck + nonCommands;
    }
    assert idsToAck == AckList(commands, unifiedIds, exposure);
    AckedNothing(servers.groups, (unified, DAEMON_GROUP));
    if local != [] && localOk {
      servers.Xack(unified, DAEMON_GROUP, Numbers(local, number));
    }
    AckedNothing(servers.groups, (unified, WORKER_GROUP));
    if idsToAck != [] {
      servers.Xack(unified, WORKER_GROUP, Numbers(idsToAck, number));
    }
    AckedThrice(before, unified, ownSite,
      Acks(Numbers(healthIds, number), if localOk then Numbers(local, number) else {}, Numbers(AckList(commands, unifiedIds, exposure), number)));
  }

  /**
   What a turn clears, entry by entry: in the daemon group its health ids from the health stream of the key's site and its local
   ids from the unified stream, in the worker group the sweep's list from the unified stream, and nothing anywhere else.
   */
  lemma TurnClears(groups: Groups, unified: string, ownSite: string, a: Acks, stream: string, group: string, id: nat)
    requires (stream, group) in groups
    ensures var before, after := groups[(stream, group)], After(groups, unified, ownSite, a)[(stream, group)];
            var site := match SiteOf(unified) case Some(site) => site case None => ownSite;
            var cleared := (group == "gnode-daemon" && stream == "{" + site + "}:gnode:health" && id in a.health)
                        || (group == "gnode-daemon" && stream == unified && id in a.local)
                        || (group == "gnode-workers" && stream == unified && id in a.swept);
            && (id in after.pel <==> id in before.pel && !cleared)
            && (id in after.pel ==> after.pel[id] == before.pel[id])
  {
  }

  // ------------------------------------------------------------------------------------------
  // Health entries
  // ------------------------------------------------------------------------------------------

  /** One turn among many: the unified stream of its pair and what it acknowledged. */
  datatype Done = Done(unified: string, ownSite: string, acks: Acks)

  function AfterAll(groups: Groups, turns: seq<Done>): Groups {
    if turns == [] then groups
    else
      var last := turns[|turns| - 1];
      After(AfterAll(groups, turns[..|turns| - 1]), last.unified, last.ownSite, last.acks)
  }

  ghost predicate TurnsOf(turns: seq<Done>, subscribed: set<string>) {
    forall i :: 0 <= i < |turns| ==> turns[i].unified in subscribed
  }

  /** No series of turns over these unified streams clears anything from the worker group's pending list of `health`. */
  ghost predicate HealthStaysPending(subscribed: set<string>, health: string) {
    forall groups: Groups, turns: seq<Done> ::
      TurnsOf(turns, subscribed) && (health, WORKER_GROUP) in groups ==> SamePending(groups, AfterAll(groups, turns), (health, WORKER_GROUP))
  }

  predicate SamePending(before: Groups, after: Groups, key: (string, string)) {
    key in before && key in after && after[key].pel == before[key].pel
  }

  lemma {:induction false} WorkerGroupUntouched(groups: Groups, turns: seq<Done>, subscribed: set<string>, health: string)
    requires TurnsOf(turns, subscribed) && (health, WORKER_GROUP) in groups && health !in subscribed
    ensures SamePending(groups, AfterAll(groups, turns), (health, WORKER_GROUP))
  {
    if turns != [] {
      WorkerGroupUntouched(groups, turns[..|turns| - 1], subscribed, health);
      var last := turns[|turns| - 1];
      assert last.unified in subscribed;
      assert LandsIn((health, WORKER_GROUP), last.unified, last.ownSite, last.acks) == {};
    }
  }

  /** A worker group that holds one entry, and a turn of that stream that acknowledges it. */
  const ONE_PENDING := Server(0, [Entry(None, false)], 0, 1, map[0 := Owned("a", 0)], map["a" := 0])

  lemma OwnTurnClears(stream: string)
    ensures var groups, turns := map[(stream, WORKER_GROUP) := ONE_PENDING], [Done(stream, "", Acks({}, {}, {0}))];
            !SamePending(groups, AfterAll(groups, turns), (stream, WORKER_GROUP))
  {
    var groups: Groups := map[(stream, WORKER_GROUP) := ONE_PENDING];
    var turn := Done(stream, "", Acks({}, {}, {0}));
    assert [turn][..0] == [];
    assert AfterAll(groups, [turn]) == After(groups, stream, "", turn.acks);
    assert 0 in LandsIn((stream, WORKER_GROUP), stream, "", turn.acks);
    assert 0 in groups[(stream, WORKER_GROUP)].pel;
  }

  /**
   Health entries are read in the worker group, but acknowledged in the daemon group. So turns never clear one from the
   worker group's pending list, exactly when the health stream is not itself subscribed to as a unified stream.
   */
  lemma HealthReadsStayPending(subscribed: set<string>, health: string)
    ensures HealthStaysPending(subscribed, health) <==> health !in subscribed
  {
    if health in subscribed {
      OwnTurnClears(health);
      var groups: Groups, turns := map[(health, WORKER_GROUP) := ONE_PENDING], [Done(health, "", Acks({}, {}, {0}))];
      assert TurnsOf(turns, subscribed) && (health, WORKER_GROUP) in groups;
    } else {
      forall groups: Groups, turns: seq<Done> | TurnsOf(turns, subscribed) && (health, WORKER_GROUP) in groups
        ensures SamePending(groups, AfterAll(groups, turns), (health, WORKER_GROUP))
      {
        WorkerGroupUntouched(groups, turns, subscribed, health);
      }
    }
  }

  /** For one pair of a discovered stream and its twin: exactly when the unified key is not a health key itself. No built key is. */
  lemma TwinsHealthStaysPending(unified: string, site: string, environment: string, node: string)
    ensures HealthStaysPending({unified}, Twin(unified)) <==> !exists own :: '}' !in own && unified == BuildHealth(own)
    ensures HealthStaysPending({BuildUnified(site, environment)}, Twin(BuildUnified(site, environment)))
    ensures HealthStaysPending({BuildPlacement(site, environment, node)}, Twin(BuildPlacement(site, environment, node)))
  {
    HealthReadsStayPending({unified}, Twin(unified));
    OwnTwin(unified);
    BuiltKeysHaveATwin(site, environment, node);
    HealthReadsStayPending({BuildUnified(site, environment)}, Twin(BuildUnified(site, environment)));
    HealthReadsStayPending({BuildPlacement(site, environment, node)}, Twin(BuildPlacement(site, environment, node)));
  }

  /** For the fallback pair it stays pending too, and the daemon-group acknowledgement names a stream that was not read at all. */
  lemma FallbackHealthStaysPending(site: string, prefix: string, environment: string, ownSite: string)
    ensures HealthStaysPending({FallbackUnified(site, prefix, environment)}, FallbackHealth(site, prefix, environment))
    ensures HealthKey(FallbackUnified(site, prefix, environment), ownSite) != FallbackHealth(site, prefix, environment)
  {
    var unified, health := FallbackUnified(site, prefix, environment), FallbackHealth(site, prefix, environment);
    assert |unified| == |health| + 1;
    HealthReadsStayPending({unified}, health);
    FallbackIsNotTwinned(site, prefix, environment);
  }
}
