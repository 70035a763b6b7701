/**
 NOGROUP recovery of the compute listener. One read spans every active stream, so a stream without the group fails it for
 all; the listener repairs or drops the stream the reply names and reads again. A server is its streams and their groups.
 */
module NoGroup {
  import opened Wrappers
  import opened Text

  type Server = map<string, set<string>>

  // ------------------------------------------------------------------------------------------
  // The key a reply names
  // ------------------------------------------------------------------------------------------

  const MARK := "No such key '"
  const REPLY_START := "NOGROUP: No such key '"

  /** What stands before the first quote, unless that is nothing. */
  function QuotedKey(rest: string): (key: Option<string>)
    ensures key.Some? ==> key.value != "" && '\'' !in key.value
  {
    FindFromIs(rest, "'", 0);
    match Find(rest, "'")
    case None => None
    case Some(end) =>
      NoQuoteBefore(rest, end);
      if end == 0 then None else Some(rest[..end])
  }

  function NogroupKey(err: string): (key: Option<string>)
    ensures key.Some? ==> key.value != "" && '\'' !in key.value
  {
    FindFromIs(err, MARK, 0);
    if !Contains(err, "NOGROUP") then None
    else
      match Find(err, MARK)
      case None => None
      case Some(at) => QuotedKey(err[at + |MARK|..])
  }

  lemma NoQuoteBefore(s: string, end: nat)
    requires end <= |s| && forall i :: 0 <= i < end ==> !OccursAt(s, "'", i)
    ensures '\'' !in s[..end]
  {
    if '\'' in s[..end] {
      var i :| 0 <= i < end && s[i] == '\'';
      assert s[i..i + 1] == "'";
      assert OccursAt(s, "'", i);
    }
  }

  lemma QuotedKeyIs(rest: string, key: string)
    ensures QuotedKey(rest) == Some(key) <==> key != "" && '\'' !in key && exists after :: rest == key + ("'" + after)
  {
    FindFromIs(rest, "'", 0);
    if QuotedKey(rest) == Some(key) {
      assert rest == key + ("'" + rest[|key| + 1..]);
    }
    if key != "" && '\'' !in key {
      forall after | rest == key + ("'" + after) ensures QuotedKey(rest) == Some(key) {
        QuoteEnds(key, "'" + after);
        BeforeQuoteIs(key);
      }
    }
  }

  /** Any error text names a key exactly when it says NOGROUP and, behind the first mark, the key with its closing quote. */
  lemma KeyIsRead(err: string, key: string)
    ensures NogroupKey(err) == Some(key) <==>
            && Holds(err, "NOGROUP") && key != "" && '\'' !in key
            && exists before, after :: err == before + "No such key '" + (key + ("'" + after)) && Find(err, "No such key '") == Some(|before|)
  {
    FindsIt(err, "NOGROUP");
    FindFromIs(err, MARK, 0);
    if Find(err, MARK).Some? {
      var at := Find(err, MARK).value;
      var rest := err[at + |MARK|..];
      assert err == err[..at] + MARK + rest;
      QuotedKeyIs(rest, key);
      forall before, after | err == before + MARK + (key + ("'" + after)) && |before| == at ensures rest == key + ("'" + after) {
        assert err[|before + MARK|..] == key + ("'" + after);
      }
    }
  }

  /** The server's reply about a stream, as the client library prints it. */
  function NogroupReply(key: string, group: string): string {
    REPLY_START + (key + ReplyTail(group))
  }

  function ReplyTail(group: string): (tail: string)
    ensures tail != "" && tail[0] == '\''
  {
    "' or consumer group '" + group + "' in XREADGROUP with GROUP option"
  }

  /** The part of a key before its first quote. */
  function BeforeQuote(key: string): string {
    if key == "" || key[0] == '\'' then "" else [key[0]] + BeforeQuote(key[1..])
  }

  lemma {:induction false} BeforeQuoteIs(key: string)
    ensures |BeforeQuote(key)| <= |key| && BeforeQuote(key) == key[..|BeforeQuote(key)|] && '\'' !in BeforeQuote(key)
    ensures |BeforeQuote(key)| < |key| ==> key[|BeforeQuote(key)|] == '\''
    ensures '\'' !in key <==> BeforeQuote(key) == key
  {
    if key != "" && key[0] != '\'' {
      BeforeQuoteIs(key[1..]);
      assert key == [key[0]] + key[1..];
    }
  }

  /** A needle does not occur where one of its characters does not. */
  lemma Mismatch(s: string, needle: string, i: nat, j: nat)
    requires j < |needle| && i + j < |s| && s[i + j] != needle[j]
    ensures !OccursAt(s, needle, i)
  {
    if i + |needle| <= |s| {
      assert s[i..i + |needle|][j] == s[i + j];
    }
  }

  /** Where the mark starts: nowhere inside the error code. */
  lemma NoEarlierMark(err: string, i: nat)
    requires REPLY_START <= err && i < 9
    ensures !OccursAt(err, MARK, i)
  {
    var start := REPLY_START;
    assert start[1] == 'O' && start[2] == 'G' && start[3] == 'R' && start[4] == 'O' && start[5] == 'U' && start[6] == 'P' && start[7] == ':' && start[8] == ' ';
    assert err[i] == start[i] && err[i + 1] == start[i + 1];
    if i == 0 { Mismatch(err, MARK, i, 1); } else { Mismatch(err, MARK, i, 0); }
  }

  lemma StartOccurs(err: string)
    requires REPLY_START <= err
    ensures OccursAt(err, "NOGROUP", 0) && OccursAt(err, MARK, 9)
  {
    var start := REPLY_START;
    assert err[0..7] == start[0..7] == "NOGROUP";
    assert err[9..9 + |MARK|] == start[9..] == MARK;
  }

  lemma MarkFollowsTheCode(err: string)
    requires REPLY_START <= err
    ensures Find(err, "NOGROUP").Some? && Find(err, MARK) == Some(9)
  {
    StartOccurs(err);
    FindFromIs(err, "NOGROUP", 0);
    FindFromIs(err, MARK, 0);
    forall i: nat | i < 9 ensures !OccursAt(err, MARK, i) { NoEarlierMark(err, i); }
  }

  lemma {:induction false} QuoteEnds(key: string, tail: string)
    requires tail != "" && tail[0] == '\''
    ensures Find(key + tail, "'") == Some(|BeforeQuote(key)|)
  {
    var s, n := key + tail, |BeforeQuote(key)|;
    BeforeQuoteIs(key);
    assert s[n] == '\'';
    assert s[n..n + 1] == "'";
    assert OccursAt(s, "'", n);
    FindFromIs(s, "'", 0);
    forall i: nat | i < n ensures !OccursAt(s, "'", i) {
      assert s[i] == BeforeQuote(key)[i];
      Mismatch(s, "'", i, 0);
    }
  }

  lemma {:induction false} KeyOfReply(key: string, tail: string)
    requires tail != "" && tail[0] == '\''
    ensures NogroupKey(REPLY_START + (key + tail)) == if BeforeQuote(key) == "" then None else Some(BeforeQuote(key))
  {
    var err := REPLY_START + (key + tail);
    MarkFollowsTheCode(err);
    assert err[9 + |MARK|..] == key + tail;
    QuoteEnds(key, tail);
    BeforeQuoteIs(key);
    assert (key + tail)[..|BeforeQuote(key)|] == key[..|BeforeQuote(key)|];
  }

  /** The listener reads a key back from the reply up to its first quote: the whole key exactly when it holds none. */
  lemma {:induction false} ReplyNamesTheKey(key: string, group: string)
    ensures NogroupKey(NogroupReply(key, group)) == if BeforeQuote(key) == "" then None else Some(BeforeQuote(key))
    ensures NogroupKey(NogroupReply(key, group)) == Some(key) <==> key != "" && '\'' !in key
  {
    KeyOfReply(key, ReplyTail(group));
    BeforeQuoteIs(key);
  }

  // ------------------------------------------------------------------------------------------
  // Repairing or dropping the named stream
  // ------------------------------------------------------------------------------------------

  datatype Fix = GroupRecreated | StreamGone | Failed

  /** Where a repair stands: the server when EXISTS and when XGROUP CREATE reach it, and whether either call is lost. */
  datatype Calls = Calls(atExists: Server, existsLost: bool, atCreate: Server, createLost: bool)

  predicate HasGroup(server: Server, key: string, group: string) {
    key in server && group in server[key]
  }

  function FixOf(c: Calls, key: string): Fix {
    if c.existsLost then Failed
    else if key !in c.atExists then StreamGone
    else if c.createLost || key !in c.atCreate then Failed
    else GroupRecreated
  }

  function AfterFix(c: Calls, key: string, group: string): Server {
    if FixOf(c, key).GroupRecreated? then c.atCreate[key := c.atCreate[key] + {group}] else c.atCreate
  }

  /**
   `fix_nogroup`: EXISTS, then XGROUP CREATE without MKSTREAM, which a group already there answers with BUSYGROUP. It
   creates no stream and touches no other one; on success the stream has the group, and otherwise nothing changed.
   */
  method FixNogroup(c: Calls, key: string, group: string) returns (fix: Fix, after: Server)
    ensures after.Keys == c.atCreate.Keys && forall other :: other in after && other != key ==> after[other] == c.atCreate[other]
    ensures fix.StreamGone? <==> key !in c.atExists && !c.existsLost
    ensures fix.GroupRecreated? <==> key in c.atExists && key in c.atCreate && !c.existsLost && !c.createLost
    ensures fix.GroupRecreated? ==> HasGroup(after, key, group) && after[key] == c.atCreate[key] + {group}
    ensures !fix.GroupRecreated? ==> after == c.atCreate
  {
    after := c.atCreate;
    if c.existsLost { return Failed, after; }
    if key !in c.atExists { return StreamGone, after; }
    if c.createLost { return Failed, after; }
    if key !in c.atCreate { return Failed, after; }
    if group in c.atCreate[key] {
      assert c.atCreate[key] == c.atCreate[key] + {group};
      return GroupRecreated, after;
    }
    after := c.atCreate[key := c.atCreate[key] + {group}];
    return GroupRecreated, after;
  }

  /** A repair never creates a stream, touches no other stream, and leaves the named one with the group or as it was. */
  lemma RepairsAreLocal(c: Calls, key: string, group: string)
    ensures AfterFix(c, key, group).Keys == c.atCreate.Keys
    ensures forall other :: other in c.atCreate && other != key ==> AfterFix(c, key, group)[other] == c.atCreate[other]
    ensures FixOf(c, key).GroupRecreated? ==> HasGroup(AfterFix(c, key, group), key, group)
    ensures FixOf(c, key).StreamGone? ==> key !in c.atExists
  {
  }

  /** The named stream was there for both calls, and neither was lost. */
  predicate IsRepaired(c: Calls, key: string) {
    key in c.atExists && key in c.atCreate && !c.existsLost && !c.createLost
  }

  class Listener {
    const group: string
    var active: set<string>
    var syncSignals: nat

    constructor (group: string, active: set<string>)
      ensures this.group == group && this.active == active && syncSignals == 0
    {
      this.group, this.active, this.syncSignals := group, active, 0;
    }

    /** The error branch of the listener loop. Discovery is asked to sync at once only for a stream that is gone. */
    method OnReadError(err: string, c: Calls) returns (handled: bool, after: Server)
      modifies this
      ensures handled <==> NogroupKey(err).Some?
      ensures !handled ==> active == old(active) && after == c.atCreate && syncSignals == old(syncSignals)
      ensures handled ==> active == if IsRepaired(c, NogroupKey(err).value) then old(active) else old(active) - {NogroupKey(err).value}
      ensures handled ==> active == ActiveAfter(old(active), c, NogroupKey(err).value) && after == AfterFix(c, NogroupKey(err).value, group)
      ensures handled ==> syncSignals == old(syncSignals) + if FixOf(c, NogroupKey(err).value).StreamGone? then 1 else 0
    {
      var named := NogroupKey(err);
      if named.None? { return false, c.atCreate; }
      var key, fix := named.value, Failed;
      fix, after := FixNogroup(c, key, group);
      assert after == AfterFix(c, key, group);
      match fix {
        case GroupRecreated =>
        case StreamGone =>
          active := active - {key};
          syncSignals := syncSignals + 1;
        case Failed =>
          active := active - {key};
      }
      handled := true;
    }
  }

  function ActiveAfter(active: set<string>, c: Calls, key: string): set<string> {
    if FixOf(c, key).GroupRecreated? then active else active - {key}
  }

  // ------------------------------------------------------------------------------------------
  // Rounds
  // ------------------------------------------------------------------------------------------

  /** The active streams that make the read fail. */
  function Broken(active: set<string>, server: Server, group: string): set<string> {
    set key | key in active && !HasGroup(server, key, group)
  }

  /** Streams and groups appear; none is deleted. */
  predicate Grows(before: Server, after: Server) {
    forall key :: key in before ==> key in after && before[key] <= after[key]
  }

  /** A failed read: the server it met, the broken stream its reply blamed, and the repair's calls. */
  datatype Round = Round(atRead: Server, blamed: string, calls: Calls)

  predicate NoDeletion(r: Round) {
    Grows(r.atRead, r.calls.atExists) && Grows(r.calls.atExists, r.calls.atCreate)
  }

  function RoundActive(active: set<string>, r: Round, group: string): set<string> {
    match NogroupKey(NogroupReply(r.blamed, group))
    case None => active
    case Some(key) => ActiveAfter(active, r.calls, key)
  }

  function RoundServer(r: Round, group: string): Server {
    match NogroupKey(NogroupReply(r.blamed, group))
    case None => r.calls.atCreate
    case Some(key) => AfterFix(r.calls, key, group)
  }

  /** A stream name the reply can be read back from. */
  predicate Readable(key: string) {
    key != "" && '\'' !in key
  }

  lemma GrowthKeepsTheGroup(before: Server, after: Server, group: string)
    requires Grows(before, after)
    ensures forall key :: HasGroup(before, key, group) ==> HasGroup(after, key, group)
  {
  }

  /** Whatever the server does meanwhile, a round creates no stream, takes no group away and drops at most the named one. */
  lemma RoundIsLocal(active: set<string>, r: Round, group: string)
    ensures active - {BeforeQuote(r.blamed)} <= RoundActive(active, r, group) <= active
    ensures RoundServer(r, group).Keys == r.calls.atCreate.Keys && Grows(r.calls.atCreate, RoundServer(r, group))
  {
    ReplyNamesTheKey(r.blamed, group);
  }

  /** A round keeps an active stream exactly when it does not name it, or repairs it. */
  lemma RoundKeeps(active: set<string>, r: Round, group: string, key: string)
    ensures key in RoundActive(active, r, group) <==>
            key in active && (key == "" || key != BeforeQuote(r.blamed) || IsRepaired(r.calls, key))
  {
    ReplyNamesTheKey(r.blamed, group);
  }

  /** One round on a readable key: the broken streams become strictly fewer. */
  lemma RoundRepairs(active: set<string>, r: Round, group: string)
    requires r.blamed in Broken(active, r.atRead, group) && Readable(r.blamed) && NoDeletion(r)
    ensures Broken(RoundActive(active, r, group), RoundServer(r, group), group) <= Broken(active, r.atRead, group) - {r.blamed}
  {
    ReplyNamesTheKey(r.blamed, group);
    RepairsAreLocal(r.calls, r.blamed, group);
    GrowthKeepsTheGroup(r.atRead, r.calls.atExists, group);
    GrowthKeepsTheGroup(r.calls.atExists, r.calls.atCreate, group);
  }

  /** No unreadable active key has an active key as the part before its quote. */
  predicate PrefixFree(active: set<string>) {
    forall key :: key in active && !Readable(key) ==> BeforeQuote(key) == "" || BeforeQuote(key) !in active
  }

  /** Then a round drops no stream that had the group at the read, even when streams and groups are deleted meanwhile. */
  lemma RoundSparesTheHealthy(active: set<string>, r: Round, group: string, key: string)
    requires PrefixFree(active) && r.blamed in Broken(active, r.atRead, group)
    requires key in active && HasGroup(r.atRead, key, group)
    ensures key in RoundActive(active, r, group)
  {
    ReplyNamesTheKey(r.blamed, group);
    BeforeQuoteIs(r.blamed);
  }

  /** Each read of the run fails, blames a broken stream, and between rounds nothing is deleted. */
  ghost predicate Fails(active: set<string>, rounds: seq<Round>, group: string)
    decreases |rounds|
  {
    rounds == [] ||
    (&& rounds[0].blamed in Broken(active, rounds[0].atRead, group) && NoDeletion(rounds[0])
     && (|rounds| > 1 ==> Grows(RoundServer(rounds[0], group), rounds[1].atRead))
     && Fails(RoundActive(active, rounds[0], group), rounds[1..], group))
  }

  /** The listener's streams after a run of rounds. */
  function ActiveAtEnd(active: set<string>, rounds: seq<Round>, group: string): set<string>
    decreases |rounds|
  {
    if rounds == [] then active else ActiveAtEnd(RoundActive(active, rounds[0], group), rounds[1..], group)
  }

  /** Over a run, a stream stays active exactly when every round that named it repaired it. */
  lemma {:induction false} RunKeeps(active: set<string>, rounds: seq<Round>, group: string, key: string)
    ensures key in ActiveAtEnd(active, rounds, group) <==>
            key in active && forall i :: 0 <= i < |rounds| ==> key == "" || key != BeforeQuote(rounds[i].blamed) || IsRepaired(rounds[i].calls, key)
    decreases |rounds|
  {
    if rounds != [] {
      RoundKeeps(active, rounds[0], group, key);
      RunKeeps(RoundActive(active, rounds[0], group), rounds[1..], group, key);
      var rest := rounds[1..];
      assert forall i :: 0 <= i < |rest| ==> rest[i] == rounds[i + 1];
      if forall i :: 0 <= i < |rest| ==> key == "" || key != BeforeQuote(rest[i].blamed) || IsRepaired(rest[i].calls, key) {
        forall i | 1 <= i < |rounds| ensures key == "" || key != BeforeQuote(rounds[i].blamed) || IsRepaired(rounds[i].calls, key) {
          assert rounds[i] == rest[i - 1];
        }
      }
    }
  }

  /** So a stream that exists whenever a repair asks is still read at the end, unless a call is lost. */
  lemma {:induction false} ExistingStreamsStay(active: set<string>, rounds: seq<Round>, group: string, key: string)
    requires key in active
    requires forall i :: 0 <= i < |rounds| ==> !rounds[i].calls.existsLost && !rounds[i].calls.createLost
    requires forall i :: 0 <= i < |rounds| ==> key in rounds[i].calls.atExists && key in rounds[i].calls.atCreate
    ensures key in ActiveAtEnd(active, rounds, group)
  {
    RunKeeps(active, rounds, group, key);
  }

  // ------------------------------------------------------------------------------------------
  // Termination
  // ------------------------------------------------------------------------------------------

  lemma FewerBroken(active: set<string>, before: Server, after: Server, group: string)
    requires Grows(before, after)
    ensures Broken(active, after, group) <= Broken(active, before, group)
  {
    GrowthKeepsTheGroup(before, after, group);
  }

  lemma SmallerSet(a: set<string>, b: set<string>, x: string)
    requires a <= b - {x} && x in b
    ensures |a| < |b|
  {
    SubsetSize(a, b - {x});
  }

  lemma {:induction false} SubsetSize(a: set<string>, b: set<string>)
    requires a <= b
    ensures |a| <= |b|
  {
    if a != {} {
      var x :| x in a;
      SubsetSize(a - {x}, b - {x});
    }
  }

  /** With readable keys, reads fail at most as often as there are broken streams at the first: then one succeeds, or no stream is left. */
  lemma {:induction false} RecoveryTerminates(active: set<string>, rounds: seq<Round>, group: string)
    requires Fails(active, rounds, group) && rounds != [] && forall key :: key in active ==> Readable(key)
    ensures |rounds| <= |Broken(active, rounds[0].atRead, group)| <= |active|
    decreases |rounds|
  {
    var r := rounds[0];
    var broken, next := Broken(active, r.atRead, group), RoundActive(active, r, group);
    SubsetSize(broken, active);
    RoundRepairs(active, r, group);
    RoundIsLocal(active, r, group);
    if |rounds| == 1 {
      assert r.blamed in broken;
    } else {
      RecoveryTerminates(next, rounds[1..], group);
      FewerBroken(next, RoundServer(r, group), rounds[1].atRead, group);
      SmallerSet(Broken(next, rounds[1].atRead, group), broken, r.blamed);
    }
  }

  /** No round drops an unreadable key, so whatever happened, every read that meets it without the group still fails. */
  lemma {:induction false} UnreadableKeyStays(active: set<string>, rounds: seq<Round>, group: string, key: string, server: Server)
    requires key in active && !Readable(key)
    ensures key in ActiveAtEnd(active, rounds, group)
    ensures !HasGroup(server, key, group) ==> key in Broken(ActiveAtEnd(active, rounds, group), server, group)
    decreases |rounds|
  {
    if rounds != [] {
      RoundIsLocal(active, rounds[0], group);
      BeforeQuoteIs(rounds[0].blamed);
      ReplyNamesTheKey(rounds[0].blamed, group);
      BeforeQuoteIs(key);
      UnreadableKeyStays(RoundActive(active, rounds[0], group), rounds[1..], group, key, server);
    }
  }

  /** `n` reads of a server without any stream, each blaming `key`. */
  function Blocked(key: string, n: nat): seq<Round> {
    if n == 0 then [] else [Round(map[], key, Calls(map[], false, map[], false))] + Blocked(key, n - 1)
  }

  /** While its stream is gone, an unreadable key fails the read of every stream any number of times over. */
  lemma {:induction false} QuotedKeyBlocksForever(active: set<string>, key: string, group: string, n: nat)
    requires key in active && !Readable(key)
    ensures |Blocked(key, n)| == n && Fails(active, Blocked(key, n), group)
    decreases n
  {
    if n > 0 {
      var first := Blocked(key, n)[0];
      UnreadableKeyStays(active, [first], group, key, map[]);
      assert ActiveAtEnd(active, [first], group) == RoundActive(active, first, group);
      assert Blocked(key, n)[1..] == Blocked(key, n - 1);
      RoundIsLocal(active, first, group);
      QuotedKeyBlocksForever(RoundActive(active, first, group), key, group, n - 1);
      assert n > 1 ==> Blocked(key, n)[1] == first;
    }
  }

  /** No run of failing reads is longer than the list of streams. */
  ghost predicate Recovers(active: set<string>, group: string) {
    forall rounds: seq<Round> :: Fails(active, rounds, group) ==> |rounds| <= |active|
  }

  /** Recovery terminates exactly when every active key can be read back from a reply. */
  lemma RecoversExactly(active: set<string>, group: string)
    ensures Recovers(active, group) <==> forall key :: key in active ==> Readable(key)
  {
    if key :| key in active && !Readable(key) {
      QuotedKeyBlocksForever(active, key, group, |active| + 1);
    } else {
      forall rounds: seq<Round> | Fails(active, rounds, group) ensures |rounds| <= |active| {
        if rounds != [] { RecoveryTerminates(active, rounds, group); }
      }
    }
  }

  // ------------------------------------------------------------------------------------------
  // Starvation
  // ------------------------------------------------------------------------------------------

  lemma FewerStayPrefixFree(active: set<string>, fewer: set<string>)
    requires PrefixFree(active) && fewer <= active
    ensures PrefixFree(fewer)
  {
  }

  /** Without a misleading key, no stream that had the group at the first read is dropped on the way. */
  lemma {:induction false} NobodyIsStarved(active: set<string>, rounds: seq<Round>, group: string, key: string)
    requires Fails(active, rounds, group) && rounds != [] && PrefixFree(active)
    requires key in active && HasGroup(rounds[0].atRead, key, group)
    ensures key in ActiveAtEnd(active, rounds, group)
    decreases |rounds|
  {
    var r := rounds[0];
    RoundSparesTheHealthy(active, r, group, key);
    RoundIsLocal(active, r, group);
    if |rounds| > 1 {
      GrowthKeepsTheGroup(r.atRead, r.calls.atExists, group);
      GrowthKeepsTheGroup(r.calls.atExists, r.calls.atCreate, group);
      GrowthKeepsTheGroup(r.calls.atCreate, RoundServer(r, group), group);
      GrowthKeepsTheGroup(RoundServer(r, group), rounds[1].atRead, group);
      FewerStayPrefixFree(active, RoundActive(active, r, group));
      NobodyIsStarved(RoundActive(active, r, group), rounds[1..], group, key);
    }
  }

  /** A round that blames `misleading` while only the stream before its quote exists, whose EXISTS is then lost. */
  function Misled(misleading: string, group: string): Round {
    var server: Server := map[BeforeQuote(misleading) := {group}];
    Round(server, misleading, Calls(server, true, server, false))
  }

  /** The stream named by mistake has the group, nothing is deleted, and it is dropped all the same. */
  lemma {:induction false} HealthyStreamIsDropped(active: set<string>, misleading: string, group: string)
    requires misleading in active && !Readable(misleading) && BeforeQuote(misleading) != "" && BeforeQuote(misleading) in active
    ensures Fails(active, [Misled(misleading, group)], group)
    ensures HasGroup(Misled(misleading, group).atRead, BeforeQuote(misleading), group)
    ensures BeforeQuote(misleading) !in ActiveAtEnd(active, [Misled(misleading, group)], group)
  {
    var r := Misled(misleading, group);
    ReplyNamesTheKey(misleading, group);
    BeforeQuoteIs(misleading);
    assert [r][1..] == [];
    assert ActiveAtEnd(active, [r], group) == RoundActive(active, r, group);
  }

  /** No run of failing reads drops a stream that had the group at its first read. */
  ghost predicate SparesTheHealthy(active: set<string>, group: string) {
    forall rounds: seq<Round>, key: string ::
      Fails(active, rounds, group) && rounds != [] && key in active && HasGroup(rounds[0].atRead, key, group) ==> key in ActiveAtEnd(active, rounds, group)
  }

  /** Nobody is starved exactly when no unreadable key names another active stream. */
  lemma SparesTheHealthyExactly(active: set<string>, group: string)
    ensures SparesTheHealthy(active, group) <==> PrefixFree(active)
  {
    if PrefixFree(active) {
      forall rounds: seq<Round>, key: string | Fails(active, rounds, group) && rounds != [] && key in active && HasGroup(rounds[0].atRead, key, group)
        ensures key in ActiveAtEnd(active, rounds, group)
      {
        NobodyIsStarved(active, rounds, group, key);
      }
    } else {
      var misleading :| misleading in active && !Readable(misleading) && BeforeQuote(misleading) != "" && BeforeQuote(misleading) in active;
      HealthyStreamIsDropped(active, misleading, group);
    }
  }
}
