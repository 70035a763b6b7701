/**
 One stream and one consumer group on the server: the entries, the Pending Entries List with its
 owners and idle clocks, and the consumers. Each command a node sends is one function from the
 state before it to the state after it and its reply. Time is a natural number of milliseconds.
 */
module GroupServer {
  import opened Wrappers

  type Consumer = string

  /** What routing looks at: the `_gh` hint, and whether the entry parses as a command. */
  datatype Entry = Entry(hint: Option<string>, command: bool)

  /** A pending entry: who holds it and when it was last delivered or claimed. */
  datatype Owned = Owned(owner: Consumer, since: nat)

  datatype PendingRow = PendingRow(id: nat, owner: Consumer, idle: nat)

  datatype ConsumerRow = ConsumerRow(pending: nat, idle: nat)

  /** The map that gives every id in [lo, hi) the same value. */
  function Span<T>(lo: nat, hi: nat, value: T): (m: map<nat, T>)
    ensures forall id :: id in m <==> lo <= id < hi
    ensures forall id :: id in m ==> m[id] == value
  {
    if hi <= lo then map[] else Span(lo, hi - 1, value)[hi - 1 := value]
  }

  /**
   Entry ids are positions in `log`; `trimmed` of them have been cut from the front. `cursor` is the
   group's last-delivered position and `seen` the time each consumer last read or claimed.
   */
  datatype Server = Server(now: nat, log: seq<Entry>, trimmed: nat, cursor: nat, pel: map<nat, Owned>, seen: map<Consumer, nat>) {

    ghost predicate Valid() {
      && trimmed <= |log|
      && cursor <= |log|
      && (forall id :: id in pel ==> id < cursor)
      && (forall id :: id in pel ==> pel[id].since <= now && pel[id].owner in seen)
      && (forall c :: c in seen ==> seen[c] <= now)
    }

    predicate Present(id: nat) {
      trimmed <= id < |log|
    }

    function Held(c: Consumer): set<nat> {
      set id | id in pel && pel[id].owner == c
    }

    /** XREADGROUP `>`: the next undelivered entries still in the stream, as a range. */
    function ReadRange(count: nat): (range: (nat, nat)) {
      var lo := if cursor < trimmed then trimmed else cursor;
      (lo, if lo + count <= |log| then lo + count else if lo <= |log| then |log| else lo)
    }

    function Read(c: Consumer, count: nat): Server {
      var (lo, hi) := ReadRange(count);
      this.(cursor := if lo < hi then hi else cursor,
            pel := pel + Span(lo, hi, Owned(c, now)),
            seen := seen[c := now])
    }

    /** XACK: clears the ids that are pending, whoever holds them. */
    function Ack(ids: set<nat>): Server {
      this.(pel := pel - ids)
    }

    /** XPENDING IDLE: the first `count` entries idle long enough, in id order, from `lo` on. */
    function Pending(minIdle: nat, lo: nat, count: nat): seq<PendingRow>
      requires Valid()
      decreases cursor - lo
    {
      if cursor <= lo || count == 0 then []
      else if lo in pel && now - pel[lo].since >= minIdle then
        [PendingRow(lo, pel[lo].owner, now - pel[lo].since)] + Pending(minIdle, lo + 1, count - 1)
      else Pending(minIdle, lo + 1, count)
    }

    /** XRANGE id id. */
    function Range(id: nat): Option<Entry> {
      if Present(id) then Some(log[id]) else None
    }

    /** What one XCLAIM moves: pending, in the stream, and idle long enough when it executes. */
    function Claimable(minIdle: nat, ids: set<nat>): set<nat> {
      set id | id in ids && id in pel && Present(id) && now - pel[id].since >= minIdle
    }

    /** What one XCLAIM clears: pending, but no longer in the stream. */
    function Phantoms(ids: set<nat>): set<nat> {
      set id | id in ids && id in pel && !Present(id)
    }

    function Claim(c: Consumer, minIdle: nat, ids: set<nat>): Server {
      var claimed, gone := Claimable(minIdle, ids), Phantoms(ids);
      this.(pel := map id | id in pel.Keys - gone :: if id in claimed then Owned(c, now) else pel[id],
            seen := seen[c := now])
    }

    /** XINFO CONSUMERS, by name. */
    function Consumers(): map<Consumer, ConsumerRow>
      requires Valid()
    {
      map c | c in seen :: ConsumerRow(|Held(c)|, now - seen[c])
    }

    /** XGROUP DELCONSUMER: the consumer and everything it holds go; the reply is how many it held. */
    function DelConsumer(c: Consumer): Server {
      this.(pel := pel - Held(c), seen := seen - {c})
    }

    lemma CommandsKeepValid(c: Consumer, count: nat, minIdle: nat, ids: set<nat>)
      requires Valid()
      ensures Read(c, count).Valid() && Ack(ids).Valid() && Claim(c, minIdle, ids).Valid() && DelConsumer(c).Valid()
    {
    }
  }

  // ------------------------------------------------------------------------------------------
  // What XREADGROUP delivers
  // ------------------------------------------------------------------------------------------

  /** The entries below `hi` that are in the stream and that no consumer of the group has been given. */
  function UndeliveredBelow(s: Server, hi: nat): set<nat> {
    set id | 0 <= id < hi && s.cursor <= id && s.Present(id)
  }

  lemma {:induction false} UndeliveredAre(s: Server, hi: nat)
    requires hi <= |s.log|
    ensures |UndeliveredBelow(s, hi)| == (var lo := if s.cursor < s.trimmed then s.trimmed else s.cursor; if lo < hi then hi - lo else 0)
  {
    if hi > 0 {
      UndeliveredAre(s, hi - 1);
      var before := UndeliveredBelow(s, hi - 1);
      if s.cursor <= hi - 1 && s.Present(hi - 1) {
        assert UndeliveredBelow(s, hi) == before + {hi - 1};
      } else {
        assert UndeliveredBelow(s, hi) == before;
      }
    }
  }

  /**
   A read gives the consumer exactly the first `count` entries in the stream that the group has not delivered, stamps them and
   the consumer with the time, leaves every other pending entry alone, and moves the cursor just past the last it gave.
   */
  lemma ReadDelivers(s: Server, c: Consumer, count: nat, id: nat)
    requires s.Valid()
    ensures var t := s.Read(c, count);
            && (id in s.pel ==> id in t.pel && t.pel[id] == s.pel[id])
            && (id !in s.pel && id in t.pel <==> s.cursor <= id && s.Present(id) && |UndeliveredBelow(s, id)| < count)
            && (id !in s.pel && id in t.pel ==> t.pel[id] == Owned(c, s.now) && id < t.cursor)
            && (s.cursor < t.cursor ==> t.cursor - 1 in t.pel && t.cursor - 1 !in s.pel)
            && s.cursor <= t.cursor && t.seen == s.seen[c := s.now]
  {
    if s.Present(id) {
      UndeliveredAre(s, id);
    }
  }

  // ------------------------------------------------------------------------------------------
  // What XPENDING offers
  // ------------------------------------------------------------------------------------------

  predicate IsIdle(s: Server, minIdle: nat, id: nat) {
    id in s.pel && s.now - s.pel[id].since >= minIdle
  }

  /** The idle pending entries in [lo, hi). */
  function IdleBetween(s: Server, minIdle: nat, lo: nat, hi: nat): set<nat> {
    set id | id in s.pel && lo <= id < hi && IsIdle(s, minIdle, id)
  }

  /** Some row is about this entry, and says who holds it and for how long. */
  ghost predicate Offers(s: Server, rows: seq<PendingRow>, id: nat) {
    exists j :: 0 <= j < |rows| && OffersAt(s, rows, id, j)
  }

  predicate OffersAt(s: Server, rows: seq<PendingRow>, id: nat, j: int)
    requires 0 <= j < |rows|
  {
    IsRowOf(s, rows[j], id)
  }

  predicate IsRowOf(s: Server, row: PendingRow, id: nat) {
    id in s.pel && row.id == id && row.owner == s.pel[id].owner && row.idle == s.now - s.pel[id].since
  }

  lemma OffersOneMore(s: Server, row: PendingRow, rows: seq<PendingRow>, id: nat)
    ensures Offers(s, [row] + rows, id) <==> IsRowOf(s, row, id) || Offers(s, rows, id)
  {
    var all := [row] + rows;
    if IsRowOf(s, row, id) {
      assert OffersAt(s, all, id, 0);
    }
    if Offers(s, rows, id) {
      var j :| 0 <= j < |rows| && OffersAt(s, rows, id, j);
      assert OffersAt(s, all, id, j + 1);
    }
    if Offers(s, all, id) {
      var j :| 0 <= j < |all| && OffersAt(s, all, id, j);
      if j > 0 { assert OffersAt(s, rows, id, j - 1); }
    }
  }

  lemma IdleFromTheNext(s: Server, minIdle: nat, lo: nat, hi: nat)
    requires lo < hi
    ensures |IdleBetween(s, minIdle, lo, hi)| == |IdleBetween(s, minIdle, lo + 1, hi)| + if IsIdle(s, minIdle, lo) then 1 else 0
  {
    var rest := IdleBetween(s, minIdle, lo + 1, hi);
    if IsIdle(s, minIdle, lo) {
      assert IdleBetween(s, minIdle, lo, hi) == rest + {lo};
    } else {
      assert IdleBetween(s, minIdle, lo, hi) == rest;
    }
  }

  /**
   The scan offers an entry exactly when it is pending, idle for the bound, not below the start, and fewer than `count`
   such entries come before it.
   */
  lemma {:induction false} PendingOffers(s: Server, minIdle: nat, lo: nat, count: nat, id: nat)
    requires s.Valid()
    ensures Offers(s, s.Pending(minIdle, lo, count), id) <==> lo <= id && IsIdle(s, minIdle, id) && |IdleBetween(s, minIdle, lo, id)| < count
    decreases s.cursor - lo
  {
    if s.cursor <= lo || count == 0 {
    } else {
      if IsIdle(s, minIdle, lo) {
        PendingOffers(s, minIdle, lo + 1, count - 1, id);
        OffersOneMore(s, PendingRow(lo, s.pel[lo].owner, s.now - s.pel[lo].since), s.Pending(minIdle, lo + 1, count - 1), id);
      } else {
        PendingOffers(s, minIdle, lo + 1, count, id);
      }
      if lo < id {
        IdleFromTheNext(s, minIdle, lo, id);
      } else if lo == id {
        assert IdleBetween(s, minIdle, lo, id) == {};
      }
    }
  }

  /** Its rows are about different entries, in ascending order, and there are at most `count`. */
  lemma {:induction false} PendingAscends(s: Server, minIdle: nat, lo: nat, count: nat)
    requires s.Valid()
    ensures var rows := s.Pending(minIdle, lo, count);
            && |rows| <= count
            && (forall j :: 0 <= j < |rows| ==> lo <= rows[j].id && OffersAt(s, rows, rows[j].id, j))
            && (forall j, k :: 0 <= j < k < |rows| ==> rows[j].id < rows[k].id)
    decreases s.cursor - lo
  {
    if s.cursor <= lo || count == 0 {
    } else if IsIdle(s, minIdle, lo) {
      PendingAscends(s, minIdle, lo + 1, count - 1);
      var rest := s.Pending(minIdle, lo + 1, count - 1);
      forall j | 0 <= j < |rest| ensures lo < rest[j].id && OffersAt(s, rest, rest[j].id, j) {
      }
    } else {
      PendingAscends(s, minIdle, lo + 1, count);
    }
  }
}
