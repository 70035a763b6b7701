/** The cooperative scheduler's per-worker error backoff, and the connection manager's retry loop. */
module Scheduler {
  import opened Backoff

  datatype TickResult = Idle | Busy | Error | Shutdown

  /** A worker's backoff entry: how long it is skipped, counted from when. */
  datatype Entry = Entry(backoff: nat, lastError: nat)

  /** One look at a worker: when the scheduler looks, what the tick returns if it runs, and when it is over. */
  datatype Look = Look(at: nat, result: TickResult, doneAt: nat)

  datatype Config = Config(errorBackoff: nat, maxBackoff: nat)

  predicate Due(e: Entry, at: nat) {
    (if at >= e.lastError then at - e.lastError else 0) >= e.backoff
  }

  function After(config: Config, e: Entry, look: Look): Entry {
    if !Due(e, look.at) then e
    else
      match look.result
      case Idle => e.(backoff := config.errorBackoff)
      case Busy => e.(backoff := config.errorBackoff)
      case Error => Entry(Doubled(e.backoff, config.maxBackoff), look.doneAt)
      case Shutdown => e
  }

  class WorkerRegistry {
    var workers: seq<string>
    var backoffs: seq<Entry>
    const config: Config

    ghost predicate Valid()
      reads this
    {
      |workers| == |backoffs|
    }

    constructor (config: Config)
      ensures Valid() && workers == [] && this.config == config
    {
      workers, backoffs := [], [];
      this.config := config;
    }

    /** A new worker starts in backoff: it is skipped for the base backoff after its registration. */
    method Register(name: string, now: nat)
      requires Valid()
      modifies this
      ensures Valid() && workers == old(workers) + [name]
      ensures backoffs == old(backoffs) + [Entry(config.errorBackoff, now)]
    {
      workers := workers + [name];
      backoffs := backoffs + [Entry(config.errorBackoff, now)];
    }

    /** One round: each worker's entry moves by that worker's own look and no other's. */
    method TickAll(looks: seq<Look>) returns (anyBusy: bool)
      requires Valid() && |looks| == |workers|
      modifies this`backoffs
      ensures Valid()
      ensures forall i :: 0 <= i < |workers| ==> backoffs[i] == After(config, old(backoffs)[i], looks[i])
      ensures anyBusy <==> exists i :: 0 <= i < |workers| && Due(old(backoffs)[i], looks[i].at) && looks[i].result.Busy?
    {
      anyBusy := false;
      ghost var before := backoffs;
      var i := 0;
      while i < |workers|
        invariant 0 <= i <= |workers| == |backoffs| == |before|
        invariant forall k :: 0 <= k < i ==> backoffs[k] == After(config, before[k], looks[k])
        invariant forall k :: i <= k < |workers| ==> backoffs[k] == before[k]
        invariant anyBusy <==> exists k :: 0 <= k < i && Due(before[k], looks[k].at) && looks[k].result.Busy?
      {
        var e := backoffs[i];
        if Due(e, looks[i].at) {
          match looks[i].result {
            case Idle =>
              backoffs := backoffs[i := e.(backoff := config.errorBackoff)];
            case Busy =>
              backoffs := backoffs[i := e.(backoff := config.errorBackoff)];
              anyBusy := true;
            case Error =>
              e := e.(lastError := looks[i].doneAt);
              e := e.(backoff := Min(e.backoff * 2, config.maxBackoff));
              backoffs := backoffs[i := e];
            case Shutdown =>
          }
        }
        i := i + 1;
      }
    }
  }

  /** A worker's entry after a series of looks. */
  function Following(config: Config, e: Entry, looks: seq<Look>): Entry {
    if looks == [] then e
    else After(config, Following(config, e, looks[..|looks| - 1]), looks[|looks| - 1])
  }

  /** Errors since the last idle or busy tick; looks that found the worker in backoff do not count. */
  function ConsecutiveErrors(config: Config, e: Entry, looks: seq<Look>): nat {
    if looks == [] then 0
    else
      var before, look := looks[..|looks| - 1], looks[|looks| - 1];
      var k := ConsecutiveErrors(config, e, before);
      if !Due(Following(config, e, before), look.at) then k
      else match look.result
           case Idle => 0
           case Busy => 0
           case Error => k + 1
           case Shutdown => k
  }

  /** Over every history of looks, the skip time is the base doubled once per consecutive error, capped. */
  lemma {:induction false} SkipTimeIsTheLadder(config: Config, now: nat, looks: seq<Look>)
    requires config.errorBackoff <= config.maxBackoff
    ensures var e := Entry(config.errorBackoff, now);
            Following(config, e, looks).backoff == Ladder(config.errorBackoff, config.maxBackoff, ConsecutiveErrors(config, e, looks))
    decreases |looks|
  {
    var e := Entry(config.errorBackoff, now);
    FirstClimb(config.errorBackoff, config.maxBackoff);
    if looks != [] {
      var before := looks[..|looks| - 1];
      SkipTimeIsTheLadder(config, now, before);
      Climb(config.errorBackoff, config.maxBackoff, ConsecutiveErrors(config, e, before));
    }
  }

  /** A tick that is not an error leaves the worker due: only an error makes the scheduler skip it again. */
  lemma {:induction false} OnlyErrorsSkip(config: Config, now: nat, looks: seq<Look>, look: Look, later: nat)
    requires config.errorBackoff <= config.maxBackoff && look.at <= later
    ensures var e := Following(config, Entry(config.errorBackoff, now), looks);
            Due(e, look.at) && !look.result.Error? ==> Due(After(config, e, look), later)
  {
    SkipTimeIsTheLadder(config, now, looks);
    var k := ConsecutiveErrors(config, Entry(config.errorBackoff, now), looks);
    LadderStartsAtTheBase(config.errorBackoff, config.maxBackoff, k);
  }

  /** A worker is due exactly when its backoff has passed since its last error, or since its registration before any. */
  lemma DueAfterTheBackoff(backoff: nat, since: nat, at: nat)
    ensures Due(Entry(backoff, since), at) <==> at >= since + backoff || backoff == 0
  {
  }

  /** Every look so far found the worker due and ended in an error. */
  ghost predicate AllFail(config: Config, e: Entry, looks: seq<Look>) {
    forall i :: 0 <= i < |looks| ==> looks[i].result.Error? && Due(Following(config, e, looks[..i]), looks[i].at)
  }

  lemma {:induction false} ErrorsClimb(config: Config, e: Entry, looks: seq<Look>)
    requires config.errorBackoff <= config.maxBackoff && e.backoff == config.errorBackoff && AllFail(config, e, looks)
    ensures Following(config, e, looks).backoff == Min(config.errorBackoff * Pow2(|looks|), config.maxBackoff)
    ensures looks != [] ==> Following(config, e, looks).lastError == looks[|looks| - 1].doneAt
    ensures ConsecutiveErrors(config, e, looks) == |looks|
    decreases |looks|
  {
    FirstClimb(config.errorBackoff, config.maxBackoff);
    if looks != [] {
      var n := |looks| - 1;
      forall i | 0 <= i < n ensures looks[..n][i].result.Error? && Due(Following(config, e, looks[..n][..i]), looks[..n][i].at) {
        assert looks[..n][..i] == looks[..i];
      }
      ErrorsClimb(config, e, looks[..n]);
      Climb(config.errorBackoff, config.maxBackoff, n);
    }
  }

  /** After k errors in a row the worker is skipped for min(base * 2^k, cap) from the end of the last, and no longer. */
  lemma {:induction false} SkippedAfterErrors(config: Config, e: Entry, looks: seq<Look>, later: nat)
    requires config.errorBackoff <= config.maxBackoff && e.backoff == config.errorBackoff && looks != [] && AllFail(config, e, looks)
    ensures var skip := Min(config.errorBackoff * Pow2(|looks|), config.maxBackoff);
            Due(Following(config, e, looks), later) <==> later >= looks[|looks| - 1].doneAt + skip || skip == 0
  {
    ErrorsClimb(config, e, looks);
    var last := Following(config, e, looks);
    DueAfterTheBackoff(last.backoff, last.lastError, later);
  }

  /** A due tick that ends idle or busy starts the count anew; a look in backoff and a shutdown change nothing. */
  lemma {:induction false} OtherLooks(config: Config, e: Entry, looks: seq<Look>, look: Look)
    ensures var before, after := Following(config, e, looks), Following(config, e, looks + [look]);
            && (Due(before, look.at) && (look.result.Idle? || look.result.Busy?) ==>
                  after == Entry(config.errorBackoff, before.lastError) && ConsecutiveErrors(config, e, looks + [look]) == 0)
            && (!Due(before, look.at) || look.result.Shutdown? ==>
                  after == before && ConsecutiveErrors(config, e, looks + [look]) == ConsecutiveErrors(config, e, looks))
  {
    assert (looks + [look])[..|looks + [look]| - 1] == looks;
  }

  // ------------------------------------------------------------------------------------------
  // with_retry_connection
  // ------------------------------------------------------------------------------------------

  /** How one turn of the loop goes: no connection to be had, or the call made and its result. */
  datatype Attempt = NoConnection | Success | ConnectionError | OtherError

  /** The wait before turn `k + 1`: the base at first, then the ladder. */
  function Wait(base: nat, cap: nat, k: nat): nat {
    if k == 0 then base else Ladder(base, cap, k)
  }

  /** The loop, whose turns end as `attempts` says; `turns` counts them and `waits` the pauses between them. */
  method WithRetryConnection(attempts: nat -> Attempt, maxRetries: nat, base: nat, cap: nat)
    returns (last: Attempt, turns: nat, waits: seq<nat>)
    ensures 1 <= turns <= maxRetries + 1
    ensures last == attempts(turns - 1)
    ensures forall k :: 0 <= k < turns - 1 ==> attempts(k).ConnectionError?
    ensures last.ConnectionError? ==> turns == maxRetries + 1
    ensures |waits| == turns - 1 && forall k :: 0 <= k < |waits| ==> waits[k] == if k == 0 then base else Min(base * Pow2(k), cap)
  {
    var retryCount, backoffMs := 0, base;
    turns, waits, last := 0, [], NoConnection;
    while true
      invariant retryCount == turns == |waits| <= maxRetries
      invariant backoffMs == Wait(base, cap, retryCount)
      invariant forall k :: 0 <= k < turns ==> attempts(k).ConnectionError?
      invariant forall k :: 0 <= k < |waits| ==> waits[k] == Wait(base, cap, k)
      decreases maxRetries - retryCount
    {
      last := attempts(turns);
      turns := turns + 1;
      if !last.ConnectionError? {
        return;
      }
      retryCount := retryCount + 1;
      if retryCount > maxRetries {
        return;
      }
      waits := waits + [backoffMs];
      FirstClimb(base, cap);
      Climb(base, cap, retryCount - 1);
      backoffMs := Min(backoffMs * 2, cap);
    }
  }
}
