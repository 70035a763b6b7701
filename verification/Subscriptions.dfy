/**
 The two parallel stream lists of a worker: the unified streams it reads and, index for index, the health stream read
 beside each. Discovery replaces both; a sweep removes from both the streams that turned out to be stale.
 */
module Subscriptions {
  import opened Wrappers
  import opened StreamKeys
  import opened Text

  /** How the read of one stream pair ended. */
  datatype Outcome = Served | NoSuchKey | WrongType | OtherError

  /** A read that failed is judged by its error text. */
  function OutcomeOf(read: Option<string>): Outcome {
    match read
    case None => Served
    case Some(error) =>
      if Contains(error, "NOGROUP") && Contains(error, "No such key") then NoSuchKey
      else if Contains(error, "WRONGTYPE") then WrongType
      else OtherError
  }

  function OutcomesOf(results: seq<Option<string>>): (outcomes: seq<Outcome>)
    ensures |outcomes| == |results|
  {
    seq(|results|, i requires 0 <= i < |results| => OutcomeOf(results[i]))
  }

  /** A stream goes when its key is missing or of the wrong type; only the second, without the first, is no error of the turn. */
  lemma OutcomesAre(read: Option<string>)
    ensures Stale(OutcomeOf(read)) <==>
              read.Some? && ((Holds(read.value, "NOGROUP") && Holds(read.value, "No such key")) || Holds(read.value, "WRONGTYPE"))
    ensures Failed(OutcomeOf(read)) <==>
              read.Some? && ((Holds(read.value, "NOGROUP") && Holds(read.value, "No such key")) || !Holds(read.value, "WRONGTYPE"))
  {
    if read.Some? {
      FindsIt(read.value, "NOGROUP");
      FindsIt(read.value, "No such key");
      FindsIt(read.value, "WRONGTYPE");
    }
  }

  predicate Stale(outcome: Outcome) {
    outcome.NoSuchKey? || outcome.WrongType?
  }

  /** The elements at the indices whose outcome is not stale, in order. */
  function Survivors<T>(items: seq<T>, outcomes: seq<Outcome>): seq<T>
    requires |items| == |outcomes|
  {
    if items == [] then []
    else (if Stale(outcomes[0]) then [] else [items[0]]) + Survivors(items[1..], outcomes[1..])
  }

  /** The stale indices below `n`, ascending. */
  function StaleBelow(outcomes: seq<Outcome>, n: nat): seq<nat>
    requires n <= |outcomes|
  {
    if n == 0 then [] else StaleBelow(outcomes, n - 1) + (if Stale(outcomes[n - 1]) then [n - 1] else [])
  }

  /** What is left once every stale element from `from` on is gone. */
  function Trimmed<T>(items: seq<T>, outcomes: seq<Outcome>, from: nat): seq<T>
    requires |items| == |outcomes| && from <= |items|
  {
    items[..from] + Survivors(items[from..], outcomes[from..])
  }

  /** Removing one stale element, all later ones being gone already. */
  lemma RemoveOne<T>(items: seq<T>, outcomes: seq<Outcome>, at: nat)
    requires |items| == |outcomes| && at < |items| && Stale(outcomes[at])
    ensures at < |Trimmed(items, outcomes, at + 1)|
    ensures var t := Trimmed(items, outcomes, at + 1); t[..at] + t[at + 1..] == Trimmed(items, outcomes, at)
  {
    assert items[at..][1..] == items[at + 1..] && outcomes[at..][1..] == outcomes[at + 1..];
  }

  /** An element that is not stale stays where it is. */
  lemma SkipOne<T>(items: seq<T>, outcomes: seq<Outcome>, at: nat)
    requires |items| == |outcomes| && at < |items| && !Stale(outcomes[at])
    ensures Trimmed(items, outcomes, at + 1) == Trimmed(items, outcomes, at)
  {
    assert items[at..][1..] == items[at + 1..] && outcomes[at..][1..] == outcomes[at + 1..];
    assert items[..at + 1] == items[..at] + [items[at]];
  }

  lemma {:induction false} SkipTo<T>(items: seq<T>, outcomes: seq<Outcome>, from: nat, end: nat)
    requires |items| == |outcomes| && from <= end <= |items|
    requires forall i :: from <= i < end ==> !Stale(outcomes[i])
    ensures Trimmed(items, outcomes, from) == Trimmed(items, outcomes, end)
    decreases end - from
  {
    if from < end {
      SkipOne(items, outcomes, from);
      SkipTo(items, outcomes, from + 1, end);
    }
  }

  /** Removing the last stale element below `from`, the ones from there on being gone already. */
  lemma RemoveNext<T>(items: seq<T>, outcomes: seq<Outcome>, at: nat, from: nat)
    requires |items| == |outcomes| && at < from <= |items| && Stale(outcomes[at])
    requires forall i :: at < i < from ==> !Stale(outcomes[i])
    ensures at < |Trimmed(items, outcomes, from)|
    ensures var t := Trimmed(items, outcomes, from); t[..at] + t[at + 1..] == Trimmed(items, outcomes, at)
  {
    SkipTo(items, outcomes, at + 1, from);
    RemoveOne(items, outcomes, at);
  }

  /** The collected indices are the stale ones and nothing else, in ascending order. */
  lemma {:induction false} StaleBelowIs(outcomes: seq<Outcome>, n: nat)
    requires n <= |outcomes|
    ensures var stale := StaleBelow(outcomes, n);
            && (forall i :: i in stale <==> 0 <= i < n && Stale(outcomes[i]))
            && (forall j, k :: 0 <= j < k < |stale| ==> stale[j] < stale[k])
  {
    if n > 0 {
      StaleBelowIs(outcomes, n - 1);
      var before := StaleBelow(outcomes, n - 1);
      assert forall j :: 0 <= j < |before| ==> before[j] in before;
    }
  }

  /** The last stale index below `n`: nothing stale between it and `n`, and the others are those below it. */
  lemma {:induction false} LastStale(outcomes: seq<Outcome>, n: nat)
    requires n <= |outcomes| && StaleBelow(outcomes, n) != []
    ensures var stale := StaleBelow(outcomes, n);
            var last := stale[|stale| - 1];
            && last < n && Stale(outcomes[last])
            && stale[..|stale| - 1] == StaleBelow(outcomes, last)
            && forall i :: last < i < n ==> !Stale(outcomes[i])
  {
    var below := StaleBelow(outcomes, n - 1);
    if Stale(outcomes[n - 1]) {
      assert StaleBelow(outcomes, n) == below + [n - 1];
      assert (below + [n - 1])[..|below|] == below;
    } else {
      assert StaleBelow(outcomes, n) == below + [] == below;
      LastStale(outcomes, n - 1);
    }
  }

  lemma {:induction false} TwinsOfSurvivors(unified: seq<string>, outcomes: seq<Outcome>)
    requires |unified| == |outcomes|
    ensures Survivors(HealthTwins(unified), outcomes) == HealthTwins(Survivors(unified, outcomes))
  {
    if unified != [] {
      assert HealthTwins(unified)[1..] == HealthTwins(unified[1..]);
      TwinsOfSurvivors(unified[1..], outcomes[1..]);
    }
  }

  lemma {:induction false} SurvivorsAgree<S, T>(a: seq<S>, b: seq<T>, outcomes: seq<Outcome>)
    requires |a| == |b| == |outcomes|
    ensures |Survivors(a, outcomes)| == |Survivors(b, outcomes)|
  {
    if a != [] {
      SurvivorsAgree(a[1..], b[1..], outcomes[1..]);
    }
  }

  /** A turn's error flag: a stream of the wrong type is that site's problem and raises none. */
  predicate Failed(outcome: Outcome) {
    !outcome.Served? && !outcome.WrongType?
  }

  class Subscriptions {
    var unified: seq<string>
    var health: seq<string>
    const fallbackUnified: string
    const fallbackHealth: string

    /** Every discovered pair is a stream and its twin; the only other lists are the single fallback pair. */
    ghost predicate Valid()
      reads this
    {
      && |unified| == |health|
      && (health == HealthTwins(unified) || (unified == [fallbackUnified] && health == [fallbackHealth]))
    }

    /** The lists a worker starts with: the discovered streams when there are any, else the fallback pair. */
    constructor (site: string, prefix: string, environment: string, discovered: Option<seq<string>>)
      ensures Valid()
      ensures fallbackUnified == FallbackUnified(site, prefix, environment) && fallbackHealth == FallbackHealth(site, prefix, environment)
      ensures discovered.Some? && discovered.value != [] ==> unified == discovered.value && health == HealthTwins(discovered.value)
      ensures discovered.None? || discovered.value == [] ==> unified == [fallbackUnified] && health == [fallbackHealth]
    {
      fallbackUnified := FallbackUnified(site, prefix, environment);
      fallbackHealth := FallbackHealth(site, prefix, environment);
      if discovered.Some? && discovered.value != [] {
        unified, health := discovered.value, HealthTwins(discovered.value);
      } else {
        unified, health := [FallbackUnified(site, prefix, environment)], [FallbackHealth(site, prefix, environment)];
      }
    }

    /** The periodic sync: both lists are replaced as soon as one of them lacks something discovered. */
    method Sync(discovered: seq<string>) returns (replaced: bool)
      requires Valid()
      modifies this
      ensures Valid()
      ensures replaced ==> unified == discovered && health == HealthTwins(discovered)
      ensures !replaced ==> unified == old(unified) && health == old(health)
      ensures forall i :: 0 <= i < |discovered| ==> discovered[i] in unified && Twin(discovered[i]) in health
    {
      var discoveredHealth := HealthTwins(discovered);
      replaced := (exists i :: 0 <= i < |discovered| && discovered[i] !in unified)
               || (exists i :: 0 <= i < |discoveredHealth| && discoveredHealth[i] !in health);
      if replaced {
        unified, health := discovered, discoveredHealth;
        assert forall i :: 0 <= i < |discovered| ==> health[i] == Twin(discovered[i]);
      } else {
        assert forall i :: 0 <= i < |discovered| ==> discoveredHealth[i] == Twin(discovered[i]);
      }
    }

    /** The end of a sweep: collect the stale indices in reading order, then remove them from both lists, last first. */
    method DropStale(results: seq<Option<string>>) returns (hadError: bool)
      requires Valid() && |results| == |unified|
      modifies this
      ensures Valid()
      ensures unified == Survivors(old(unified), OutcomesOf(results)) && health == Survivors(old(health), OutcomesOf(results))
      ensures hadError <==> exists i :: 0 <= i < |results| && Failed(OutcomeOf(results[i]))
    {
      ghost var outcomes := OutcomesOf(results);
      var stale: seq<nat> := [];
      stale, hadError := CollectStale(results);
      ghost var u, h := unified, health;
      RemoveStale(stale, outcomes);
      TwinsOfSurvivors(u, outcomes);
      SurvivorsAgree(u, h, outcomes);
    }

    static method CollectStale(results: seq<Option<string>>) returns (stale: seq<nat>, hadError: bool)
      ensures stale == StaleBelow(OutcomesOf(results), |results|)
      ensures hadError <==> exists i :: 0 <= i < |results| && Failed(OutcomeOf(results[i]))
    {
      stale, hadError := [], false;
      for i := 0 to |results|
        invariant stale == StaleBelow(OutcomesOf(results), i)
        invariant hadError <==> exists k :: 0 <= k < i && Failed(OutcomeOf(results[k]))
      {
        if results[i].None? { continue; }
        if Contains(results[i].value, "NOGROUP") && Contains(results[i].value, "No such key") {
          stale := stale + [i];
        } else if Contains(results[i].value, "WRONGTYPE") {
          stale := stale + [i];
          continue;
        }
        hadError := true;
      }
    }

    method RemoveStale(stale: seq<nat>, ghost outcomes: seq<Outcome>)
      requires |unified| == |health| == |outcomes| && stale == StaleBelow(outcomes, |outcomes|)
      modifies this
      ensures unified == Survivors(old(unified), outcomes) && health == Survivors(old(health), outcomes)
    {
      ghost var u, h := unified, health;
      ghost var from: nat := |outcomes|;
      assert Trimmed(u, outcomes, from) == u && Trimmed(h, outcomes, from) == h;
      var k := |stale|;
      while k > 0
        invariant 0 <= k <= |stale| && from <= |outcomes|
        invariant stale[..k] == StaleBelow(outcomes, from)
        invariant unified == Trimmed(u, outcomes, from) && health == Trimmed(h, outcomes, from)
      {
        LastStale(outcomes, from);
        k := k - 1;
        var idx := stale[k];
        assert stale[..k + 1][..k] == stale[..k];
        RemoveNext(u, outcomes, idx, from);
        RemoveNext(h, outcomes, idx, from);
        if idx < |unified| { unified := unified[..idx] + unified[idx + 1..]; }
        if idx < |health| { health := health[..idx] + health[idx + 1..]; }
        from := idx;
      }
      StaleBelowIs(outcomes, from);
      SkipTo(u, outcomes, 0, from);
      SkipTo(h, outcomes, 0, from);
      assert u[0..] == u && h[0..] == h && outcomes[0..] == outcomes;
    }
  }
}
