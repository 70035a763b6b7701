/** Stream key builders, the site a key belongs to, and the health stream read beside each unified stream. */
module StreamKeys {
  import opened Wrappers

  function BuildUnified(site: string, environment: string): string {
    "{" + site + "}:gnode:unified:" + environment
  }

  function BuildPlacement(site: string, environment: string, node: string): string {
    "{" + site + "}:gnode:unified:" + environment + ":" + node
  }

  function BuildHealth(site: string): string {
    "{" + site + "}:gnode:health"
  }

  /** The single-site mode's own pair of keys. */
  function FallbackUnified(site: string, prefix: string, environment: string): string {
    "{" + site + "}:" + prefix + ":unified:" + environment
  }

  function FallbackHealth(site: string, prefix: string, environment: string): string {
    "{" + site + "}:" + prefix + ":health:" + environment
  }

  function Before(s: string, stop: char): string {
    if s == "" || s[0] == stop then "" else [s[0]] + Before(s[1..], stop)
  }

  /** The text between the leading brace and the first closing one; no leading brace, no site. */
  function SiteOf(key: string): Option<string> {
    if key != "" && key[0] == '{' then Some(Before(key[1..], '}')) else None
  }

  function Twin(unified: string): string {
    BuildHealth(match SiteOf(unified) case Some(site) => site case None => "geodineum")
  }

  function HealthTwins(unified: seq<string>): seq<string> {
    seq(|unified|, i requires 0 <= i < |unified| => Twin(unified[i]))
  }

  lemma {:induction false} BeforeStop(site: string, rest: string)
    ensures Before(site + "}" + rest, '}') == Before(site, '}')
    ensures Before(site, '}') == site <==> '}' !in site
  {
    var s := site + "}" + rest;
    if site == "" {
      assert s == "}" + rest;
    } else {
      assert s[1..] == site[1..] + "}" + rest;
      BeforeStop(site[1..], rest);
      assert site == [site[0]] + site[1..];
    }
  }

  /** Every key of a site, its placement keys included, leads back to the site and to the site's own health stream exactly when the site has no brace. */
  lemma TwinIsTheSitesOwn(site: string, tail: string)
    ensures SiteOf("{" + site + "}" + tail) == Some(site) <==> '}' !in site
    ensures Twin("{" + site + "}" + tail) == BuildHealth(site) <==> '}' !in site
  {
    var key := "{" + site + "}" + tail;
    assert key[1..] == site + "}" + tail;
    BeforeStop(site, tail);
    SameHealthSameSite(Before(site, '}'), site);
  }

  lemma SiteStands(key: string, site: string)
    requires SiteOf(key) == Some(site)
    ensures '}' !in site && (key == "{" + site || exists tail :: key == "{" + site + "}" + tail)
  {
    var rest := key[1..];
    BeforeHasNoStop(rest, '}');
    if |site| < |rest| {
      assert key == "{" + site + "}" + rest[|site| + 1..];
    } else {
      assert key == "{" + site;
    }
  }

  lemma UnclosedSite(site: string)
    ensures '}' !in site ==> SiteOf("{" + site) == Some(site)
  {
    BeforeStop(site, "");
    assert ("{" + site)[1..] == site;
  }

  /** A key's site is what follows a leading brace, up to the next closing one or the key's end. */
  lemma SiteIs(key: string, site: string)
    ensures SiteOf(key) == Some(site) <==> '}' !in site && (key == "{" + site || exists tail :: key == "{" + site + "}" + tail)
    ensures SiteOf(key).None? <==> key == "" || key[0] != '{'
    ensures SiteOf(key).None? ==> Twin(key) == "{geodineum}:gnode:health"
  {
    if SiteOf(key) == Some(site) {
      SiteStands(key, site);
    }
    UnclosedSite(site);
    forall tail ensures '}' !in site ==> SiteOf("{" + site + "}" + tail) == Some(site) {
      TwinIsTheSitesOwn(site, tail);
    }
  }

  lemma SameHealthSameSite(a: string, b: string)
    ensures BuildHealth(a) == BuildHealth(b) <==> a == b
  {
    if BuildHealth(a) == BuildHealth(b) {
      assert |a| == |b|;
      assert a == BuildHealth(a)[1..1 + |a|];
      assert b == BuildHealth(b)[1..1 + |b|];
    }
  }

  /** So it is for the two builders of keys the daemon reads. */
  lemma BuiltKeysLeadBack(site: string, environment: string, node: string)
    ensures SiteOf(BuildUnified(site, environment)) == Some(site) <==> '}' !in site
    ensures SiteOf(BuildPlacement(site, environment, node)) == Some(site) <==> '}' !in site
    ensures '}' !in site ==> Twin(BuildUnified(site, environment)) == Twin(BuildPlacement(site, environment, node)) == BuildHealth(site)
  {
    var unified, placement := ":gnode:unified:" + environment, ":gnode:unified:" + environment + ":" + node;
    assert BuildUnified(site, environment) == "{" + site + "}" + unified;
    assert BuildPlacement(site, environment, node) == "{" + site + "}" + placement;
    TwinIsTheSitesOwn(site, unified);
    TwinIsTheSitesOwn(site, placement);
  }

  lemma {:induction false} BeforeHasNoStop(s: string, stop: char)
    ensures stop !in Before(s, stop) && |Before(s, stop)| <= |s| && Before(s, stop) == s[..|Before(s, stop)|]
    ensures |Before(s, stop)| < |s| ==> s[|Before(s, stop)|] == stop
    ensures stop in s ==> |Before(s, stop)| < |s|
  {
    if s != "" && s[0] != stop {
      BeforeHasNoStop(s[1..], stop);
    }
  }

  /** A key is its own twin exactly when it is the health key of a site without a brace. */
  lemma OwnTwin(key: string)
    ensures Twin(key) == key <==> exists site :: '}' !in site && key == BuildHealth(site)
  {
    if Twin(key) == key {
      var site := match SiteOf(key) case Some(site) => site case None => "geodineum";
      if SiteOf(key).Some? { BeforeHasNoStop(key[1..], '}'); }
      assert '}' !in site && key == BuildHealth(site);
    }
    if site :| '}' !in site && key == BuildHealth(site) {
      assert key == "{" + site + "}" + ":gnode:health";
      TwinIsTheSitesOwn(site, ":gnode:health");
    }
  }

  lemma LaterBrace(site: string, other: string, tail: string)
    requires '}' !in other && tail != "gnode:health"
    ensures "{" + site + "}:" + tail != BuildHealth(other)
  {
    var key, health, n := "{" + site + "}:" + tail, BuildHealth(other), |site| + 1;
    var suffix := "}:gnode:health";
    assert health == "{" + other + suffix;
    assert key[n] == '}';
    if |site| < |other| {
      assert health[n] == other[n - 1];
    } else if |site| > |other| {
      if n < |health| {
        assert suffix[1..] == ":gnode:health";
        assert health[n] == suffix[1..][n - 2 - |other|];
      }
    } else {
      assert key[n + 2..] == tail;
      assert health[n + 2..] == "gnode:health";
    }
  }

  /** A key with more than a health suffix after its site is not its own twin. */
  lemma NotOwnTwin(site: string, tail: string)
    requires tail != "gnode:health"
    ensures Twin("{" + site + "}:" + tail) != "{" + site + "}:" + tail
  {
    var key := "{" + site + "}:" + tail;
    OwnTwin(key);
    forall other | '}' !in other ensures key != BuildHealth(other) {
      LaterBrace(site, other, tail);
    }
  }

  lemma UnifiedTail(rest: string)
    ensures "gnode:unified:" + rest != "gnode:health"
  {
    assert ("gnode:unified:" + rest)[6] == 'u' && "gnode:health"[6] == 'h';
  }

  /** A built key is never its own twin, whatever the site is called. */
  lemma BuiltKeysHaveATwin(site: string, environment: string, node: string)
    ensures Twin(BuildUnified(site, environment)) != BuildUnified(site, environment)
    ensures Twin(BuildPlacement(site, environment, node)) != BuildPlacement(site, environment, node)
  {
    var placed := environment + ":" + node;
    UnifiedTail(environment);
    UnifiedTail(placed);
    NotOwnTwin(site, "gnode:unified:" + environment);
    NotOwnTwin(site, "gnode:unified:" + placed);
    assert BuildUnified(site, environment) == "{" + site + "}:" + ("gnode:unified:" + environment);
    assert BuildPlacement(site, environment, node) == "{" + site + "}:" + ("gnode:unified:" + placed);
  }

  /** The fallback unified stream is the one discovery would find exactly when the prefix is the builders' own. */
  lemma FallbackIsABuiltKey(site: string, prefix: string, environment: string)
    ensures FallbackUnified(site, prefix, environment) == BuildUnified(site, environment) <==> prefix == "gnode"
  {
    var fallback, built, head := FallbackUnified(site, prefix, environment), BuildUnified(site, environment), "{" + site + "}:";
    assert fallback == head + prefix + ":unified:" + environment;
    assert built == head + "gnode" + ":unified:" + environment;
    if fallback == built {
      assert |prefix| == |"gnode"|;
      assert prefix == fallback[|head|..|head| + |prefix|] == built[|head|..|head| + |"gnode"|] == "gnode";
    }
  }

  lemma FallbackTail(prefix: string, environment: string)
    ensures prefix + ":health:" + environment != "gnode:health"
  {
    var tail, health := prefix + ":health:" + environment, "gnode:health";
    assert tail[|prefix|] == ':';
    assert health[0] == 'g' && health[1] == 'n' && health[2] == 'o' && health[3] == 'd' && health[4] == 'e';
  }

  /** The fallback pair is the exception: its health stream is never the twin of its unified stream. */
  lemma FallbackIsNotTwinned(site: string, prefix: string, environment: string)
    ensures FallbackHealth(site, prefix, environment) != Twin(FallbackUnified(site, prefix, environment))
  {
    var tail := prefix + ":health:" + environment;
    var twinned := match SiteOf(FallbackUnified(site, prefix, environment)) case Some(own) => own case None => "geodineum";
    BeforeHasNoStop(FallbackUnified(site, prefix, environment)[1..], '}');
    assert FallbackHealth(site, prefix, environment) == "{" + site + "}:" + tail;
    FallbackTail(prefix, environment);
    LaterBrace(site, twinned, tail);
  }
}
