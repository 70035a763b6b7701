/**
 Which work a node accepts. A routing config accepts or refuses one routing hint; a node's
 exposure is the union of the configs named in its comma-separated `node_type`.
 */
module Routing {
  import opened Wrappers
  import opened Text

  datatype RoutingMode = Include | Exclude | All

  /** `hintsSet` is the lookup cache: absent after deserialisation, filled by `InitCache`. */
  datatype RoutingConfig = RoutingConfig(mode: RoutingMode, groupHints: seq<string>, hintsSet: Option<set<string>>) {

    function InitCache(): RoutingConfig {
      this.(hintsSet := Some(set h | h in groupHints))
    }

    /** The cache, when present, holds exactly the listed hints. */
    ghost predicate CacheFaithful() {
      hintsSet.Some? ==> hintsSet.value == set h | h in groupHints
    }

    predicate Lists(hint: string) {
      if hintsSet.Some? then hint in hintsSet.value else hint in groupHints
    }

    predicate ShouldProcess(groupHint: Option<string>) {
      var hint := if groupHint.Some? then groupHint.value else "";
      match mode
      case All => true
      case Include => hint != "" && Lists(hint)
      case Exclude => hint == "" || !Lists(hint)
    }
  }

  const GENERAL := RoutingConfig(Exclude, ["inference"], Some({"inference"}))
  const INFERENCE := RoutingConfig(Include, ["inference"], Some({"inference"}))
  const ALL := RoutingConfig(All, [], Some({}))

  type RoutingCache = map<string, RoutingConfig>

  /** The cached config of a node type, or the built-in one. */
  function CachedConfig(cache: RoutingCache, nodeType: string): RoutingConfig {
    if nodeType in cache then cache[nodeType]
    else if nodeType == "inference" then INFERENCE
    else if nodeType == "all" then ALL
    else GENERAL
  }

  datatype ExposureSet = ExposureSet(members: seq<RoutingConfig>) {
    predicate Accepts(groupHint: Option<string>) {
      exists i :: 0 <= i < |members| && members[i].ShouldProcess(groupHint)
    }
  }

  /** The non-blank segments of a spec, trimmed, in order. */
  function Names(spec: string): seq<string> {
    NonBlank(Split(spec, ','))
  }

  function NonBlank(segments: seq<string>): seq<string> {
    if segments == [] then []
    else
      var t := Trim(segments[0]);
      (if t == "" then [] else [t]) + NonBlank(segments[1..])
  }

  function Lookup(cache: RoutingCache, names: seq<string>): seq<RoutingConfig> {
    seq(|names|, i requires 0 <= i < |names| => CachedConfig(cache, names[i]))
  }

  /** The specification of `ParseExposure`: no named member means `general`, never "accept nothing". */
  function ExposureOf(cache: RoutingCache, spec: string): ExposureSet {
    var names := Names(spec);
    ExposureSet(Lookup(cache, if names == [] then ["general"] else names))
  }

  /** `ExposureSet::parse`: the member list is pushed segment by segment. */
  method ParseExposure(cache: RoutingCache, spec: string) returns (exposure: ExposureSet)
    ensures exposure == ExposureOf(cache, spec)
    ensures exposure.members != []
  {
    var segments := Split(spec, ',');
    var members: seq<RoutingConfig> := [];
    var i := 0;
    while i < |segments|
      invariant 0 <= i <= |segments|
      invariant members == Lookup(cache, NonBlank(segments[..i]))
    {
      var name := Trim(segments[i]);
      LookupAppends(cache, segments, i);
      if name != "" {
        members := members + [CachedConfig(cache, name)];
      }
      i := i + 1;
    }
    assert segments[..i] == segments;
    if members == [] {
      members := [CachedConfig(cache, "general")];
    }
    exposure := ExposureSet(members);
  }

  lemma LookupAppends(cache: RoutingCache, segments: seq<string>, i: nat)
    requires i < |segments|
    ensures var name := Trim(segments[i]);
            Lookup(cache, NonBlank(segments[..i + 1])) ==
            Lookup(cache, NonBlank(segments[..i])) + (if name == "" then [] else [CachedConfig(cache, name)])
  {
    assert segments[..i + 1] == segments[..i] + [segments[i]];
    NonBlankAppends(segments[..i], segments[i]);
  }

  lemma {:induction false} NonBlankAppends(segments: seq<string>, last: string)
    ensures NonBlank(segments + [last]) == NonBlank(segments) + (if Trim(last) == "" then [] else [Trim(last)])
  {
    if segments == [] {
      assert segments + [last] == [last];
      assert [last][1..] == [];
    } else {
      assert (segments + [last])[1..] == segments[1..] + [last];
      NonBlankAppends(segments[1..], last);
    }
  }

  lemma {:induction false} NonBlankOfConcat(a: seq<string>, b: seq<string>)
    ensures NonBlank(a + b) == NonBlank(a) + NonBlank(b)
  {
    if a == [] {
      assert a + b == b;
    } else {
      assert (a + b)[1..] == a[1..] + b;
      NonBlankOfConcat(a[1..], b);
    }
  }

  /** Filling the cache changes no decision, and a faithful cache decides as the list does. */
  lemma CacheIsInvisible(c: RoutingConfig, hint: Option<string>)
    requires c.CacheFaithful()
    ensures c.InitCache().ShouldProcess(hint) == c.(hintsSet := None).ShouldProcess(hint) == c.ShouldProcess(hint)
  {
    var h := if hint.Some? then hint.value else "";
    assert c.Lists(h) == (h in c.groupHints);
    assert c.InitCache().Lists(h) == (h in c.groupHints);
  }

  /** What each mode accepts: everything, the listed hints, or everything but the listed hints; an empty hint counts as none. */
  lemma ModesAccept(c: RoutingConfig, hint: string)
    requires c.CacheFaithful()
    ensures c.mode.All? ==> c.ShouldProcess(None) && c.ShouldProcess(Some(hint))
    ensures c.mode.Include? ==> !c.ShouldProcess(None) && (c.ShouldProcess(Some(hint)) <==> hint != "" && hint in c.groupHints)
    ensures c.mode.Exclude? ==> c.ShouldProcess(None) && (c.ShouldProcess(Some(hint)) <==> hint == "" || hint !in c.groupHints)
  {
  }

  /** The built-in configs: inference takes inference work alone, general everything else, all everything. */
  lemma BuiltInConfigs(hint: Option<string>)
    ensures GENERAL.CacheFaithful() && INFERENCE.CacheFaithful() && ALL.CacheFaithful()
    ensures INFERENCE.ShouldProcess(hint) <==> hint == Some("inference")
    ensures GENERAL.ShouldProcess(hint) <==> hint != Some("inference")
    ensures ALL.ShouldProcess(hint)
  {
  }

  /** Which config a node type gets. */
  lemma ConfigsByName(cache: RoutingCache, nodeType: string)
    ensures nodeType in cache ==> CachedConfig(cache, nodeType) == cache[nodeType]
    ensures nodeType !in cache ==>
              CachedConfig(cache, nodeType) == (match nodeType case "inference" => INFERENCE case "all" => ALL case _ => GENERAL)
  {
  }

  predicate HasSegment(segments: seq<string>, name: string) {
    exists i :: 0 <= i < |segments| && Trim(segments[i]) == name
  }

  lemma {:induction false} NonBlankAre(segments: seq<string>, name: string)
    ensures name in NonBlank(segments) <==> name != "" && HasSegment(segments, name)
  {
    if segments != [] {
      var n := |segments| - 1;
      NonBlankAre(segments[..n], name);
      assert segments == segments[..n] + [segments[n]];
      NonBlankAppends(segments[..n], segments[n]);
    }
  }

  /** A name is in a spec exactly when some segment between commas is it, but for white space around it, and it is not blank. */
  lemma {:induction false} NamesAre(spec: string, name: string)
    ensures name in Names(spec) <==> name != "" && HasSegment(Split(spec, ','), name)
  {
    NonBlankAre(Split(spec, ','), name);
  }

  /** The names of two specs joined by a comma are the names of both, in order. */
  lemma NamesOfJoined(a: string, b: string)
    ensures Names(a + "," + b) == Names(a) + Names(b)
  {
    SplitOfJoined(a, b, ',');
    NonBlankOfConcat(Split(a, ','), Split(b, ','));
  }

  /** Every hint the exposure of `a` accepts is still accepted once `b` is appended to the spec. */
  ghost predicate Widens(cache: RoutingCache, a: string, b: string) {
    forall hint: Option<string> :: ExposureOf(cache, a).Accepts(hint) ==> ExposureOf(cache, a + "," + b).Accepts(hint)
  }

  /**
   "Adding an exposure only ever widens what a node accepts." That fails for a blank spec, whose
   fallback `general` disappears when a member is named; whatever the cached configs are, it holds
   exactly when the old spec names a member, the new one does not, or the new one names `general`.
   */
  lemma WideningHoldsExactly(a: string, b: string)
    ensures (forall cache: RoutingCache :: Widens(cache, a, b)) <==>
            (Names(a) != [] || Names(b) == [] || "general" in Names(b))
  {
    NamesOfJoined(a, b);
    if Names(a) != [] || Names(b) == [] || "general" in Names(b) {
      forall cache: RoutingCache ensures Widens(cache, a, b) {
        WidensWhenNamed(cache, a, b);
      }
    } else {
      var cache := NarrowingCache(a, b);
    }
  }

  /** The configs under which appending `b` to a blank spec stops untagged work from being accepted. */
  lemma NarrowingCache(a: string, b: string) returns (cache: RoutingCache)
    requires Names(a) == [] && Names(b) != [] && "general" !in Names(b)
    ensures !Widens(cache, a, b)
  {
    var names := Names(b);
    cache := NarrowTo(names);
    NamesOfJoined(a, b);
    assert Names(a) + names == names;
    NarrowedRefuses(names);
    NarrowedGeneralAccepts(names);
    assert ExposureOf(cache, a) == ExposureSet(Lookup(cache, ["general"]));
    assert ExposureOf(cache, a + "," + b) == ExposureSet(Lookup(cache, names));
  }

  function NarrowTo(names: seq<string>): RoutingCache {
    (map n | n in names :: RoutingConfig(Include, [], None))["general" := ALL]
  }

  lemma NarrowedRefuses(names: seq<string>)
    requires "general" !in names
    ensures !ExposureSet(Lookup(NarrowTo(names), names)).Accepts(None)
  {
    forall i | 0 <= i < |names| ensures !CachedConfig(NarrowTo(names), names[i]).ShouldProcess(None) {
      assert names[i] in names && names[i] != "general";
    }
  }

  lemma NarrowedGeneralAccepts(names: seq<string>)
    ensures ExposureSet(Lookup(NarrowTo(names), ["general"])).Accepts(None)
  {
    var members := Lookup(NarrowTo(names), ["general"]);
    assert members[0] == ALL;
    assert members[0].ShouldProcess(None);
  }

  /** A set with more members accepts more. */
  lemma MoreMembersAcceptMore(x: ExposureSet, y: ExposureSet, hint: Option<string>)
    requires (forall m :: m in x.members ==> m in y.members) && x.Accepts(hint)
    ensures y.Accepts(hint)
  {
    var i :| 0 <= i < |x.members| && x.members[i].ShouldProcess(hint);
    assert x.members[i] in y.members;
    var j :| 0 <= j < |y.members| && y.members[j] == x.members[i];
  }

  lemma LookupGrows(cache: RoutingCache, xs: seq<string>, ys: seq<string>, m: RoutingConfig)
    requires (forall x :: x in xs ==> x in ys) && m in Lookup(cache, xs)
    ensures m in Lookup(cache, ys)
  {
    var i :| 0 <= i < |xs| && Lookup(cache, xs)[i] == m;
    assert xs[i] in ys;
    var j :| 0 <= j < |ys| && ys[j] == xs[i];
    assert Lookup(cache, ys)[j] == CachedConfig(cache, ys[j]);
  }

  lemma MembersRemain(cache: RoutingCache, a: string, b: string, m: RoutingConfig)
    requires Names(a) != [] || Names(b) == [] || "general" in Names(b)
    requires m in ExposureOf(cache, a).members
    ensures m in ExposureOf(cache, a + "," + b).members
  {
    NamesOfJoined(a, b);
    if Names(a) == [] && Names(b) != [] {
      assert Names(a) + Names(b) == Names(b);
      LookupGrows(cache, ["general"], Names(b), m);
    } else if Names(a) != [] {
      LookupGrows(cache, Names(a), Names(a + "," + b), m);
    } else {
      assert Names(a + "," + b) == [];
    }
  }

  lemma WidensWhenNamed(cache: RoutingCache, a: string, b: string)
    requires Names(a) != [] || Names(b) == [] || "general" in Names(b)
    ensures Widens(cache, a, b)
  {
    var x, y := ExposureOf(cache, a), ExposureOf(cache, a + "," + b);
    forall m | m in x.members ensures m in y.members { MembersRemain(cache, a, b, m); }
    forall hint: Option<string> | x.Accepts(hint) ensures y.Accepts(hint) { MoreMembersAcceptMore(x, y, hint); }
  }
}
