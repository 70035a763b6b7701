/**
 The constellation pass: placements derived from heartbeat keys. The entities, nodes and keys of one pass and the lease are
 parameters, and so is which placements encoding or the store refuses. Placing stores the heartbeat name with the record.
 */
module ConstellationPass {
  import opened Wrappers
  import opened Text
  import opened Selection

  // ------------------------------------------------------------------------------------------
  // Heartbeat keys
  // ------------------------------------------------------------------------------------------

  datatype Heartbeat = Heartbeat(env: string, component: string, node: string)

  const MARKER := "}:gnode:heartbeat:"

  function HeartbeatKey(constellation: string, h: Heartbeat): string {
    "{" + constellation + MARKER + h.env + ":" + h.component + ":" + h.node
  }

  /** A string cut at its first colon. */
  function CutAtColon(s: string): Option<(string, string)> {
    if s == "" then None
    else if s[0] == ':' then Some(("", s[1..]))
    else
      match CutAtColon(s[1..])
      case None => None
      case Some(cut) => Some(([s[0]] + cut.0, cut.1))
  }

  /** Three parts, of which the last keeps any further colons, and none is empty. */
  function ParseParts(rest: string): Option<Heartbeat> {
    match CutAtColon(rest)
    case None => None
    case Some(first) =>
      match CutAtColon(first.1)
      case None => None
      case Some(second) =>
        if first.0 == "" || second.0 == "" || second.1 == "" then None
        else Some(Heartbeat(first.0, second.0, second.1))
  }

  function ParseHeartbeatKey(key: string): Option<Heartbeat> {
    FindFromIs(key, MARKER, 0);
    match Find(key, MARKER)
    case None => None
    case Some(at) => ParseParts(key[at + |MARKER|..])
  }

  lemma {:induction false} CutAtColonIs(s: string, tail: string)
    ensures ':' !in s ==> CutAtColon(s + ":" + tail) == Some((s, tail))
    ensures ':' in s ==> CutAtColon(s + ":" + tail).Some? && CutAtColon(s + ":" + tail).value.0 != s
    ensures CutAtColon(s + ":" + tail).Some? ==> ':' !in CutAtColon(s + ":" + tail).value.0
  {
    var whole := s + ":" + tail;
    if s == "" {
      assert whole[1..] == tail;
    } else {
      assert whole[0] == s[0] && whole[1..] == s[1..] + ":" + tail;
      CutAtColonIs(s[1..], tail);
      assert s == [s[0]] + s[1..];
    }
  }

  lemma {:induction false} CutsAtTheFirst(s: string)
    ensures CutAtColon(s).None? <==> ':' !in s
    ensures CutAtColon(s).Some? ==> var (before, after) := CutAtColon(s).value; ':' !in before && s == before + ":" + after
  {
    if s != "" && s[0] != ':' { CutsAtTheFirst(s[1..]); }
  }

  function Parts(h: Heartbeat): string {
    h.env + ":" + (h.component + ":" + h.node)
  }

  lemma PartsRead(rest: string, h: Heartbeat)
    ensures ParseParts(rest) == Some(h) <==> WellFormed(h) && rest == Parts(h)
  {
    CutsAtTheFirst(rest);
    if CutAtColon(rest).Some? { CutsAtTheFirst(CutAtColon(rest).value.1); }
    CutAtColonIs(h.env, h.component + ":" + h.node);
    CutAtColonIs(h.component, h.node);
  }

  /** A key reads as a heartbeat exactly when its three parts, none empty, stand in order behind the first marker. */
  lemma KeyReads(key: string, h: Heartbeat)
    ensures ParseHeartbeatKey(key) == Some(h) <==>
            WellFormed(h) && exists before :: key == before + "}:gnode:heartbeat:" + Parts(h) && Find(key, "}:gnode:heartbeat:") == Some(|before|)
  {
    FindFromIs(key, MARKER, 0);
    if Find(key, MARKER).Some? {
      var at := Find(key, MARKER).value;
      PartsRead(key[at + |MARKER|..], h);
      BehindTheMarker(key, at, Parts(h));
    }
  }

  lemma BehindTheMarker(key: string, at: nat, rest: string)
    requires OccursAt(key, MARKER, at)
    ensures key[at + |MARKER|..] == rest <==> exists before :: key == before + MARKER + rest && |before| == at
  {
    assert key == key[..at] + MARKER + key[at + |MARKER|..];
    forall before | key == before + MARKER + rest && |before| == at ensures key[at + |MARKER|..] == rest {
      assert key[|before + MARKER|..] == rest;
    }
  }

  predicate WellFormed(h: Heartbeat) {
    ':' !in h.env && ':' !in h.component && h.env != "" && h.component != "" && h.node != ""
  }

  lemma MarkerFollowsTheName(constellation: string, rest: string)
    requires '}' !in constellation
    ensures Find("{" + constellation + MARKER + rest, MARKER) == Some(1 + |constellation|)
  {
    var key, at := "{" + constellation + MARKER + rest, 1 + |constellation|;
    assert key[at..at + |MARKER|] == MARKER;
    assert OccursAt(key, MARKER, at);
    FindFromIs(key, MARKER, 0);
    forall i | 0 <= i < at ensures !OccursAt(key, MARKER, i) {
      assert key[i] != '}';
      if i + |MARKER| <= |key| { assert key[i..i + |MARKER|][0] == key[i]; }
    }
  }

  /** Parsing undoes building a key exactly when no part is empty and neither the environment nor the component has a colon. */
  lemma ParseUndoesHeartbeatKey(constellation: string, h: Heartbeat)
    requires '}' !in constellation
    ensures ParseHeartbeatKey(HeartbeatKey(constellation, h)) == Some(h) <==> WellFormed(h)
  {
    var inner := h.component + ":" + h.node;
    var rest := h.env + ":" + inner;
    var key := HeartbeatKey(constellation, h);
    assert key == "{" + constellation + MARKER + rest;
    MarkerFollowsTheName(constellation, rest);
    assert key[1 + |constellation| + |MARKER|..] == rest;
    CutAtColonIs(h.env, inner);
    CutAtColonIs(h.component, h.node);
  }

  // ------------------------------------------------------------------------------------------
  // Whose heartbeat it is
  // ------------------------------------------------------------------------------------------

  datatype Entity = Entity(id: string, shape: string, heartbeat: Option<string>, capacityWeight: Option<nat>)

  function LowerChar(c: char): char {
    if 'A' <= c <= 'Z' then (c as int + 32) as char else c
  }

  function AsciiLower(s: string): (t: string)
    ensures |t| == |s|
  {
    seq(|s|, i requires 0 <= i < |s| => LowerChar(s[i]))
  }

  /** The declared heartbeat name decides when there is one, and the id, in any case, when there is none. */
  predicate Owns(e: Entity, name: string) {
    e.heartbeat == Some(name) || (e.heartbeat.None? && AsciiLower(e.id) == AsciiLower(name))
  }

  function Owners(name: string, entities: seq<Entity>): seq<Entity> {
    if entities == [] then []
    else
      var last := entities[|entities| - 1];
      Owners(name, entities[..|entities| - 1]) + if Owns(last, name) then [last] else []
  }

  method MatchHeartbeat(name: string, entities: seq<Entity>) returns (out: seq<Entity>)
    ensures out == Owners(name, entities)
  {
    var lower := AsciiLower(name);
    out := [];
    for n := 0 to |entities|
      invariant out == Owners(name, entities[..n])
    {
      var e := entities[n];
      assert entities[..n + 1][..n] == entities[..n];
      if e.heartbeat == Some(name) || (e.heartbeat.None? && AsciiLower(e.id) == lower) {
        out := out + [e];
      }
    }
    assert entities[..|entities|] == entities;
  }

  lemma {:induction false} OwnersAre(name: string, entities: seq<Entity>, e: Entity)
    ensures e in Owners(name, entities) <==> e in entities && Owns(e, name)
  {
    if entities != [] {
      OwnersAre(name, entities[..|entities| - 1], e);
      assert entities == entities[..|entities| - 1] + [entities[|entities| - 1]];
    }
  }

  function OwnedUnder(name: string): Entity -> bool {
    e => Owns(e, name)
  }

  function Itself<T>(): T -> T {
    x => x
  }

  /** The owners are matched in the order they are listed. */
  lemma {:induction false} OwnersStand(name: string, entities: seq<Entity>)
    ensures Selects(entities, Owners(name, entities), OwnedUnder(name), Itself())
  {
    if entities == [] {
      SelectsNone(OwnedUnder(name), Itself<Entity>());
    } else {
      var front := entities[..|entities| - 1];
      OwnersStand(name, front);
      SelectsLast(entities, Owners(name, front), Owners(name, entities), OwnedUnder(name), Itself());
    }
  }

  /** The two characters are one, or the capital and the small form of one letter. */
  ghost predicate SameButCase(a: char, b: char) {
    a == b || exists k :: AreLetter(a, b, k) || AreLetter(b, a, k)
  }

  predicate AreLetter(capital: char, small: char, k: int) {
    0 <= k < 26 && capital == UPPER[k] && small == LOWER[k]
  }

  lemma LettersAre(capital: char, small: char, k: int)
    ensures AreLetter(capital, small, k) <==> 'A' <= capital <= 'Z' && capital as int == 65 + k && small as int == 97 + k
  {
    assert forall i :: 0 <= i < 26 ==> UPPER[i] as nat == 65 + i && LOWER[i] as nat == 97 + i;
  }

  lemma CaseIsIgnored(a: char, b: char)
    ensures LowerChar(a) == LowerChar(b) <==> SameButCase(a, b)
  {
    LettersAre(a, b, a as int - 65);
    LettersAre(b, a, b as int - 65);
    forall k | AreLetter(a, b, k) ensures k == a as int - 65 { LettersAre(a, b, k); }
    forall k | AreLetter(b, a, k) ensures k == b as int - 65 { LettersAre(b, a, k); }
  }

  /** Whose heartbeat a name is: a declared name must be it, and without one the id must be it but for the case of its letters. */
  lemma OwnsBy(e: Entity, name: string)
    ensures e.heartbeat.Some? ==> (Owns(e, name) <==> e.heartbeat.value == name)
    ensures e.heartbeat.None? ==> (Owns(e, name) <==> |e.id| == |name| && forall i :: 0 <= i < |name| ==> SameButCase(e.id[i], name[i]))
  {
    var a, b := AsciiLower(e.id), AsciiLower(name);
    forall i | 0 <= i < |e.id| && i < |name| ensures a[i] == b[i] <==> SameButCase(e.id[i], name[i]) {
      CaseIsIgnored(e.id[i], name[i]);
    }
    if |e.id| == |name| && forall i :: 0 <= i < |name| ==> a[i] == b[i] {
      assert a == b;
    }
  }

  // ------------------------------------------------------------------------------------------
  // One pass
  // ------------------------------------------------------------------------------------------

  datatype Placement = Placement(shape: string, of: string, on: string, env: string, heartbeat: string, heartbeatEnv: string, weight: nat) {
    function Id(): string { of + "@" + on }
  }

  /** What a pass reads: the two kinds of entity and the registered nodes. */
  datatype World = World(components: seq<Entity>, services: seq<Entity>, nodes: seq<string>)

  function EnvWord(env: string): string {
    if env == "all" || env == "global" then "global" else env
  }

  function FirstWithId(entities: seq<Entity>, id: string): Option<Entity> {
    if entities == [] then None else if entities[0].id == id then Some(entities[0]) else FirstWithId(entities[1..], id)
  }

  /** The declared weight of the first entity with the id, services before components, truncated to 32 bits; 1 without one. */
  function WeightOf(w: World, id: string): nat {
    match FirstWithId(w.services + w.components, id)
    case Some(e) => (match e.capacityWeight case Some(n) => n case None => 1) % 0x1_0000_0000
    case None => 1
  }

  function PlacementOf(w: World, h: Heartbeat, e: Entity): Placement {
    Placement(
      if e.shape == "2" then "4.1" else "4.2", e.id, h.node,
      if e.shape == "2" then "global" else EnvWord(h.env),
      h.component, h.env, WeightOf(w, e.id))
  }

  datatype Sorted = Unparsed | NodeUnknown | NobodysName | Matched

  /** What a key is: every key is exactly one of these. */
  function SortOf(w: World, key: string): Sorted {
    match ParseHeartbeatKey(key)
    case None => Unparsed
    case Some(h) =>
      if h.node !in w.nodes then NodeUnknown
      else if Owners(h.component, w.components) + Owners(h.component, w.services) == [] then NobodysName
      else Matched
  }

  /** The placements a key proves, in the order the pass meets them. */
  function WantedBy(w: World, key: string): seq<Placement> {
    if SortOf(w, key) != Matched then []
    else
      var h := ParseHeartbeatKey(key).value;
      var owners := Owners(h.component, w.components) + Owners(h.component, w.services);
      PlacementsOf(w, h, owners)
  }

  function Wanted(w: World, keys: seq<string>): seq<Placement> {
    if keys == [] then [] else Wanted(w, keys[..|keys| - 1]) + WantedBy(w, keys[|keys| - 1])
  }

  /** A placement is made unless the pass found it there under this heartbeat name, or it is refused. */
  predicate Places(existing: map<string, Placement>, refuses: Placement -> bool, p: Placement) {
    !(p.Id() in existing && existing[p.Id()].heartbeat == p.heartbeat) && !refuses(p)
  }

  function StoreAfter(existing: map<string, Placement>, refuses: Placement -> bool, wanted: seq<Placement>): map<string, Placement> {
    if wanted == [] then existing
    else
      var before, p := StoreAfter(existing, refuses, wanted[..|wanted| - 1]), wanted[|wanted| - 1];
      if Places(existing, refuses, p) then before[p.Id() := p] else before
  }

  function PlacedIn(existing: map<string, Placement>, refuses: Placement -> bool, wanted: seq<Placement>): seq<string> {
    if wanted == [] then []
    else
      var before, p := PlacedIn(existing, refuses, wanted[..|wanted| - 1]), wanted[|wanted| - 1];
      before + if Places(existing, refuses, p) then [p.Id()] else []
  }

  function OfSort(w: World, keys: seq<string>, sorts: set<Sorted>): seq<string> {
    if keys == [] then []
    else
      var last := keys[|keys| - 1];
      OfSort(w, keys[..|keys| - 1], sorts) + if SortOf(w, last) in sorts then [last] else []
  }

  /** When a key is of each sort. */
  lemma SortIs(w: World, key: string)
    ensures SortOf(w, key) == Unparsed <==> ParseHeartbeatKey(key).None?
    ensures SortOf(w, key) == NodeUnknown <==> ParseHeartbeatKey(key).Some? && ParseHeartbeatKey(key).value.node !in w.nodes
    ensures SortOf(w, key) == Matched <==>
            && ParseHeartbeatKey(key).Some? && ParseHeartbeatKey(key).value.node in w.nodes
            && exists e :: e in w.components + w.services && Owns(e, ParseHeartbeatKey(key).value.component)
  {
    if ParseHeartbeatKey(key).Some? {
      var name := ParseHeartbeatKey(key).value.component;
      forall e ensures e in Owners(name, w.components) + Owners(name, w.services) <==> e in w.components + w.services && Owns(e, name) {
        OwnersOfBoth(w, name, e);
      }
      var owners := Owners(name, w.components) + Owners(name, w.services);
      if owners != [] { assert owners[0] in owners; }
    }
  }

  function HasSort(w: World, sorts: set<Sorted>): string -> bool {
    key => SortOf(w, key) in sorts
  }

  /** The report's lists keep the order in which the keys were read. */
  lemma {:induction false} SortsStand(w: World, keys: seq<string>, sorts: set<Sorted>)
    ensures Selects(keys, OfSort(w, keys, sorts), HasSort(w, sorts), Itself())
  {
    if keys == [] {
      SelectsNone(HasSort(w, sorts), Itself<string>());
    } else {
      var front := keys[..|keys| - 1];
      SortsStand(w, front, sorts);
      SelectsLast(keys, OfSort(w, front, sorts), OfSort(w, keys, sorts), HasSort(w, sorts), Itself());
    }
  }

  /** How a key that places nothing is reported: an unknown node is named beside it. */
  function UnmatchedLine(w: World, key: string): string {
    match ParseHeartbeatKey(key)
    case None => key
    case Some(h) => if h.node !in w.nodes then key + " (node " + h.node + " is not registered)" else key
  }

  /** The report's lines for the keys that parse and place nothing, in order. */
  function Unmatched(w: World, keys: seq<string>): seq<string> {
    if keys == [] then []
    else
      var last := keys[|keys| - 1];
      Unmatched(w, keys[..|keys| - 1]) + if SortOf(w, last) in {NodeUnknown, NobodysName} then [UnmatchedLine(w, last)] else []
  }

  lemma {:induction false} UnmatchedAre(w: World, keys: seq<string>)
    ensures |Unmatched(w, keys)| == |OfSort(w, keys, {NodeUnknown, NobodysName})|
    ensures forall i :: 0 <= i < |Unmatched(w, keys)| ==> Reports(w, OfSort(w, keys, {NodeUnknown, NobodysName})[i], Unmatched(w, keys)[i])
  {
    if keys != [] { UnmatchedAre(w, keys[..|keys| - 1]); }
  }

  /** The line is the key, with the node named behind it when the node is what is unknown. */
  predicate Reports(w: World, key: string, line: string) {
    var parsed := ParseHeartbeatKey(key);
    parsed.Some? && line == if parsed.value.node in w.nodes then key else key + " (node " + parsed.value.node + " is not registered)"
  }

  datatype Report = Report(leased: bool, heartbeats: nat, unparsed: seq<string>, unmatched: seq<string>, placed: seq<string>)

  class Store {
    var placements: map<string, Placement>

    constructor ()
      ensures placements == map[]
    {
      placements := map[];
    }

    method Place(p: Placement, refuses: Placement -> bool) returns (ok: bool)
      modifies this
      ensures ok <==> !refuses(p)
      ensures placements == if ok then old(placements)[p.Id() := p] else old(placements)
    {
      ok := !refuses(p);
      if ok { placements := placements[p.Id() := p]; }
    }
  }

  lemma {:induction false} OneMoreWanted(existing: map<string, Placement>, refuses: Placement -> bool, wanted: seq<Placement>, p: Placement)
    ensures StoreAfter(existing, refuses, wanted + [p])
         == if Places(existing, refuses, p) then StoreAfter(existing, refuses, wanted)[p.Id() := p] else StoreAfter(existing, refuses, wanted)
    ensures PlacedIn(existing, refuses, wanted + [p]) == PlacedIn(existing, refuses, wanted) + if Places(existing, refuses, p) then [p.Id()] else []
  {
    assert (wanted + [p])[..|wanted + [p]| - 1] == wanted;
  }

  /** One placement for each owner, in their order. */
  function Each(place: Entity -> Placement, owners: seq<Entity>): seq<Placement> {
    if owners == [] then [] else Each(place, owners[..|owners| - 1]) + [place(owners[|owners| - 1])]
  }

  lemma {:induction false} EachAt(place: Entity -> Placement, owners: seq<Entity>)
    ensures |Each(place, owners)| == |owners| && forall i :: 0 <= i < |owners| ==> Each(place, owners)[i] == place(owners[i])
  {
    if owners != [] { EachAt(place, owners[..|owners| - 1]); }
  }

  function PlacementFor(w: World, h: Heartbeat): Entity -> Placement {
    e => PlacementOf(w, h, e)
  }

  function PlacementsOf(w: World, h: Heartbeat, owners: seq<Entity>): seq<Placement> {
    Each(PlacementFor(w, h), owners)
  }

  lemma PlacementsAt(w: World, h: Heartbeat, owners: seq<Entity>)
    ensures |PlacementsOf(w, h, owners)| == |owners|
    ensures forall i :: 0 <= i < |owners| ==> PlacementsOf(w, h, owners)[i] == PlacementOf(w, h, owners[i])
  {
    EachAt(PlacementFor(w, h), owners);
  }

  lemma {:induction false} OneMoreOwner(w: World, h: Heartbeat, owners: seq<Entity>, n: nat, wanted: seq<Placement>, p: Placement)
    requires n < |owners| && p == PlacementOf(w, h, owners[n])
    ensures wanted + PlacementsOf(w, h, owners[..n + 1]) == (wanted + PlacementsOf(w, h, owners[..n])) + [p]
  {
    assert owners[..n + 1][..n] == owners[..n];
  }

  /** One owner's placement: skipped when the pass found it there under this name, else tried. */
  method PlaceOne(store: Store, p: Placement, existing: map<string, Placement>, refuses: Placement -> bool,
                  ghost wanted: seq<Placement>, placedBefore: seq<string>) returns (placed: seq<string>)
    requires store.placements == StoreAfter(existing, refuses, wanted) && placedBefore == PlacedIn(existing, refuses, wanted)
    modifies store
    ensures store.placements == StoreAfter(existing, refuses, wanted + [p]) && placed == PlacedIn(existing, refuses, wanted + [p])
  {
    placed := placedBefore;
    OneMoreWanted(existing, refuses, wanted, p);
    var id := p.Id();
    if id in existing && existing[id].heartbeat == p.heartbeat {
      return;
    }
    var ok := store.Place(p, refuses);
    if ok { placed := placed + [id]; }
  }

  /** The inner loop: one matched key's owners. `existing` is what the pass read at its start; the store moves on meanwhile. */
  method PlaceOwners(store: Store, w: World, h: Heartbeat, owners: seq<Entity>, existing: map<string, Placement>, refuses: Placement -> bool,
                     ghost wanted: seq<Placement>, placedBefore: seq<string>) returns (placed: seq<string>)
    requires store.placements == StoreAfter(existing, refuses, wanted) && placedBefore == PlacedIn(existing, refuses, wanted)
    modifies store
    ensures store.placements == StoreAfter(existing, refuses, wanted + PlacementsOf(w, h, owners))
    ensures placed == PlacedIn(existing, refuses, wanted + PlacementsOf(w, h, owners))
  {
    placed := placedBefore;
    assert wanted + PlacementsOf(w, h, []) == wanted;
    for n := 0 to |owners|
      invariant store.placements == StoreAfter(existing, refuses, wanted + PlacementsOf(w, h, owners[..n]))
      invariant placed == PlacedIn(existing, refuses, wanted + PlacementsOf(w, h, owners[..n]))
    {
      var p := PlacementOf(w, h, owners[n]);
      OneMoreOwner(w, h, owners, n, wanted, p);
      placed := PlaceOne(store, p, existing, refuses, wanted + PlacementsOf(w, h, owners[..n]), placed);
    }
    assert owners[..|owners|] == owners;
  }

  lemma {:induction false} OneMoreKey(w: World, keys: seq<string>, n: nat)
    requires n < |keys|
    ensures Wanted(w, keys[..n + 1]) == Wanted(w, keys[..n]) + WantedBy(w, keys[n])
    ensures OfSort(w, keys[..n + 1], {Unparsed}) == OfSort(w, keys[..n], {Unparsed}) + if SortOf(w, keys[n]) == Unparsed then [keys[n]] else []
    ensures Unmatched(w, keys[..n + 1]) == Unmatched(w, keys[..n]) + if SortOf(w, keys[n]) in {NodeUnknown, NobodysName} then [UnmatchedLine(w, keys[n])] else []
  {
    assert keys[..n + 1][..n] == keys[..n];
  }

  /** The body of the outer loop: a key is sorted, and a matched one's placements are made. */
  method PassKey(store: Store, w: World, key: string, existing: map<string, Placement>, refuses: Placement -> bool,
                 ghost wanted: seq<Placement>, placedBefore: seq<string>) returns (sort: Sorted, line: string, placed: seq<string>)
    requires store.placements == StoreAfter(existing, refuses, wanted) && placedBefore == PlacedIn(existing, refuses, wanted)
    modifies store
    ensures sort == SortOf(w, key)
    ensures sort in {NodeUnknown, NobodysName} ==> line == UnmatchedLine(w, key)
    ensures store.placements == StoreAfter(existing, refuses, wanted + WantedBy(w, key))
    ensures placed == PlacedIn(existing, refuses, wanted + WantedBy(w, key))
  {
    placed := placedBefore;
    assert wanted + [] == wanted;
    var parsed := ParseHeartbeatKey(key);
    if parsed.None? { return Unparsed, key, placed; }
    var h := parsed.value;
    if h.node !in w.nodes { return NodeUnknown, key + " (node " + h.node + " is not registered)", placed; }
    var matched := MatchHeartbeat(h.component, w.components);
    var serving := MatchHeartbeat(h.component, w.services);
    matched := matched + serving;
    if matched == [] { return NobodysName, key, placed; }
    sort, line := Matched, "";
    placed := PlaceOwners(store, w, h, matched, existing, refuses, wanted, placed);
  }

  /** `pass`, for the lease holder: the keys are sorted into the report, and the store is written. */
  method Pass(store: Store, leased: bool, w: World, keys: seq<string>, refuses: Placement -> bool) returns (r: Report)
    modifies store
    ensures !leased ==> store.placements == old(store.placements) && r == Report(false, 0, [], [], [])
    ensures leased ==> r.leased && r.heartbeats == |keys| && r.unparsed == OfSort(w, keys, {Unparsed})
    ensures leased ==> r.unmatched == Unmatched(w, keys)
    ensures leased ==> r.placed == PlacedIn(old(store.placements), refuses, Wanted(w, keys))
    ensures leased ==> store.placements == StoreAfter(old(store.placements), refuses, Wanted(w, keys))
  {
    if !leased { return Report(false, 0, [], [], []); }
    var existing := store.placements;
    var heartbeats: nat, unparsed, unmatched, placed := 0, [], [], [];
    for n := 0 to |keys|
      invariant heartbeats == n && unparsed == OfSort(w, keys[..n], {Unparsed}) && unmatched == Unmatched(w, keys[..n])
      invariant placed == PlacedIn(existing, refuses, Wanted(w, keys[..n]))
      invariant store.placements == StoreAfter(existing, refuses, Wanted(w, keys[..n]))
    {
      heartbeats := heartbeats + 1;
      var sort: Sorted, line: string;
      OneMoreKey(w, keys, n);
      sort, line, placed := PassKey(store, w, keys[n], existing, refuses, Wanted(w, keys[..n]), placed);
      match sort {
        case Unparsed => unparsed := unparsed + [keys[n]];
        case NodeUnknown => unmatched := unmatched + [line];
        case NobodysName => unmatched := unmatched + [line];
        case Matched =>
      }
    }
    assert keys[..|keys|] == keys;
    return Report(true, heartbeats, unparsed, unmatched, placed);
  }

  // ------------------------------------------------------------------------------------------
  // What a pass means
  // ------------------------------------------------------------------------------------------

  /** A list of the report holds the keys of its sorts as often as they were read, and no others. */
  lemma {:induction false} OfSortHolds(w: World, keys: seq<string>, sorts: set<Sorted>, key: string)
    ensures multiset(OfSort(w, keys, sorts))[key] == if SortOf(w, key) in sorts then multiset(keys)[key] else 0
  {
    if keys != [] {
      var front, last := keys[..|keys| - 1], keys[|keys| - 1];
      OfSortHolds(w, front, sorts, key);
      assert keys == front + [last];
    }
  }

  /** Every key is in exactly one of the three lists a report could give, as often as it was read. */
  lemma {:induction false} KeysAreSortedOnce(w: World, keys: seq<string>, key: string)
    ensures multiset(OfSort(w, keys, {Unparsed}))[key] + multiset(OfSort(w, keys, {NodeUnknown, NobodysName}))[key]
            + multiset(OfSort(w, keys, {Matched}))[key] == multiset(keys)[key]
    ensures multiset(OfSort(w, keys, {Matched}))[key] > 0 ==> WantedBy(w, key) != []
  {
    if SortOf(w, key) == Matched {
      var h := ParseHeartbeatKey(key).value;
      var owners := Owners(h.component, w.components) + Owners(h.component, w.services);
      PlacementsAt(w, h, owners);
    }
    OfSortHolds(w, keys, {Unparsed}, key);
    OfSortHolds(w, keys, {NodeUnknown, NobodysName}, key);
    OfSortHolds(w, keys, {Matched}, key);
  }

  /** Made: not refused, and not found by the pass at its start under its own heartbeat name. */
  function Made(existing: map<string, Placement>, refuses: Placement -> bool): Placement -> bool {
    (p: Placement) => !refuses(p) && (p.Id() in existing ==> existing[p.Id()].heartbeat != p.heartbeat)
  }

  function IdOf(): Placement -> string {
    (p: Placement) => p.of + "@" + p.on
  }

  /** The report names exactly the placements made, in the order they were. */
  lemma {:induction false} PlacedAre(existing: map<string, Placement>, refuses: Placement -> bool, wanted: seq<Placement>)
    ensures Selects(wanted, PlacedIn(existing, refuses, wanted), Made(existing, refuses), IdOf())
  {
    if wanted == [] {
      SelectsNone(Made(existing, refuses), IdOf());
    } else {
      var front := wanted[..|wanted| - 1];
      PlacedAre(existing, refuses, front);
      SelectsLast(wanted, PlacedIn(existing, refuses, front), PlacedIn(existing, refuses, wanted), Made(existing, refuses), IdOf());
    }
  }

  ghost predicate LastMade(existing: map<string, Placement>, refuses: Placement -> bool, wanted: seq<Placement>, id: string, i: int) {
    && 0 <= i < |wanted| && Made(existing, refuses)(wanted[i]) && wanted[i].Id() == id
    && forall j :: i < j < |wanted| && wanted[j].Id() == id ==> !Made(existing, refuses)(wanted[j])
  }

  lemma LastOfMore(existing: map<string, Placement>, refuses: Placement -> bool, front: seq<Placement>, p: Placement, id: string, i: int)
    ensures LastMade(existing, refuses, front + [p], id, i) <==>
            if p.Id() == id && Made(existing, refuses)(p) then i == |front| else LastMade(existing, refuses, front, id, i)
  {
    var all := front + [p];
    assert all[|front|] == p;
    assert forall j :: 0 <= j < |front| ==> all[j] == front[j];
  }

  /** Under this id the store holds the last placement made, or what was there before when none was. */
  ghost predicate HoldsTheLast(existing: map<string, Placement>, refuses: Placement -> bool, wanted: seq<Placement>, id: string, store: map<string, Placement>) {
    && (forall i :: LastMade(existing, refuses, wanted, id, i) ==> id in store && store[id] == wanted[i])
    && ((forall i :: !LastMade(existing, refuses, wanted, id, i)) ==>
          (id in store <==> id in existing) && (id in existing ==> store[id] == existing[id]))
  }

  lemma HoldsAfterOneMore(existing: map<string, Placement>, refuses: Placement -> bool, front: seq<Placement>, p: Placement, id: string,
                          before: map<string, Placement>)
    requires HoldsTheLast(existing, refuses, front, id, before)
    ensures HoldsTheLast(existing, refuses, front + [p], id, if Made(existing, refuses)(p) then before[p.Id() := p] else before)
  {
    forall i
      ensures LastMade(existing, refuses, front + [p], id, i) <==>
              if p.Id() == id && Made(existing, refuses)(p) then i == |front| else LastMade(existing, refuses, front, id, i)
    {
      LastOfMore(existing, refuses, front, p, id, i);
    }
    assert (front + [p])[|front|] == p;
    if p.Id() == id && Made(existing, refuses)(p) {
      assert LastMade(existing, refuses, front + [p], id, |front|);
    } else {
      assert forall i :: LastMade(existing, refuses, front, id, i) ==> LastMade(existing, refuses, front + [p], id, i);
    }
  }

  lemma {:induction false} StoreHolds(existing: map<string, Placement>, refuses: Placement -> bool, wanted: seq<Placement>, id: string)
    ensures HoldsTheLast(existing, refuses, wanted, id, StoreAfter(existing, refuses, wanted))
  {
    if wanted != [] {
      var front, last := wanted[..|wanted| - 1], wanted[|wanted| - 1];
      StoreHolds(existing, refuses, front, id);
      HoldsAfterOneMore(existing, refuses, front, last, id, StoreAfter(existing, refuses, front));
      assert front + [last] == wanted;
    }
  }

  lemma {:induction false} OwnersOfBoth(w: World, name: string, e: Entity)
    ensures e in Owners(name, w.components) + Owners(name, w.services) <==> e in w.components + w.services && Owns(e, name)
  {
    OwnersAre(name, w.components, e);
    OwnersAre(name, w.services, e);
  }

  /** Every owner of a matched key's name is wanted at the key's node. */
  lemma OwnersAreWanted(w: World, key: string, e: Entity)
    requires SortOf(w, key) == Matched && e in w.components + w.services && Owns(e, ParseHeartbeatKey(key).value.component)
    ensures PlacementOf(w, ParseHeartbeatKey(key).value, e) in WantedBy(w, key)
  {
    var h := ParseHeartbeatKey(key).value;
    var owners := Owners(h.component, w.components) + Owners(h.component, w.services);
    OwnersOfBoth(w, h.component, e);
    var i :| 0 <= i < |owners| && owners[i] == e;
    PlacementsAt(w, h, owners);
  }

  /** Only an owner of a matched key's name is wanted, and only at the key's node. */
  lemma WantedAreOwned(w: World, key: string, p: Placement)
    requires p in WantedBy(w, key)
    ensures SortOf(w, key) == Matched
    ensures exists e :: e in w.components + w.services && Owns(e, ParseHeartbeatKey(key).value.component)
                        && p == PlacementOf(w, ParseHeartbeatKey(key).value, e)
  {
    var h := ParseHeartbeatKey(key).value;
    var owners := Owners(h.component, w.components) + Owners(h.component, w.services);
    PlacementsAt(w, h, owners);
    var i :| 0 <= i < |owners| && PlacementsOf(w, h, owners)[i] == p;
    OwnersOfBoth(w, h.component, owners[i]);
  }

  /**
   What is asked for: a component's placement of shape 4.1 in the global environment, a service's of shape 4.2 in the key's,
   with "all" read as global; the entity at the key's node, under the key's heartbeat name and environment.
   */
  lemma PlacementsFollowTheKey(w: World, h: Heartbeat, e: Entity)
    ensures var p := PlacementOf(w, h, e);
            && p.of == e.id && p.on == h.node && p.Id() == e.id + "@" + h.node
            && p.heartbeat == h.component && p.heartbeatEnv == h.env
            && (e.shape == "2" ==> p.shape == "4.1" && p.env == "global")
            && (e.shape != "2" ==> p.shape == "4.2" && p.env == (match h.env case "all" => "global" case other => other))
  {
  }

  /** Its weight is the one declared by the first entity of that id, services first, modulo 2^32, and 1 when there is none. */
  lemma WeightsAreDeclared(w: World, id: string)
    ensures (forall e :: e in w.services + w.components ==> e.id != id) ==> WeightOf(w, id) == 1
    ensures forall i :: 0 <= i < |w.services + w.components| && IsFirstWithId(w.services + w.components, id, i) ==>
              WeightOf(w, id) == (match (w.services + w.components)[i].capacityWeight case Some(n) => n % 4294967296 case None => 1)
  {
    var all := w.services + w.components;
    if forall e :: e in all ==> e.id != id { NoneWithId(all, id); }
    forall i | 0 <= i < |all| && IsFirstWithId(all, id, i) ensures FirstWithId(all, id) == Some(all[i]) {
      FirstIs(all, id, i);
    }
  }

  predicate IsFirstWithId(entities: seq<Entity>, id: string, i: int) {
    0 <= i < |entities| && entities[i].id == id && forall j :: 0 <= j < i ==> entities[j].id != id
  }

  lemma {:induction false} FirstIs(entities: seq<Entity>, id: string, i: nat)
    requires IsFirstWithId(entities, id, i)
    ensures FirstWithId(entities, id) == Some(entities[i])
  {
    if i > 0 { FirstIs(entities[1..], id, i - 1); }
  }

  lemma {:induction false} NoneWithId(entities: seq<Entity>, id: string)
    requires forall e :: e in entities ==> e.id != id
    ensures FirstWithId(entities, id).None?
  {
    if entities != [] {
      assert entities[0] in entities;
      assert forall e :: e in entities[1..] ==> e in entities;
      NoneWithId(entities[1..], id);
    }
  }

  /** Case is ignored for the letters of ASCII and for nothing else. */
  lemma LowerCases(s: string)
    ensures forall i :: 0 <= i < |s| ==>
              (if s[i] in UPPER then exists k :: 0 <= k < 26 && s[i] == UPPER[k] && AsciiLower(s)[i] == LOWER[k] else AsciiLower(s)[i] == s[i])
  {
    forall i | 0 <= i < |s|
      ensures if s[i] in UPPER then exists k :: 0 <= k < 26 && s[i] == UPPER[k] && AsciiLower(s)[i] == LOWER[k] else AsciiLower(s)[i] == s[i]
    {
      LetterCase(s[i]);
    }
  }

  const UPPER := "ABCDEFGHIJKLMNOPQRSTUVWXYZ"
  const LOWER := "abcdefghijklmnopqrstuvwxyz"

  lemma LetterCase(c: char)
    ensures if c in UPPER then exists k :: 0 <= k < 26 && c == UPPER[k] && LowerChar(c) == LOWER[k] else LowerChar(c) == c
  {
    assert forall k :: 0 <= k < 26 ==> UPPER[k] as nat == 65 + k && LOWER[k] as nat == 97 + k;
    if 'A' <= c <= 'Z' { assert UPPER[c as nat - 65] == c; }
  }

  /** Accepted placements under one id carry one heartbeat name. */
  ghost predicate OneNameEach(refuses: Placement -> bool, wanted: seq<Placement>) {
    forall i, j :: 0 <= i < |wanted| && 0 <= j < |wanted| && !refuses(wanted[i]) && !refuses(wanted[j]) && wanted[i].Id() == wanted[j].Id()
                   ==> wanted[i].heartbeat == wanted[j].heartbeat
  }

  /** After a pass every accepted placement is stored, under its own name when names are unique. */
  lemma {:induction false} StoredUnderItsName(existing: map<string, Placement>, refuses: Placement -> bool, wanted: seq<Placement>, p: Placement)
    requires OneNameEach(refuses, wanted) && p in wanted && !refuses(p)
    ensures var store := StoreAfter(existing, refuses, wanted); p.Id() in store && store[p.Id()].heartbeat == p.heartbeat
  {
    var front, last := wanted[..|wanted| - 1], wanted[|wanted| - 1];
    assert wanted == front + [last];
    if p in front {
      SubsequenceOneName(refuses, wanted, |wanted| - 1);
      StoredUnderItsName(existing, refuses, front, p);
      if Places(existing, refuses, last) && last.Id() == p.Id() {
        var i :| 0 <= i < |front| && front[i] == p;
        assert wanted[i] == p && wanted[|wanted| - 1] == last;
      }
    } else if !Places(existing, refuses, p) {
      Untouched(existing, refuses, front, p, wanted);
    }
  }

  lemma SubsequenceOneName(refuses: Placement -> bool, wanted: seq<Placement>, n: nat)
    requires n <= |wanted| && OneNameEach(refuses, wanted)
    ensures OneNameEach(refuses, wanted[..n])
  {
  }

  /** A placement found under its own name keeps that name while only placements of the same name are made. */
  lemma {:induction false} Untouched(existing: map<string, Placement>, refuses: Placement -> bool, front: seq<Placement>, p: Placement, wanted: seq<Placement>)
    requires OneNameEach(refuses, wanted) && p in wanted && !refuses(p) && front <= wanted
    requires p.Id() in existing && existing[p.Id()].heartbeat == p.heartbeat
    ensures var store := StoreAfter(existing, refuses, front); p.Id() in store && store[p.Id()].heartbeat == p.heartbeat
  {
    if front != [] {
      var last := front[|front| - 1];
      Untouched(existing, refuses, front[..|front| - 1], p, wanted);
      if last.Id() == p.Id() && !refuses(last) {
        var i :| 0 <= i < |wanted| && wanted[i] == p;
        assert wanted[|front| - 1] == last;
        assert last.heartbeat == p.heartbeat;
      }
    }
  }

  lemma {:induction false} NothingPlaced(existing: map<string, Placement>, refuses: Placement -> bool, wanted: seq<Placement>)
    requires forall i :: 0 <= i < |wanted| ==> !Places(existing, refuses, wanted[i])
    ensures PlacedIn(existing, refuses, wanted) == [] && StoreAfter(existing, refuses, wanted) == existing
  {
    if wanted != [] {
      NothingPlaced(existing, refuses, wanted[..|wanted| - 1]);
    }
  }

  lemma {:induction false} SomethingPlaced(existing: map<string, Placement>, refuses: Placement -> bool, wanted: seq<Placement>, i: nat)
    requires i < |wanted| && Places(existing, refuses, wanted[i])
    ensures PlacedIn(existing, refuses, wanted) != []
  {
    if i < |wanted| - 1 {
      SomethingPlaced(existing, refuses, wanted[..|wanted| - 1], i);
    }
  }

  /**
   A second pass over the same inputs places nothing and leaves the store as it is, exactly when no two accepted
   placements share an id under different heartbeat names; otherwise it, and every pass after it, places again.
   */
  lemma {:induction false} SecondPassIsQuiet(existing: map<string, Placement>, refuses: Placement -> bool, wanted: seq<Placement>)
    ensures var store := StoreAfter(existing, refuses, wanted);
            && (PlacedIn(store, refuses, wanted) == [] <==> OneNameEach(refuses, wanted))
            && (OneNameEach(refuses, wanted) ==> StoreAfter(store, refuses, wanted) == store)
  {
    var store := StoreAfter(existing, refuses, wanted);
    if OneNameEach(refuses, wanted) {
      forall i | 0 <= i < |wanted| ensures !Places(store, refuses, wanted[i]) {
        if !refuses(wanted[i]) { StoredUnderItsName(existing, refuses, wanted, wanted[i]); }
      }
      NothingPlaced(store, refuses, wanted);
    } else {
      NeverSettles(store, refuses, wanted);
    }
  }

  /** With two names for one id, a pass places something whatever it finds. */
  lemma {:induction false} NeverSettles(store: map<string, Placement>, refuses: Placement -> bool, wanted: seq<Placement>)
    requires !OneNameEach(refuses, wanted)
    ensures PlacedIn(store, refuses, wanted) != []
  {
    var i, j :| 0 <= i < |wanted| && 0 <= j < |wanted| && !refuses(wanted[i]) && !refuses(wanted[j])
                && wanted[i].Id() == wanted[j].Id() && wanted[i].heartbeat != wanted[j].heartbeat;
    if Places(store, refuses, wanted[i]) {
      SomethingPlaced(store, refuses, wanted, i);
    } else {
      SomethingPlaced(store, refuses, wanted, j);
    }
  }
}
