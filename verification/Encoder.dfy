/**
 From declared axis values to a 24-wide point. Vocabulary codes and fractions are real numbers; `fixed` is the conversion
 to a Q64.64 raw value, which this model does not look into. The declared axes are a map; the order in which they are met
 is a parameter, and the result does not depend on it.
 */
module Encoder {
  import opened Wrappers
  import opened LayerCode
  import opened TopologySchema

  const ENVIRONMENT_SLOT: nat := 1
  const HEALTH_SLOT: nat := 17
  const LIFECYCLE_SLOT: nat := 18
  const LIFECYCLE_ACTIVE: real := 0.25
  const CODE_UNITS: real := 281474976710656.0

  datatype AxisValue = Word(word: string) | Words(words: seq<string>) | Fraction(fraction: real)

  datatype Declared = Declared(shape: string, env: string, axes: map<string, AxisValue>)

  datatype Encoded = Encoded(pd: seq<real>, pr: seq<int>, ordered: map<string, int>, colours: map<string, seq<string>>, preserve: seq<nat>)

  // ------------------------------------------------------------------------------------------
  // One axis
  // ------------------------------------------------------------------------------------------

  /** One declared value against its slot: its code and the words it contributes to the colour index. */
  function CodeOf(def: SlotDef, value: AxisValue): Result<(real, seq<string>)> {
    match (def.kind, value)
    case (Colour, Word(w)) =>
      (match Lookup(def.values, w)
       case Some(code) => Ok((code, [w]))
       case None => Err("not in the vocabulary"))
    case (Colour, Words(ws)) =>
      if ws == [] then Err("no value")
      else if !def.many && |ws| > 1 then Err("takes one value")
      else if exists i :: 0 <= i < |ws| && Lookup(def.values, ws[i]).None? then Err("not in the vocabulary")
      else Ok((Lookup(def.values, ws[0]).value, ws))
    case (Colour, Fraction(_)) => Err("a colour, not a number")
    case (Ordered, Word(w)) =>
      (match Lookup(def.values, w)
       case Some(code) => Ok((code, []))
       case None => Err("not a rung of the axis"))
    case (Ordered, Words(_)) => Err("takes one value")
    case (Ordered, Fraction(f)) =>
      if !def.freeform then Err("takes a vocabulary word")
      else if !(0.0 <= f <= 1.0) then Err("outside [0, 1]")
      else Ok((f, []))
  }

  /** The named axis is a provider's slot after the header, and takes the value. */
  predicate AxisOk(slots: Slots, name: string, value: AxisValue) {
    ResolveFromIs(slots, name, 0);
    match Resolve(slots, name)
    case None => false
    case Some(index) => 2 <= index && slots[index].value.writer.Provider? && CodeOf(slots[index].value, value).Ok?
  }

  predicate AllAxesOk(slots: Slots, axes: map<string, AxisValue>) {
    forall name :: name in axes ==> AxisOk(slots, name, axes[name])
  }

  /** An axis against the shape, check by check: its slot, kind and code, and its words. */
  method ResolveAxis(slots: Slots, name: string, value: AxisValue) returns (r: Result<(nat, Kind, real, seq<string>)>)
    ensures r.Ok? <==> AxisOk(slots, name, value)
    ensures r.Ok? ==> Resolve(slots, name) == Some(r.value.0) && r.value.0 < |slots|
    ensures r.Ok? ==> r.value.1 == KindAt(slots, name) && CodeOf(SlotOf(slots, name), value) == Ok((r.value.2, r.value.3))
  {
    ResolveFromIs(slots, name, 0);
    var index := Resolve(slots, name);
    if index.None? { return Err("not an axis of the shape"); }
    if index.value < 2 { return Err("a header slot is not declared"); }
    var def := slots[index.value].value;
    if def.writer != Provider { return Err("not declared"); }
    var coded := CodeOf(def, value);
    if coded.Err? { return Err(coded.error); }
    return Ok((index.value, def.kind, coded.value.0, coded.value.1));
  }

  /** Slot `i` is named after one of `names`. */
  predicate NamedIn(slots: Slots, names: set<string>, i: int) {
    2 <= i < |slots| && slots[i].Some? && slots[i].value.name in names
  }

  /** What the axis that slot `i` is named after puts there. */
  function CodeAt(slots: Slots, axes: map<string, AxisValue>, i: int): real
    requires NamedIn(slots, axes.Keys, i)
  {
    match CodeOf(slots[i].value, axes[slots[i].value.name])
    case Ok(coded) => coded.0
    case Err(_) => 0.0
  }

  // ------------------------------------------------------------------------------------------
  // What the encoding is
  // ------------------------------------------------------------------------------------------

  /** Why a declaration is refused: a malformed key, an unknown environment, or an axis the shape does not take. */
  predicate Refused(slots: Slots, d: Declared) {
    || |slots| != WIDTH
    || LayerCodeOf(d.shape).Err?
    || slots[ENVIRONMENT_SLOT].None?
    || Lookup(slots[ENVIRONMENT_SLOT].value.values, d.env).None?
    || !AllAxesOk(slots, d.axes)
  }

  /** The coordinate at slot `i`, read off the declaration alone. */
  function PointAt(slots: Slots, d: Declared, i: nat): real
    requires !Refused(slots, d)
  {
    if i == LIFECYCLE_SLOT && slots[LIFECYCLE_SLOT].Some? then LIFECYCLE_ACTIVE
    else if i == 0 then LayerCodeOf(d.shape).value as real / CODE_UNITS
    else if i == ENVIRONMENT_SLOT then Lookup(slots[ENVIRONMENT_SLOT].value.values, d.env).value
    else if NamedIn(slots, d.axes.Keys, i) then CodeAt(slots, d.axes, i)
    else 0.0
  }

  function RawAt(slots: Slots, d: Declared, fixed: real -> int, i: nat): int
    requires !Refused(slots, d)
  {
    if i == 0 then LayerCoordinate(LayerCodeOf(d.shape).value) else fixed(PointAt(slots, d, i))
  }

  function KindNames(slots: Slots, axes: map<string, AxisValue>, kind: Kind): set<string> {
    set name | name in axes && Resolve(slots, name).Some? && KindAt(slots, name) == kind
  }

  function SlotOf(slots: Slots, name: string): SlotDef
    requires Resolve(slots, name).Some?
  {
    ResolveFromIs(slots, name, 0);
    slots[Resolve(slots, name).value].value
  }

  function KindAt(slots: Slots, name: string): Kind
    requires Resolve(slots, name).Some?
  {
    SlotOf(slots, name).kind
  }

  function Coded(slots: Slots, axes: map<string, AxisValue>, name: string): (real, seq<string>)
    requires name in axes && AxisOk(slots, name, axes[name])
  {
    CodeOf(SlotOf(slots, name), axes[name]).value
  }

  function AxisScores(slots: Slots, axes: map<string, AxisValue>, fixed: real -> int): map<string, int>
    requires AllAxesOk(slots, axes)
  {
    map name | name in KindNames(slots, axes, Ordered) :: IndexScore(fixed(Coded(slots, axes, name).0))
  }

  function AxisColours(slots: Slots, axes: map<string, AxisValue>): map<string, seq<string>>
    requires AllAxesOk(slots, axes)
  {
    map name | name in KindNames(slots, axes, Colour) :: Coded(slots, axes, name).1
  }

  /** The slots a re-registration leaves alone: named, derived, and written by the sampler or the daemon. */
  predicate IsPreserved(slots: Slots, i: int) {
    16 <= i < |slots| && i != LIFECYCLE_SLOT && slots[i].Some? && !slots[i].value.writer.Provider?
  }

  function Preserved(slots: Slots, from: nat): seq<nat>
    decreases |slots| - from
  {
    if |slots| <= from then []
    else (if IsPreserved(slots, from) then [from] else []) + Preserved(slots, from + 1)
  }

  /** The daemon writes its lifecycle and an unknown health into the ordered index of every shape that names their slots. */
  function WithDaemonSlots(slots: Slots, fixed: real -> int, scores: map<string, int>): map<string, int>
    requires |slots| == WIDTH
  {
    var active := if slots[LIFECYCLE_SLOT].Some? then scores["lifecycle" := IndexScore(fixed(LIFECYCLE_ACTIVE))] else scores;
    if slots[HEALTH_SLOT].Some? then active["health" := 0] else active
  }

  function Encoding(slots: Slots, d: Declared, fixed: real -> int): Encoded
    requires !Refused(slots, d)
  {
    Encoded(
      seq(WIDTH, i requires 0 <= i < WIDTH => PointAt(slots, d, i)),
      seq(WIDTH, i requires 0 <= i < WIDTH => RawAt(slots, d, fixed, i)),
      WithDaemonSlots(slots, fixed, AxisScores(slots, d.axes, fixed)),
      map["environment" := [d.env]] + AxisColours(slots, d.axes),
      Preserved(slots, 0))
  }

  // ------------------------------------------------------------------------------------------
  // The loop over the declared axes
  // ------------------------------------------------------------------------------------------

  /** `order` lists every declared name once. */
  ghost predicate Enumerates(order: seq<string>, names: set<string>) {
    && (forall name :: name in order <==> name in names)
    && (forall i, j :: 0 <= i < j < |order| ==> order[i] != order[j])
  }

  function Seen(order: seq<string>, n: nat): set<string>
    requires n <= |order|
  {
    set k | 0 <= k < n :: order[k]
  }

  /** A point written so far: the axes in `names` at their slots, everything else as before. */
  ghost predicate Holds(slots: Slots, axes: map<string, AxisValue>, names: set<string>, before: seq<real>, pd: seq<real>) {
    && |before| == |pd| == |slots| && names <= axes.Keys
    && forall i :: 0 <= i < |slots| ==> pd[i] == if NamedIn(slots, names, i) then CodeAt(slots, axes, i) else before[i]
  }

  /** Its raw form. */
  ghost predicate HoldsRaw(slots: Slots, names: set<string>, fixed: real -> int, pd: seq<real>, before: seq<int>, pr: seq<int>) {
    && |before| == |pr| == |pd| == |slots|
    && forall i :: 0 <= i < |slots| ==> pr[i] == if NamedIn(slots, names, i) then fixed(pd[i]) else before[i]
  }

  lemma NamedInOneMore(slots: Slots, names: set<string>, name: string, i: int)
    requires UniqueNames(slots) && Resolve(slots, name).Some? && 2 <= Resolve(slots, name).value
    ensures 0 <= i < |slots| ==> (NamedIn(slots, names + {name}, i) <==> i == Resolve(slots, name).value || NamedIn(slots, names, i))
  {
    ResolveFromIs(slots, name, 0);
    if 0 <= i < |slots| {
      ResolveInvertsNameOf(slots, name, i);
    }
  }

  lemma WritingAnAxis(slots: Slots, axes: map<string, AxisValue>, names: set<string>, before: seq<real>, pd: seq<real>, name: string)
    requires UniqueNames(slots) && Holds(slots, axes, names, before, pd) && name in axes && AxisOk(slots, name, axes[name])
    ensures Resolve(slots, name).value < |slots|
    ensures Holds(slots, axes, names + {name}, before, pd[Resolve(slots, name).value := Coded(slots, axes, name).0])
  {
    ResolveFromIs(slots, name, 0);
    forall i | 0 <= i < |slots| ensures NamedIn(slots, names + {name}, i) <==> i == Resolve(slots, name).value || NamedIn(slots, names, i) {
      NamedInOneMore(slots, names, name, i);
    }
  }

  lemma WritingARaw(slots: Slots, names: set<string>, fixed: real -> int, pd: seq<real>, before: seq<int>, pr: seq<int>, name: string, code: real)
    requires UniqueNames(slots) && HoldsRaw(slots, names, fixed, pd, before, pr) && Resolve(slots, name).Some? && 2 <= Resolve(slots, name).value
    ensures Resolve(slots, name).value < |slots|
    ensures HoldsRaw(slots, names + {name}, fixed, pd[Resolve(slots, name).value := code], before, pr[Resolve(slots, name).value := fixed(code)])
  {
    ResolveFromIs(slots, name, 0);
    forall i | 0 <= i < |slots| ensures NamedIn(slots, names + {name}, i) <==> i == Resolve(slots, name).value || NamedIn(slots, names, i) {
      NamedInOneMore(slots, names, name, i);
    }
  }

  lemma OneMoreName(order: seq<string>, n: nat, names: set<string>)
    requires n < |order| && Enumerates(order, names)
    ensures Seen(order, n + 1) == Seen(order, n) + {order[n]} && order[n] !in Seen(order, n)
  {
  }

  lemma SeenAll(order: seq<string>, names: set<string>)
    requires Enumerates(order, names)
    ensures Seen(order, |order|) == names
  {
    forall name | name in names ensures name in Seen(order, |order|) {
      assert name in order;
    }
  }

  /** The two name-to-value indexes after the axes in `names`. */
  ghost predicate Indexed(slots: Slots, axes: map<string, AxisValue>, names: set<string>, fixed: real -> int,
                          ordered: map<string, int>, colours: map<string, seq<string>>)
  {
    && names <= axes.Keys
    && (forall name :: name in names ==> AxisOk(slots, name, axes[name]))
    && ordered.Keys <= names && colours.Keys <= names
    && (forall name :: name in names ==> (name in ordered <==> KindAt(slots, name).Ordered?) && (name in colours <==> KindAt(slots, name).Colour?))
    && (forall name :: name in ordered ==> ordered[name] == IndexScore(fixed(Coded(slots, axes, name).0)))
    && (forall name :: name in colours ==> colours[name] == Coded(slots, axes, name).1)
  }

  lemma IndexingAnAxis(slots: Slots, axes: map<string, AxisValue>, names: set<string>, fixed: real -> int,
                       ordered: map<string, int>, colours: map<string, seq<string>>, name: string)
    requires Indexed(slots, axes, names, fixed, ordered, colours) && name in axes && name !in names && AxisOk(slots, name, axes[name])
    ensures KindAt(slots, name).Colour? ==> Indexed(slots, axes, names + {name}, fixed, ordered, colours[name := Coded(slots, axes, name).1])
    ensures KindAt(slots, name).Ordered? ==>
              Indexed(slots, axes, names + {name}, fixed, ordered[name := IndexScore(fixed(Coded(slots, axes, name).0))], colours)
  {
  }

  lemma IndexedIs(slots: Slots, axes: map<string, AxisValue>, fixed: real -> int, ordered: map<string, int>, colours: map<string, seq<string>>)
    requires Indexed(slots, axes, axes.Keys, fixed, ordered, colours) && AllAxesOk(slots, axes)
    ensures ordered == AxisScores(slots, axes, fixed)
    ensures colours == AxisColours(slots, axes)
  {
  }

  /** The arrays `pd` and `pr` are written in place, one axis after another; the first refused axis ends the encoding. */
  method WriteAxes(slots: Slots, axes: map<string, AxisValue>, order: seq<string>, fixed: real -> int, pd: array<real>, pr: array<int>)
    returns (r: Result<(map<string, int>, map<string, seq<string>>)>)
    requires UniqueNames(slots) && pd.Length == pr.Length == |slots| && Enumerates(order, axes.Keys)
    modifies pd, pr
    ensures r.Ok? <==> AllAxesOk(slots, axes)
    ensures r.Ok? ==> Holds(slots, axes, axes.Keys, old(pd[..]), pd[..])
    ensures r.Ok? ==> HoldsRaw(slots, axes.Keys, fixed, pd[..], old(pr[..]), pr[..])
    ensures r.Ok? ==> r.value == (AxisScores(slots, axes, fixed), AxisColours(slots, axes))
  {
    var ordered: map<string, int>, colours: map<string, seq<string>> := map[], map[];
    for n := 0 to |order|
      invariant Holds(slots, axes, Seen(order, n), old(pd[..]), pd[..])
      invariant HoldsRaw(slots, Seen(order, n), fixed, pd[..], old(pr[..]), pr[..])
      invariant Indexed(slots, axes, Seen(order, n), fixed, ordered, colours)
    {
      var name := order[n];
      assert name in axes;
      var axis := ResolveAxis(slots, name, axes[name]);
      if axis.Err? { return Err(axis.error); }
      var (index, kind, code, words) := axis.value;
      WritingAnAxis(slots, axes, Seen(order, n), old(pd[..]), pd[..], name);
      WritingARaw(slots, Seen(order, n), fixed, pd[..], old(pr[..]), pr[..], name, code);
      OneMoreName(order, n, axes.Keys);
      IndexingAnAxis(slots, axes, Seen(order, n), fixed, ordered, colours, name);
      ghost var point, raw := pd[..], pr[..];
      pd[index], pr[index] := code, fixed(code);
      assert pd[..] == point[index := code] && pr[..] == raw[index := fixed(code)];
      match kind {
        case Colour => colours := colours[name := words];
        case Ordered => ordered := ordered[name := IndexScore(fixed(code))];
      }
    }
    SeenAll(order, axes.Keys);
    IndexedIs(slots, axes, fixed, ordered, colours);
    return Ok((ordered, colours));
  }

  // ------------------------------------------------------------------------------------------
  // The whole encoding
  // ------------------------------------------------------------------------------------------

  /** The two arrays before the axes are written: the header positions, and zeros. */
  ghost predicate Begins(layer: nat, env: real, fixed: real -> int, pd: seq<real>, pr: seq<int>) {
    && |pd| == |pr| == WIDTH
    && pd[0] == layer as real / CODE_UNITS && pd[ENVIRONMENT_SLOT] == env && (forall i :: 2 <= i < WIDTH ==> pd[i] == 0.0)
    && pr[0] == LayerCoordinate(layer) && (forall i :: 0 < i < WIDTH ==> pr[i] == fixed(pd[i]))
  }

  /** Header, then axes, then the daemon's slot: the point the declaration describes. */
  lemma PointIs(slots: Slots, d: Declared, fixed: real -> int, begun: seq<real>, written: seq<real>, pd: seq<real>)
    requires !Refused(slots, d) && |begun| == WIDTH && Holds(slots, d.axes, d.axes.Keys, begun, written)
    requires begun[0] == LayerCodeOf(d.shape).value as real / CODE_UNITS && (forall i :: 2 <= i < WIDTH ==> begun[i] == 0.0)
    requires begun[ENVIRONMENT_SLOT] == Lookup(slots[ENVIRONMENT_SLOT].value.values, d.env).value
    requires pd == if slots[LIFECYCLE_SLOT].Some? then written[LIFECYCLE_SLOT := LIFECYCLE_ACTIVE] else written
    ensures pd == Encoding(slots, d, fixed).pd
  {
    forall i | 0 <= i < WIDTH ensures pd[i] == PointAt(slots, d, i) {
      assert written[i] == if NamedIn(slots, d.axes.Keys, i) then CodeAt(slots, d.axes, i) else begun[i];
    }
  }

  lemma RawIs(slots: Slots, d: Declared, fixed: real -> int, pd: seq<real>, pr: seq<int>)
    requires !Refused(slots, d) && pd == Encoding(slots, d, fixed).pd && |pr| == WIDTH
    requires pr[0] == LayerCoordinate(LayerCodeOf(d.shape).value) && forall i :: 0 < i < WIDTH ==> pr[i] == fixed(pd[i])
    ensures pr == Encoding(slots, d, fixed).pr
  {
  }

  lemma RawFollows(slots: Slots, axes: map<string, AxisValue>, fixed: real -> int, begun: seq<real>, written: seq<real>, raw: seq<int>, rawWritten: seq<int>)
    requires Holds(slots, axes, axes.Keys, begun, written) && HoldsRaw(slots, axes.Keys, fixed, written, raw, rawWritten)
    requires |slots| == WIDTH && forall i :: 0 < i < WIDTH ==> raw[i] == fixed(begun[i])
    ensures rawWritten[0] == raw[0] && forall i :: 0 < i < WIDTH ==> rawWritten[i] == fixed(written[i])
  {
    forall i | 0 < i < WIDTH ensures rawWritten[i] == fixed(written[i]) {
      assert written[i] == if NamedIn(slots, axes.Keys, i) then CodeAt(slots, axes, i) else begun[i];
    }
  }

  /** The header positions, or what refuses the declaration before any axis is met. */
  method WriteHeader(slots: Slots, d: Declared, fixed: real -> int, pd: array<real>, pr: array<int>) returns (r: Result<nat>)
    requires |slots| == pd.Length == pr.Length == WIDTH
    requires (forall i :: 0 <= i < WIDTH ==> pd[i] == 0.0) && forall i :: 0 <= i < WIDTH ==> pr[i] == fixed(0.0)
    modifies pd, pr
    ensures r.Ok? <==> HeaderOk(slots, d)
    ensures r.Ok? ==> LayerCodeOf(d.shape) == r
    ensures r.Ok? ==> Begins(r.value, Lookup(slots[ENVIRONMENT_SLOT].value.values, d.env).value, fixed, pd[..], pr[..])
  {
    r := LayerCodeOf(d.shape);
    if r.Err? { return; }
    pd[0], pr[0] := r.value as real / CODE_UNITS, LayerCoordinate(r.value);
    if slots[ENVIRONMENT_SLOT].None? { return Err("shape without environment"); }
    var env := Lookup(slots[ENVIRONMENT_SLOT].value.values, d.env);
    if env.None? { return Err("environment is not in the vocabulary"); }
    pd[ENVIRONMENT_SLOT], pr[ENVIRONMENT_SLOT] := env.value, fixed(env.value);
  }

  predicate HeaderOk(slots: Slots, d: Declared)
    requires |slots| == WIDTH
  {
    && LayerCodeOf(d.shape).Ok?
    && slots[ENVIRONMENT_SLOT].Some? && Lookup(slots[ENVIRONMENT_SLOT].value.values, d.env).Some?
  }

  /** The daemon's own slots, written over whatever the axes put there. */
  method WriteDaemonSlots(slots: Slots, fixed: real -> int, pd: array<real>, pr: array<int>, scores: map<string, int>) returns (ordered: map<string, int>)
    requires |slots| == pd.Length == pr.Length == WIDTH
    modifies pd, pr
    ensures pd[..] == if slots[LIFECYCLE_SLOT].Some? then old(pd[..])[LIFECYCLE_SLOT := LIFECYCLE_ACTIVE] else old(pd[..])
    ensures pr[..] == if slots[LIFECYCLE_SLOT].Some? then old(pr[..])[LIFECYCLE_SLOT := fixed(LIFECYCLE_ACTIVE)] else old(pr[..])
    ensures ordered == WithDaemonSlots(slots, fixed, scores)
  {
    ordered := scores;
    if slots[LIFECYCLE_SLOT].Some? {
      pd[LIFECYCLE_SLOT], pr[LIFECYCLE_SLOT] := LIFECYCLE_ACTIVE, fixed(LIFECYCLE_ACTIVE);
      ordered := ordered["lifecycle" := IndexScore(fixed(LIFECYCLE_ACTIVE))];
    }
    if slots[HEALTH_SLOT].Some? {
      ordered := ordered["health" := 0];
    }
  }

  lemma PieceTogether(slots: Slots, d: Declared, fixed: real -> int, begun: seq<real>, raw: seq<int>, axes: seq<real>, rawAxes: seq<int>,
                      pd: seq<real>, pr: seq<int>)
    requires !Refused(slots, d)
    requires Begins(LayerCodeOf(d.shape).value, Lookup(slots[ENVIRONMENT_SLOT].value.values, d.env).value, fixed, begun, raw)
    requires Holds(slots, d.axes, d.axes.Keys, begun, axes) && HoldsRaw(slots, d.axes.Keys, fixed, axes, raw, rawAxes)
    requires pd == if slots[LIFECYCLE_SLOT].Some? then axes[LIFECYCLE_SLOT := LIFECYCLE_ACTIVE] else axes
    requires pr == if slots[LIFECYCLE_SLOT].Some? then rawAxes[LIFECYCLE_SLOT := fixed(LIFECYCLE_ACTIVE)] else rawAxes
    ensures pd == Encoding(slots, d, fixed).pd && pr == Encoding(slots, d, fixed).pr
  {
    PointIs(slots, d, fixed, begun, axes, pd);
    RawFollows(slots, d.axes, fixed, begun, axes, raw, rawAxes);
    RawIs(slots, d, fixed, pd, pr);
  }

  /** `encode`, for the compiled slots of the declaration's shape and any order in which its axes are met. */
  method Encode(slots: Slots, d: Declared, order: seq<string>, fixed: real -> int) returns (r: Result<Encoded>)
    requires |slots| == WIDTH && UniqueNames(slots) && Enumerates(order, d.axes.Keys)
    ensures r.Err? <==> Refused(slots, d)
    ensures r.Ok? ==> r.value == Encoding(slots, d, fixed)
  {
    var pd, pr := new real[WIDTH](_ => 0.0), new int[WIDTH](_ => fixed(0.0));
    var layer := WriteHeader(slots, d, fixed, pd, pr);
    if layer.Err? { return Err(layer.error); }
    ghost var begun, raw := pd[..], pr[..];
    var indexes := WriteAxes(slots, d.axes, order, fixed, pd, pr);
    if indexes.Err? { return Err(indexes.error); }
    ghost var axes, rawAxes := pd[..], pr[..];
    var ordered := WriteDaemonSlots(slots, fixed, pd, pr, indexes.value.0);
    PieceTogether(slots, d, fixed, begun, raw, axes, rawAxes, pd[..], pr[..]);
    r := Ok(Encoded(pd[..], pr[..], ordered, map["environment" := [d.env]] + indexes.value.1, Preserved(slots, 0)));
  }

  // ------------------------------------------------------------------------------------------
  // The encoding can be decoded
  // ------------------------------------------------------------------------------------------

  /** The word an axis value puts first, when it is made of words. */
  function FirstWord(value: AxisValue): Option<string> {
    match value
    case Word(w) => Some(w)
    case Words(ws) => if ws == [] then None else Some(ws[0])
    case Fraction(_) => None
  }

  lemma DeclaredSlot(slots: Slots, d: Declared, name: string)
    requires !Refused(slots, d) && UniqueNames(slots) && name in d.axes
    ensures Resolve(slots, name).Some?
    ensures var i := Resolve(slots, name).value;
            2 <= i < WIDTH && NamedIn(slots, d.axes.Keys, i) && slots[i].value == SlotOf(slots, name) && slots[i].value.name == name
            && CodeOf(slots[i].value, d.axes[name]).Ok?
  {
    assert AxisOk(slots, name, d.axes[name]);
    ResolveFromIs(slots, name, 0);
  }

  /** A vocabulary is a map from words. */
  ghost predicate DistinctWords(values: seq<(string, real)>) {
    forall i, j :: 0 <= i < j < |values| ==> values[i].0 != values[j].0
  }

  lemma {:induction false} CodesDecode(values: seq<(string, real)>, word: string, code: real)
    requires forall i, j :: 0 <= i < j < |values| ==> values[i].1 != values[j].1
    requires Lookup(values, word).Some? && DistinctWords(values)
    ensures WordOf(values, code) == Some(word) <==> Lookup(values, word) == Some(code)
  {
    CodesIdentifyWords(values, word);
    if WordOf(values, code) == Some(word) { WordsCode(values, code); }
  }

  /** The slot of a declared word axis holds the word's code, unless the daemon has written over it. */
  lemma AxisHolds(slots: Slots, d: Declared, fixed: real -> int, name: string)
    requires !Refused(slots, d) && UniqueNames(slots) && name in d.axes && FirstWord(d.axes[name]).Some?
    ensures Resolve(slots, name).Some? && 2 <= Resolve(slots, name).value < WIDTH
    ensures slots[Resolve(slots, name).value].Some? && slots[Resolve(slots, name).value].value == SlotOf(slots, name)
    ensures Lookup(SlotOf(slots, name).values, FirstWord(d.axes[name]).value).Some?
    ensures Encoding(slots, d, fixed).pd[Resolve(slots, name).value]
         == if Resolve(slots, name).value == LIFECYCLE_SLOT then LIFECYCLE_ACTIVE else Lookup(SlotOf(slots, name).values, FirstWord(d.axes[name]).value).value
  {
    DeclaredSlot(slots, d, name);
    assert Encoding(slots, d, fixed).pd[Resolve(slots, name).value] == PointAt(slots, d, Resolve(slots, name).value);
  }

  /**
   The value at an axis's slot names the word declared for it, and of several words the first, except where the shape
   names the lifecycle slot a provider's: there the daemon's own value stands, and the word survives only by having its code.
   */
  lemma AxisDecodes(slots: Slots, d: Declared, fixed: real -> int, name: string)
    requires !Refused(slots, d) && UniqueNames(slots) && AllValuesOk(slots)
    requires name in d.axes && FirstWord(d.axes[name]).Some?
    requires Resolve(slots, name).Some? ==> DistinctWords(SlotOf(slots, name).values)
    ensures Resolve(slots, name).Some? && Resolve(slots, name).value < WIDTH
    ensures var i, word := Resolve(slots, name).value, FirstWord(d.axes[name]).value;
            WordOf(SlotOf(slots, name).values, Encoding(slots, d, fixed).pd[i]) == Some(word)
            <==> (i != LIFECYCLE_SLOT || Lookup(SlotOf(slots, name).values, word) == Some(LIFECYCLE_ACTIVE))
  {
    AxisHolds(slots, d, fixed, name);
    var i := Resolve(slots, name).value;
    assert ValuesOk(i, slots[i].value);
    CodesDecode(SlotOf(slots, name).values, FirstWord(d.axes[name]).value, Encoding(slots, d, fixed).pd[i]);
  }

  /** A decoded word is in the vocabulary under the code it was decoded from. */
  lemma {:induction false} WordsCode(values: seq<(string, real)>, code: real)
    ensures WordOf(values, code).Some? ==> exists k :: 0 <= k < |values| && values[k] == (WordOf(values, code).value, code)
  {
    if values != [] {
      WordsCode(values[1..], code);
      if values[0].1 != code && WordOf(values, code).Some? {
        var k :| 0 <= k < |values[1..]| && values[1..][k] == (WordOf(values, code).value, code);
        assert values[k + 1] == values[1..][k];
      }
    }
  }

  /** The header decodes too: the layer's code exactly, from the coordinate and from its raw form. */
  lemma LayerDecodes(slots: Slots, d: Declared, fixed: real -> int)
    requires !Refused(slots, d)
    ensures Encoding(slots, d, fixed).pd[0] * 281474976710656.0 == LayerCodeOf(d.shape).value as real
    ensures IndexScore(Encoding(slots, d, fixed).pr[0]) == LayerCodeOf(d.shape).value
  {
    var layer := LayerCodeOf(d.shape).value;
    assert PointAt(slots, d, 0) == layer as real / CODE_UNITS;
    assert layer as real / CODE_UNITS * CODE_UNITS == layer as real;
  }

  /** And the environment's word. */
  lemma EnvironmentDecodes(slots: Slots, d: Declared, fixed: real -> int)
    requires !Refused(slots, d) && AllValuesOk(slots)
    ensures slots[1].Some? && WordOf(slots[1].value.values, Encoding(slots, d, fixed).pd[1]) == Some(d.env)
  {
    assert ValuesOk(ENVIRONMENT_SLOT, slots[ENVIRONMENT_SLOT].value);
    CodesIdentifyWords(slots[ENVIRONMENT_SLOT].value.values, d.env);
    assert PointAt(slots, d, ENVIRONMENT_SLOT) == Lookup(slots[ENVIRONMENT_SLOT].value.values, d.env).value;
  }

  /** Equal points come from declarations with the same layer code, */
  lemma EqualPointsSameLayer(slots: Slots, a: Declared, b: Declared, fixed: real -> int)
    requires !Refused(slots, a) && !Refused(slots, b)
    requires Encoding(slots, a, fixed).pd[0] == Encoding(slots, b, fixed).pd[0]
    ensures LayerCodeOf(a.shape) == LayerCodeOf(b.shape)
  {
    LayerDecodes(slots, a, fixed);
    LayerDecodes(slots, b, fixed);
  }

  /** the same environment, */
  lemma EqualPointsSameEnvironment(slots: Slots, a: Declared, b: Declared, fixed: real -> int)
    requires !Refused(slots, a) && !Refused(slots, b) && AllValuesOk(slots)
    requires Encoding(slots, a, fixed).pd[ENVIRONMENT_SLOT] == Encoding(slots, b, fixed).pd[ENVIRONMENT_SLOT]
    ensures a.env == b.env
  {
    EnvironmentDecodes(slots, a, fixed);
    EnvironmentDecodes(slots, b, fixed);
  }

  /** and the same word on every axis both declare. */
  lemma EqualPointsSameWord(slots: Slots, a: Declared, b: Declared, fixed: real -> int, name: string)
    requires !Refused(slots, a) && !Refused(slots, b) && UniqueNames(slots) && AllValuesOk(slots)
    requires Encoding(slots, a, fixed).pd == Encoding(slots, b, fixed).pd
    requires name in a.axes && name in b.axes && Resolve(slots, name) != Some(LIFECYCLE_SLOT)
    requires Resolve(slots, name).Some? ==> DistinctWords(SlotOf(slots, name).values)
    requires FirstWord(a.axes[name]).Some? && FirstWord(b.axes[name]).Some?
    ensures FirstWord(a.axes[name]) == FirstWord(b.axes[name])
  {
    AxisDecodes(slots, a, fixed, name);
    AxisDecodes(slots, b, fixed, name);
  }

  lemma OthersUnaffected(slots: Slots, d: Declared, name: string, i: nat)
    requires !Refused(slots, d) && !Refused(slots, d.(axes := d.axes - {name})) && UniqueNames(slots) && i < WIDTH
    requires Resolve(slots, name) != Some(i)
    ensures PointAt(slots, d, i) == PointAt(slots, d.(axes := d.axes - {name}), i)
  {
    NamedInFewer(slots, d.axes, name, i);
  }

  lemma NamedInFewer(slots: Slots, axes: map<string, AxisValue>, name: string, i: nat)
    requires UniqueNames(slots) && Resolve(slots, name) != Some(i)
    ensures NamedIn(slots, (axes - {name}).Keys, i) <==> NamedIn(slots, axes.Keys, i)
    ensures NamedIn(slots, axes.Keys, i) ==> CodeAt(slots, axes - {name}, i) == CodeAt(slots, axes, i)
  {
    ResolveInvertsNameOf(slots, name, i);
  }

  lemma OwnSlot(slots: Slots, d: Declared, name: string)
    requires !Refused(slots, d) && !Refused(slots, d.(axes := d.axes - {name})) && UniqueNames(slots)
    requires name in d.axes && Resolve(slots, name) != Some(LIFECYCLE_SLOT)
    ensures Resolve(slots, name).Some? && Resolve(slots, name).value < WIDTH
    ensures PointAt(slots, d, Resolve(slots, name).value) == Coded(slots, d.axes, name).0
    ensures PointAt(slots, d.(axes := d.axes - {name}), Resolve(slots, name).value) == 0.0
  {
    DeclaredSlot(slots, d, name);
  }

  lemma StillAccepted(slots: Slots, d: Declared, name: string)
    requires !Refused(slots, d)
    ensures !Refused(slots, d.(axes := d.axes - {name}))
  {
    assert AllAxesOk(slots, d.axes - {name});
  }

  /** Leaving an axis out changes the point exactly when its code is not zero: silence reads like the word coded zero. */
  lemma SilenceIsZero(slots: Slots, d: Declared, fixed: real -> int, name: string)
    requires !Refused(slots, d) && UniqueNames(slots) && name in d.axes && Resolve(slots, name) != Some(LIFECYCLE_SLOT)
    ensures !Refused(slots, d.(axes := d.axes - {name}))
    ensures Encoding(slots, d, fixed).pd == Encoding(slots, d.(axes := d.axes - {name}), fixed).pd <==> Coded(slots, d.axes, name).0 == 0.0
  {
    var without := d.(axes := d.axes - {name});
    StillAccepted(slots, d, name);
    OwnSlot(slots, d, name);
    var index := Resolve(slots, name).value;
    var with, left := Encoding(slots, d, fixed).pd, Encoding(slots, without, fixed).pd;
    assert with[index] == PointAt(slots, d, index) && left[index] == PointAt(slots, without, index);
    forall i: nat | i < WIDTH && i != index ensures with[i] == left[i] {
      OthersUnaffected(slots, d, name, i);
    }
  }

  // ------------------------------------------------------------------------------------------
  // What an axis contributes
  // ------------------------------------------------------------------------------------------

  /** When a slot takes a value: what each kind accepts, and nothing else. */
  lemma SlotTakes(def: SlotDef, value: AxisValue)
    ensures value.Word? ==> (CodeOf(def, value).Ok? <==> Lookup(def.values, value.word).Some?)
    ensures value.Words? ==> (CodeOf(def, value).Ok? <==>
              && def.kind.Colour? && value.words != [] && (def.many || |value.words| == 1)
              && forall i :: 0 <= i < |value.words| ==> Lookup(def.values, value.words[i]).Some?)
    ensures value.Fraction? ==> (CodeOf(def, value).Ok? <==> def.kind.Ordered? && def.freeform && 0.0 <= value.fraction <= 1.0)
  {
  }

  /** What is put at the slot: the first word's code, or the fraction itself; only colours contribute words, all that were declared. */
  lemma SlotGets(def: SlotDef, value: AxisValue)
    requires CodeOf(def, value).Ok?
    ensures value.Word? ==> Lookup(def.values, value.word) == Some(CodeOf(def, value).value.0) && FirstWord(value) == Some(value.word)
    ensures value.Words? ==> value.words != [] && Lookup(def.values, value.words[0]) == Some(CodeOf(def, value).value.0)
                             && FirstWord(value) == Some(value.words[0])
    ensures value.Fraction? ==> CodeOf(def, value).value.0 == value.fraction
    ensures CodeOf(def, value).value.1 == if def.kind.Ordered? then [] else AllWords(value)
  {
  }

  function AllWords(value: AxisValue): seq<string> {
    match value
    case Word(w) => [w]
    case Words(ws) => ws
    case Fraction(_) => []
  }

  /** A declared fraction is the coordinate itself, off the lifecycle slot, and its raw form and score are the fraction's. */
  lemma FractionIsKept(slots: Slots, d: Declared, fixed: real -> int, name: string)
    requires !Refused(slots, d) && UniqueNames(slots) && name in d.axes && d.axes[name].Fraction?
    ensures Resolve(slots, name).Some? && 2 <= Resolve(slots, name).value < WIDTH
    ensures var i, e := Resolve(slots, name).value, Encoding(slots, d, fixed);
            i != LIFECYCLE_SLOT ==> e.pd[i] == d.axes[name].fraction && e.pr[i] == fixed(d.axes[name].fraction)
  {
    DeclaredSlot(slots, d, name);
    var i := Resolve(slots, name).value;
    SlotGets(slots[i].value, d.axes[name]);
    assert Encoding(slots, d, fixed).pd[i] == PointAt(slots, d, i) && Encoding(slots, d, fixed).pr[i] == RawAt(slots, d, fixed, i);
  }

  /** The ordered index scores every ordered axis by the code at its slot, save that the daemon's two entries take precedence. */
  lemma OrderedAxesAreScored(slots: Slots, d: Declared, fixed: real -> int, name: string)
    requires !Refused(slots, d) && UniqueNames(slots) && name in d.axes
    ensures Resolve(slots, name).Some?
    ensures var e, ours := Encoding(slots, d, fixed), (name == "lifecycle" && slots[LIFECYCLE_SLOT].Some?) || (name == "health" && slots[HEALTH_SLOT].Some?);
            !ours ==>
              && (name in e.ordered <==> SlotOf(slots, name).kind.Ordered?)
              && (name in e.ordered && d.axes[name].Fraction? ==> e.ordered[name] == IndexScore(fixed(d.axes[name].fraction)))
              && (name in e.ordered && d.axes[name].Word? && Lookup(SlotOf(slots, name).values, d.axes[name].word).Some? ==>
                    e.ordered[name] == IndexScore(fixed(Lookup(SlotOf(slots, name).values, d.axes[name].word).value)))
  {
    DeclaredSlot(slots, d, name);
    assert AxisOk(slots, name, d.axes[name]);
    SlotGets(SlotOf(slots, name), d.axes[name]);
  }

  /** The daemon's own entries: an active lifecycle and a health that is not known yet. */
  lemma DaemonEntries(slots: Slots, d: Declared, fixed: real -> int)
    requires !Refused(slots, d)
    ensures var e := Encoding(slots, d, fixed);
            && (slots[18].Some? ==> e.pd[18] == 0.25 && e.pr[18] == fixed(0.25)
                                    && "lifecycle" in e.ordered && e.ordered["lifecycle"] == IndexScore(fixed(0.25)))
            && (slots[17].Some? ==> "health" in e.ordered && e.ordered["health"] == 0)
  {
    var e := Encoding(slots, d, fixed);
    assert e.pd[LIFECYCLE_SLOT] == PointAt(slots, d, LIFECYCLE_SLOT) && e.pr[LIFECYCLE_SLOT] == RawAt(slots, d, fixed, LIFECYCLE_SLOT);
  }

  /** Slot `i` takes the axis: a provider's slot past the header, of that name, and of a kind and vocabulary for the value. */
  ghost predicate TakenAt(slots: Slots, name: string, value: AxisValue, i: int) {
    2 <= i < |slots| && slots[i].Some? && slots[i].value.name == name && slots[i].value.writer.Provider? && CodeOf(slots[i].value, value).Ok?
  }

  /** A declaration is encoded exactly when its key has a code, its environment is in the vocabulary, and some slot takes each axis. */
  lemma DeclarationsAccepted(slots: Slots, d: Declared)
    requires |slots| == 24 && UniqueNames(slots)
    ensures !Refused(slots, d) <==>
            && LayerCodeOf(d.shape).Ok? && slots[1].Some? && Lookup(slots[1].value.values, d.env).Some?
            && forall name :: name in d.axes ==> exists i :: TakenAt(slots, name, d.axes[name], i)
  {
    forall name | name in d.axes ensures AxisOk(slots, name, d.axes[name]) <==> exists i :: TakenAt(slots, name, d.axes[name], i) {
      AxisIsTaken(slots, name, d.axes[name]);
    }
  }

  lemma AxisIsTaken(slots: Slots, name: string, value: AxisValue)
    requires UniqueNames(slots)
    ensures AxisOk(slots, name, value) <==> exists i :: TakenAt(slots, name, value, i)
  {
    ResolveFromIs(slots, name, 0);
    if AxisOk(slots, name, value) {
      assert TakenAt(slots, name, value, Resolve(slots, name).value);
    }
    if i :| TakenAt(slots, name, value, i) {
      ResolveInvertsNameOf(slots, name, i);
    }
  }

  lemma {:induction false} CodesAreFractions(values: seq<(string, real)>, word: string)
    requires (forall k :: 0 <= k < |values| ==> 0.0 <= values[k].1 <= 1.0) && Lookup(values, word).Some?
    ensures 0.0 <= Lookup(values, word).value <= 1.0
  {
    LookupIs(values, word);
  }

  lemma CodeIsAFraction(index: nat, def: SlotDef, value: AxisValue)
    requires ValuesOk(index, def) && CodeOf(def, value).Ok?
    ensures 0.0 <= CodeOf(def, value).value.0 <= 1.0
  {
    SlotTakes(def, value);
    SlotGets(def, value);
    if FirstWord(value).Some? { CodesAreFractions(def.values, FirstWord(value).value); }
  }

  /** Under a checked schema every encoded point lies in the unit cube, whatever was declared. */
  lemma PointsAreInTheUnitCube(slots: Slots, d: Declared, fixed: real -> int, i: nat)
    requires !Refused(slots, d) && AllValuesOk(slots) && UniqueNames(slots) && i < WIDTH
    ensures 0.0 <= Encoding(slots, d, fixed).pd[i] <= 1.0
  {
    assert Encoding(slots, d, fixed).pd[i] == PointAt(slots, d, i);
    if i == 0 {
      LayerIsAFraction(d.shape);
    } else if i == 1 {
      assert ValuesOk(1, slots[1].value);
      CodesAreFractions(slots[1].value.values, d.env);
    } else if NamedIn(slots, d.axes.Keys, i) {
      var name := slots[i].value.name;
      assert ValuesOk(i, slots[i].value) && AxisOk(slots, name, d.axes[name]);
      ResolveInvertsNameOf(slots, name, i);
      CodeIsAFraction(i, slots[i].value, d.axes[name]);
    }
  }

  lemma LayerIsAFraction(key: string)
    requires LayerCodeOf(key).Ok?
    ensures 0.0 <= LayerCodeOf(key).value as real / 281474976710656.0 < 1.0
  {
    CodeFits(PathOf(key).value);
  }

  /** A checked slot past the layer's can be given some value, unless it is a freeform colour without a vocabulary: then none. */
  lemma SlotsAreUsable(index: nat, def: SlotDef)
    requires ValuesOk(index, def) && index != 0
    ensures (exists value :: CodeOf(def, value).Ok?) <==> !(def.kind.Colour? && def.values == [])
  {
    if def.values != [] {
      LookupIs(def.values, def.values[0].0);
      assert CodeOf(def, Word(def.values[0].0)).Ok?;
    } else if def.kind.Ordered? {
      assert CodeOf(def, Fraction(0.0)).Ok?;
    } else {
      forall value ensures CodeOf(def, value).Err? {
        SlotTakes(def, value);
        if value.Words? && value.words != [] { assert Lookup(def.values, value.words[0]).None?; }
      }
    }
  }

  /** The colour index holds the environment's word and, for every colour axis, exactly the declared words. */
  lemma ColoursAreIndexed(slots: Slots, d: Declared, fixed: real -> int, name: string)
    requires !Refused(slots, d) && UniqueNames(slots)
    ensures var e := Encoding(slots, d, fixed);
            && (name in d.axes && Resolve(slots, name).Some? && SlotOf(slots, name).kind.Colour? ==>
                  name in e.colours && e.colours[name] == AllWords(d.axes[name]))
            && (name in e.colours && name != "environment" ==> name in d.axes && Resolve(slots, name).Some? && SlotOf(slots, name).kind.Colour?)
            && ("environment" in e.colours && ("environment" !in d.axes ==> e.colours["environment"] == [d.env]))
  {
    if name in d.axes {
      DeclaredSlot(slots, d, name);
      SlotGets(SlotOf(slots, name), d.axes[name]);
    }
  }

  // ------------------------------------------------------------------------------------------
  // The frame
  // ------------------------------------------------------------------------------------------

  /** A slot `encode` may write: the header, the lifecycle slot when named, and the slots of declared provider axes. */
  predicate IsWritten(slots: Slots, d: Declared, i: int) {
    || i == 0 || i == ENVIRONMENT_SLOT
    || (i == LIFECYCLE_SLOT < |slots| && slots[LIFECYCLE_SLOT].Some?)
    || (exists name :: name in d.axes && Resolve(slots, name) == Some(i))
  }

  /** Everything else is zero, and none of what a re-registration must leave alone is ever written. */
  lemma FrameIsKept(slots: Slots, d: Declared, fixed: real -> int, i: nat)
    requires !Refused(slots, d) && UniqueNames(slots) && i < WIDTH
    ensures !IsWritten(slots, d, i) ==> Encoding(slots, d, fixed).pd[i] == 0.0 && Encoding(slots, d, fixed).pr[i] == fixed(0.0)
    ensures i in Encoding(slots, d, fixed).preserve ==> !IsWritten(slots, d, i)
    ensures i in Encoding(slots, d, fixed).preserve <==> 16 <= i && i != 18 && slots[i].Some? && !slots[i].value.writer.Provider?
  {
    PreservedAre(slots, 0, i);
    if NamedIn(slots, d.axes.Keys, i) {
      ResolveInvertsNameOf(slots, slots[i].value.name, i);
    }
    forall name | name in d.axes && Resolve(slots, name) == Some(i) ensures slots[i].Some? && slots[i].value.writer.Provider? && 2 <= i {
      ResolveFromIs(slots, name, 0);
      assert AxisOk(slots, name, d.axes[name]);
    }
  }

  lemma {:induction false} PreservedAre(slots: Slots, from: nat, i: nat)
    requires from <= |slots|
    ensures i in Preserved(slots, from) <==> from <= i && IsPreserved(slots, i)
    decreases |slots| - from
  {
    if from < |slots| {
      PreservedAre(slots, from + 1, i);
    }
  }

  /** The preserve list names each slot once, in ascending order. */
  lemma {:induction false} PreservedAscends(slots: Slots, from: nat)
    requires from <= |slots|
    ensures forall j, k :: 0 <= j < k < |Preserved(slots, from)| ==> Preserved(slots, from)[j] < Preserved(slots, from)[k]
    decreases |slots| - from
  {
    if from < |slots| {
      PreservedAscends(slots, from + 1);
      var rest := Preserved(slots, from + 1);
      forall k | 0 <= k < |rest| ensures from < rest[k] { PreservedAre(slots, from + 1, rest[k]); }
    }
  }
}
