/**
 The schema compiler: a shape's 24 slots are filled from the header and from the shape's body, names stay unique and
 every vocabulary stays decodable. An ordered map of the schema file is the sequence of its entries in key order.
 */
module TopologySchema {
  import opened Wrappers

  const WIDTH: nat := 24
  const LAYER_SLOT: nat := 0

  datatype Kind = Colour | Ordered

  datatype Writer = Provider | Sampler | Daemon

  datatype SlotDef = SlotDef(name: string, kind: Kind, values: seq<(string, real)>, many: bool, writer: Writer, freeform: bool)

  /** A header entry: its slot, its definition, and the shapes that carry it when not all do. */
  datatype HeaderSlot = HeaderSlot(name: string, slot: nat, def: SlotDef, shapes: Option<seq<string>>)

  datatype BodySlot = BodySlot(index: nat, def: SlotDef)

  type Slots = seq<Option<SlotDef>>

  // ------------------------------------------------------------------------------------------
  // Vocabularies
  // ------------------------------------------------------------------------------------------

  /** Codes in the unit interval, no code twice, and some way to name a value unless the slot is the layer's. */
  ghost predicate ValuesOk(index: nat, def: SlotDef) {
    && (forall i :: 0 <= i < |def.values| ==> 0.0 <= def.values[i].1 <= 1.0)
    && (forall i, j :: 0 <= i < j < |def.values| ==> def.values[i].1 != def.values[j].1)
    && (def.values != [] || def.freeform || index == LAYER_SLOT)
  }

  /** `check_values`: the codes met so far are kept in a list and searched. */
  method CheckValues(index: nat, def: SlotDef) returns (ok: bool)
    ensures ok <==>
            && (forall i :: 0 <= i < |def.values| ==> 0.0 <= def.values[i].1 <= 1.0)
            && (forall i, j :: 0 <= i < j < |def.values| ==> def.values[i].1 != def.values[j].1)
            && (def.values != [] || def.freeform || index == 0)
  {
    var seen: seq<real> := [];
    var i := 0;
    while i < |def.values|
      invariant 0 <= i <= |def.values| && |seen| == i
      invariant forall k :: 0 <= k < i ==> seen[k] == def.values[k].1 && 0.0 <= seen[k] <= 1.0
      invariant forall j, k :: 0 <= j < k < i ==> seen[j] != seen[k]
    {
      var v := def.values[i].1;
      if !(0.0 <= v <= 1.0) {
        return false;
      }
      if v in seen {
        ghost var k :| 0 <= k < i && seen[k] == v;
        assert def.values[k].1 == def.values[i].1;
        return false;
      }
      seen := seen + [v];
      i := i + 1;
    }
    if def.values == [] && !def.freeform && index != LAYER_SLOT {
      return false;
    }
    return true;
  }

  function Lookup(values: seq<(string, real)>, word: string): Option<real> {
    if values == [] then None
    else if values[0].0 == word then Some(values[0].1)
    else Lookup(values[1..], word)
  }

  /** A word's code is the one listed with it, at its first place in the list; a word that is not listed has none. */
  lemma {:induction false} LookupIs(values: seq<(string, real)>, word: string)
    ensures Lookup(values, word).None? <==> forall k :: 0 <= k < |values| ==> values[k].0 != word
    ensures Lookup(values, word).Some? ==> exists k :: 0 <= k < |values| && values[k] == (word, Lookup(values, word).value)
                                                      && forall j :: 0 <= j < k ==> values[j].0 != word
  {
    if values != [] && values[0].0 != word {
      LookupIs(values[1..], word);
      if Lookup(values, word).Some? {
        var k :| 0 <= k < |values[1..]| && values[1..][k] == (word, Lookup(values, word).value) && forall j :: 0 <= j < k ==> values[1..][j].0 != word;
        assert values[k + 1] == (word, Lookup(values, word).value);
        assert forall j :: 0 < j < k + 1 ==> values[j] == values[1..][j - 1];
      }
    }
  }

  /** The word a code stands for. */
  function WordOf(values: seq<(string, real)>, code: real): Option<string> {
    if values == [] then None
    else if values[0].1 == code then Some(values[0].0)
    else WordOf(values[1..], code)
  }

  /** In a checked vocabulary a word's code stands for that word and no other. */
  lemma {:induction false} CodesIdentifyWords(values: seq<(string, real)>, word: string)
    requires forall i, j :: 0 <= i < j < |values| ==> values[i].1 != values[j].1
    ensures Lookup(values, word).Some? ==> WordOf(values, Lookup(values, word).value) == Some(word)
    ensures Lookup(values, word).Some? ==> exists i :: 0 <= i < |values| && values[i] == (word, Lookup(values, word).value)
  {
    if values != [] && values[0].0 != word && Lookup(values, word).Some? {
      CodesIdentifyWords(values[1..], word);
      var i :| 0 <= i < |values[1..]| && values[1..][i] == (word, Lookup(values, word).value);
      assert values[i + 1] == values[1..][i];
    }
  }

  // ------------------------------------------------------------------------------------------
  // Slots
  // ------------------------------------------------------------------------------------------

  /** The first slot with this name. */
  function Resolve(slots: Slots, name: string): Option<nat> {
    ResolveFrom(slots, name, 0)
  }

  function ResolveFrom(slots: Slots, name: string, from: nat): Option<nat>
    requires from <= |slots|
    decreases |slots| - from
  {
    if from == |slots| then None
    else if slots[from].Some? && slots[from].value.name == name then Some(from)
    else ResolveFrom(slots, name, from + 1)
  }

  function NameOf(slots: Slots, index: nat): Option<string> {
    if index < |slots| && slots[index].Some? then Some(slots[index].value.name) else None
  }

  ghost predicate UniqueNames(slots: Slots) {
    forall i, j :: 0 <= i < j < |slots| && slots[i].Some? && slots[j].Some? ==> slots[i].value.name != slots[j].value.name
  }

  predicate Named(slots: Slots, name: string) {
    exists i :: 0 <= i < |slots| && slots[i].Some? && slots[i].value.name == name
  }

  lemma {:induction false} ResolveFromIs(slots: Slots, name: string, from: nat)
    requires from <= |slots|
    ensures var r := ResolveFrom(slots, name, from);
            && (r.Some? ==> from <= r.value < |slots| && slots[r.value].Some? && slots[r.value].value.name == name)
            && (r.None? ==> forall i :: from <= i < |slots| && slots[i].Some? ==> slots[i].value.name != name)
    decreases |slots| - from
  {
    if from < |slots| { ResolveFromIs(slots, name, from + 1); }
  }

  /** When names are unique, `resolve` and `name_of` undo each other. */
  lemma ResolveInvertsNameOf(slots: Slots, name: string, index: nat)
    requires UniqueNames(slots)
    ensures Resolve(slots, name) == Some(index) <==> NameOf(slots, index) == Some(name)
  {
    ResolveFromIs(slots, name, 0);
  }

  // ------------------------------------------------------------------------------------------
  // Compiling a shape
  // ------------------------------------------------------------------------------------------

  predicate Carries(h: HeaderSlot, key: string) {
    h.shapes.None? || key in h.shapes.value
  }

  function HeaderDef(h: HeaderSlot): SlotDef {
    h.def.(name := h.name)
  }

  /** The slots after the first `n` header entries; a later entry at the same slot replaces an earlier one. */
  function WithHeader(key: string, header: seq<HeaderSlot>, n: nat): (slots: Option<Slots>)
    requires n <= |header|
    ensures slots.Some? ==> |slots.value| == WIDTH
  {
    if n == 0 then Some(seq(WIDTH, _ => None))
    else
      match WithHeader(key, header, n - 1)
      case None => None
      case Some(slots) =>
        var h := header[n - 1];
        if h.slot >= WIDTH then None
        else if Carries(h, key) then Some(slots[h.slot := Some(HeaderDef(h))])
        else Some(slots)
  }

  predicate BodyMayName(index: nat) {
    2 <= index <= 15 || index == 19
  }

  /** The slots after the first `n` body entries. */
  function WithBody(slots: Slots, body: seq<BodySlot>, n: nat): (filled: Option<Slots>)
    requires n <= |body| && |slots| == WIDTH
    ensures filled.Some? ==> |filled.value| == WIDTH
  {
    if n == 0 then Some(slots)
    else
      match WithBody(slots, body, n - 1)
      case None => None
      case Some(filled) =>
        var b := body[n - 1];
        if !BodyMayName(b.index) || filled[b.index].Some? || Named(filled, b.def.name) then None
        else Some(filled[b.index := Some(b.def)])
  }

  ghost predicate AllValuesOk(slots: Slots) {
    forall i :: 0 <= i < |slots| && slots[i].Some? ==> ValuesOk(i, slots[i].value)
  }

  /** What compiling one shape yields, and nothing when the schema is refused. */
  ghost function Compiled(key: string, header: seq<HeaderSlot>, body: seq<BodySlot>): Option<Slots> {
    match WithHeader(key, header, |header|)
    case None => None
    case Some(slots) =>
      match WithBody(slots, body, |body|)
      case None => None
      case Some(filled) => if AllValuesOk(filled) then Some(filled) else None
  }

  /** The per-shape part of `compile`, filling the slots in place. */
  method CompileShape(key: string, header: seq<HeaderSlot>, body: seq<BodySlot>) returns (r: Result<Slots>)
    ensures r.Ok? <==> Compiled(key, header, body).Some?
    ensures r.Ok? ==> r.value == Compiled(key, header, body).value
  {
    var slots: Slots := seq(WIDTH, _ => None);
    var n := 0;
    while n < |header|
      invariant 0 <= n <= |header| && |slots| == WIDTH
      invariant WithHeader(key, header, n) == Some(slots)
    {
      var h := header[n];
      if h.slot >= WIDTH {
        HeaderRefused(key, header, n + 1, |header|);
        return Err("header is outside the width");
      }
      if Carries(h, key) {
        slots := slots[h.slot := Some(HeaderDef(h))];
      }
      n := n + 1;
    }
    ghost var start := slots;
    n := 0;
    while n < |body|
      invariant 0 <= n <= |body| && |slots| == WIDTH
      invariant WithBody(start, body, n) == Some(slots)
    {
      var b := body[n];
      if !BodyMayName(b.index) || slots[b.index].Some? || Named(slots, b.def.name) {
        BodyRefused(start, body, n + 1, |body|);
        return Err("body names a slot it may not");
      }
      slots := slots[b.index := Some(b.def)];
      n := n + 1;
    }
    var i := 0;
    while i < |slots|
      invariant 0 <= i <= |slots|
      invariant forall k :: 0 <= k < i && slots[k].Some? ==> ValuesOk(k, slots[k].value)
    {
      if slots[i].Some? {
        var ok := CheckValues(i, slots[i].value);
        if !ok {
          return Err("vocabulary");
        }
      }
      i := i + 1;
    }
    return Ok(slots);
  }

  lemma {:induction false} HeaderRefused(key: string, header: seq<HeaderSlot>, n: nat, m: nat)
    requires n <= m <= |header| && WithHeader(key, header, n).None?
    ensures WithHeader(key, header, m).None?
  {
    if n < m { HeaderRefused(key, header, n, m - 1); }
  }

  lemma {:induction false} BodyRefused(slots: Slots, body: seq<BodySlot>, n: nat, m: nat)
    requires n <= m <= |body| && |slots| == WIDTH && WithBody(slots, body, n).None?
    ensures WithBody(slots, body, m).None?
  {
    if n < m { BodyRefused(slots, body, n, m - 1); }
  }

  /** Header names are the keys of one map: no two entries share one. */
  ghost predicate HeaderIsMap(header: seq<HeaderSlot>) {
    forall i, j :: 0 <= i < j < |header| ==> header[i].name != header[j].name
  }

  /** Entry `k` is the last of the first `n` that the shape carries at slot `i`. */
  ghost predicate LastAt(key: string, header: seq<HeaderSlot>, n: nat, i: int, k: int)
    requires n <= |header|
  {
    0 <= k < n && header[k].slot == i && Carries(header[k], key)
    && forall later :: k < later < n && header[later].slot == i ==> !Carries(header[later], key)
  }

  /** A slot holds the last entry the shape carries there, and nothing when it carries none. */
  ghost predicate FromHeader(slots: Slots, key: string, header: seq<HeaderSlot>, n: nat)
    requires n <= |header|
  {
    forall i :: 0 <= i < |slots| ==>
      && (forall k :: LastAt(key, header, n, i, k) ==> slots[i] == Some(HeaderDef(header[k])))
      && (slots[i].Some? ==> exists k :: LastAt(key, header, n, i, k))
  }

  lemma {:induction false} HeaderSlotsComeFromTheHeader(key: string, header: seq<HeaderSlot>, n: nat)
    requires n <= |header| && WithHeader(key, header, n).Some?
    ensures FromHeader(WithHeader(key, header, n).value, key, header, n)
  {
    if n > 0 {
      HeaderSlotsComeFromTheHeader(key, header, n - 1);
      var before, after, h := WithHeader(key, header, n - 1).value, WithHeader(key, header, n).value, header[n - 1];
      forall i | 0 <= i < |after|
        ensures forall k :: LastAt(key, header, n, i, k) ==> after[i] == Some(HeaderDef(header[k]))
        ensures after[i].Some? ==> exists k :: LastAt(key, header, n, i, k)
      {
        if i == h.slot && Carries(h, key) {
          assert LastAt(key, header, n, i, n - 1);
        } else {
          OtherSlot(key, header, n, i);
          assert after[i] == before[i];
          if after[i].Some? {
            var k :| LastAt(key, header, n - 1, i, k);
            assert LastAt(key, header, n, i, k);
          }
        }
      }
    }
  }

  lemma OtherSlot(key: string, header: seq<HeaderSlot>, n: nat, i: int)
    requires 0 < n <= |header| && !(header[n - 1].slot == i && Carries(header[n - 1], key))
    ensures forall k :: LastAt(key, header, n, i, k) <==> LastAt(key, header, n - 1, i, k)
  {
  }

  lemma {:induction false} HeaderNamesAreUnique(key: string, header: seq<HeaderSlot>)
    requires HeaderIsMap(header) && WithHeader(key, header, |header|).Some?
    ensures UniqueNames(WithHeader(key, header, |header|).value)
  {
    var slots := WithHeader(key, header, |header|).value;
    HeaderSlotsComeFromTheHeader(key, header, |header|);
    forall i, j | 0 <= i < j < |slots| && slots[i].Some? && slots[j].Some?
      ensures slots[i].value.name != slots[j].value.name
    {
      var a :| LastAt(key, header, |header|, i, a);
      var b :| LastAt(key, header, |header|, j, b);
      assert a != b;
    }
  }

  lemma {:induction false} BodyKeepsNamesUnique(slots: Slots, body: seq<BodySlot>, n: nat)
    requires n <= |body| && |slots| == WIDTH && UniqueNames(slots) && WithBody(slots, body, n).Some?
    ensures UniqueNames(WithBody(slots, body, n).value)
    ensures forall i :: 0 <= i < WIDTH && !(exists k :: 0 <= k < n && body[k].index == i) ==> WithBody(slots, body, n).value[i] == slots[i]
    ensures forall k :: 0 <= k < n ==>
              BodyMayName(body[k].index) && slots[body[k].index].None? && WithBody(slots, body, n).value[body[k].index] == Some(body[k].def)
  {
    if n > 0 {
      BodyKeepsNamesUnique(slots, body, n - 1);
      var before, b := WithBody(slots, body, n - 1).value, body[n - 1];
      assert !Named(before, b.def.name);
      assert before[b.index].None?;
    }
  }

  /** The header is refused exactly when an entry, carried or not, lies outside the width. */
  lemma {:induction false} HeaderIsAccepted(key: string, header: seq<HeaderSlot>, n: nat)
    requires n <= |header|
    ensures WithHeader(key, header, n).Some? <==> forall k :: 0 <= k < n ==> header[k].slot < 24
  {
    if n > 0 { HeaderIsAccepted(key, header, n - 1); }
  }

  /** An entry without a list of shapes is carried by every shape, one with a list by those on it. */
  lemma CarriedBy(key: string, name: string, slot: nat, def: SlotDef, listed: seq<string>)
    ensures Carries(HeaderSlot(name, slot, def, None), key)
    ensures Carries(HeaderSlot(name, slot, def, Some(listed)), key) <==> exists i :: 0 <= i < |listed| && listed[i] == key
  {
  }

  /** Body entry `k` is at a body position free in the header, and no slot and no earlier body entry has its index or name. */
  ghost predicate BodyEntryOk(slots: Slots, body: seq<BodySlot>, k: nat)
    requires k < |body| && |slots| == WIDTH
  {
    var b := body[k];
    && (2 <= b.index <= 15 || b.index == 19) && slots[b.index].None?
    && (forall i :: 0 <= i < WIDTH && slots[i].Some? ==> slots[i].value.name != b.def.name)
    && (forall j :: 0 <= j < k ==> body[j].index != b.index && body[j].def.name != b.def.name)
  }

  predicate EntryNamed(body: seq<BodySlot>, n: nat, name: string)
    requires n <= |body|
  {
    exists k :: 0 <= k < n && body[k].def.name == name
  }

  predicate EntryAt(body: seq<BodySlot>, n: nat, index: nat)
    requires n <= |body|
  {
    exists k :: 0 <= k < n && body[k].index == index
  }

  /** The names and the free slots after `n` body entries. */
  lemma {:induction false} BodyAdds(slots: Slots, body: seq<BodySlot>, n: nat, name: string, index: nat)
    requires n <= |body| && |slots| == WIDTH && WithBody(slots, body, n).Some? && index < WIDTH
    ensures Named(WithBody(slots, body, n).value, name) <==> Named(slots, name) || EntryNamed(body, n, name)
    ensures WithBody(slots, body, n).value[index].None? <==> slots[index].None? && !EntryAt(body, n, index)
  {
    if n > 0 {
      BodyAdds(slots, body, n - 1, name, index);
      var before, b := WithBody(slots, body, n - 1).value, body[n - 1];
      NamedAfter(before, b.index, b.def, name);
    }
  }

  lemma NamedAfter(slots: Slots, index: nat, def: SlotDef, name: string)
    requires index < |slots| && slots[index].None?
    ensures Named(slots[index := Some(def)], name) <==> Named(slots, name) || def.name == name
  {
    var after := slots[index := Some(def)];
    if Named(slots, name) {
      var i :| 0 <= i < |slots| && slots[i].Some? && slots[i].value.name == name;
      assert after[i] == slots[i];
    }
    if def.name == name { assert after[index].value.name == name; }
  }

  lemma NextBodyEntry(slots: Slots, body: seq<BodySlot>, n: nat)
    requires n < |body| && |slots| == WIDTH && WithBody(slots, body, n).Some?
    ensures WithBody(slots, body, n + 1).Some? <==> BodyEntryOk(slots, body, n)
  {
    var b := body[n];
    if b.index < WIDTH {
      BodyAdds(slots, body, n, b.def.name, b.index);
    }
  }

  /** A body is accepted exactly when each of its entries is. */
  lemma {:induction false} BodyIsAccepted(slots: Slots, body: seq<BodySlot>, n: nat)
    requires n <= |body| && |slots| == WIDTH
    ensures WithBody(slots, body, n).Some? <==> forall k :: 0 <= k < n ==> BodyEntryOk(slots, body, k)
  {
    if n > 0 {
      BodyIsAccepted(slots, body, n - 1);
      if WithBody(slots, body, n - 1).Some? { NextBodyEntry(slots, body, n - 1); }
    }
  }

  /** A shape compiles exactly when its header fits, its body fits the header, and every vocabulary passes. */
  lemma {:induction false} ShapeIsAccepted(key: string, header: seq<HeaderSlot>, body: seq<BodySlot>)
    ensures Compiled(key, header, body).Some? <==>
            && (forall k :: 0 <= k < |header| ==> header[k].slot < 24)
            && WithHeader(key, header, |header|).Some?
            && (forall k :: 0 <= k < |body| ==> BodyEntryOk(WithHeader(key, header, |header|).value, body, k))
            && WithBody(WithHeader(key, header, |header|).value, body, |body|).Some?
            && AllValuesOk(WithBody(WithHeader(key, header, |header|).value, body, |body|).value)
  {
    HeaderIsAccepted(key, header, |header|);
    if WithHeader(key, header, |header|).Some? {
      BodyIsAccepted(WithHeader(key, header, |header|).value, body, |body|);
    }
  }

  /**
   What a compiled shape guarantees: unique names, checked vocabularies, every body entry at its own index, and the header
   everywhere else. A body entry never displaces a header entry and never sits at a header or storage position.
   */
  lemma {:induction false} CompiledShape(key: string, header: seq<HeaderSlot>, body: seq<BodySlot>)
    requires HeaderIsMap(header) && Compiled(key, header, body).Some?
    ensures var slots, fromHeader := Compiled(key, header, body).value, WithHeader(key, header, |header|).value;
            && |slots| == WIDTH && UniqueNames(slots) && AllValuesOk(slots)
            && (forall k :: 0 <= k < |body| ==> BodyMayName(body[k].index) && fromHeader[body[k].index].None? && slots[body[k].index] == Some(body[k].def))
            && (forall i :: 0 <= i < WIDTH && !(exists k :: 0 <= k < |body| && body[k].index == i) ==> slots[i] == fromHeader[i])
            && FromHeader(fromHeader, key, header, |header|)
  {
    HeaderNamesAreUnique(key, header);
    HeaderSlotsComeFromTheHeader(key, header, |header|);
    BodyKeepsNamesUnique(WithHeader(key, header, |header|).value, body, |body|);
  }
}
