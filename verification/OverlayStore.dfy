/** The stored stack of customization layers of one object in one tenant. */
module OverlayStore {
  import opened Schema
  import opened Overlay
  import opened OverlayRemoval
  import Sorted
  import opened Wrappers

  datatype Layer = PluginLayer | TenantLayer

  /** A row's key. Sources are numbered in their own order; a tenant's own source sorts first. */
  datatype Slot = Slot(layer: Layer, source: nat)

  datatype Stored = Stored(slot: Slot, ov: Layering)

  type Stack = map<Slot, Layering>

  function Rank(l: Layer): nat {
    if l.PluginLayer? then 2 else 3
  }

  /** Merge order: by layer, then by source. */
  predicate Before(a: Slot, b: Slot) {
    Rank(a.layer) < Rank(b.layer) || (a.layer == b.layer && a.source < b.source)
  }

  lemma {:induction false} LastExists(slots: set<Slot>) returns (last: Slot)
    requires slots != {}
    ensures last in slots && forall s :: s in slots ==> s == last || Before(s, last)
  {
    var some :| some in slots;
    var rest := slots - {some};
    if rest == {} {
      last := some;
    } else {
      var r := LastExists(rest);
      last := if Before(r, some) then some else r;
    }
    forall s | s in slots ensures s == last || Before(s, last) {
      assert s == some || s in rest;
    }
  }

  function Last(slots: set<Slot>): (last: Slot)
    requires slots != {}
    ensures last in slots && forall s :: s in slots ==> s == last || Before(s, last)
  {
    assert exists last :: last in slots && forall s :: s in slots ==> s == last || Before(s, last) by {
      var last := LastExists(slots);
    }
    var last :| last in slots && forall s :: s in slots ==> s == last || Before(s, last);
    last
  }

  /** The layers in merge order. */
  function InOrder(stack: Stack): seq<Stored>
    decreases stack.Keys
  {
    if stack == map[] then []
    else
      assert stack.Keys != {};
      var last := Last(stack.Keys);
      InOrder(stack - {last}) + [Stored(last, stack[last])]
  }

  predicate Ascending(list: seq<Stored>) {
    forall i, j :: 0 <= i < j < |list| ==> Before(list[i].slot, list[j].slot)
  }

  /** `list` holds exactly the rows of `stack`, in merge order. */
  ghost predicate IsOrder(list: seq<Stored>, stack: Stack) {
    Ascending(list) && forall x :: x in list <==> x.slot in stack && stack[x.slot] == x.ov
  }

  lemma {:induction false} InOrderIsOrder(stack: Stack)
    ensures IsOrder(InOrder(stack), stack)
    decreases stack.Keys
  {
    if stack != map[] {
      var last := Last(stack.Keys);
      InOrderIsOrder(stack - {last});
      var init := InOrder(stack - {last});
      forall i | 0 <= i < |init| ensures Before(init[i].slot, last) {
        assert init[i] in init;
      }
    }
  }

  lemma OrderUnique(a: seq<Stored>, b: seq<Stored>)
    requires Ascending(a) && Ascending(b) && forall x :: x in a <==> x in b
    ensures a == b
  {
    Sorted.Unique((x: Stored, y: Stored) => Before(x.slot, y.slot), a, b);
  }

  // ---- Resolving ----

  /** A document that changes nothing is refused when it is parsed. */
  predicate ChangesSomething(ov: Layering) {
    ov.addFields != [] || ov.narrow != map[] || ov.permissions != map[]
  }

  function Layers(list: seq<Stored>): (r: seq<Layering>)
    ensures |r| == |list| && forall i :: 0 <= i < |r| ==> r[i] == list[i].ov
  {
    seq(|list|, i requires 0 <= i < |list| => list[i].ov)
  }

  predicate AllChange(list: seq<Stored>) {
    forall x :: x in list ==> ChangesSomething(x.ov)
  }

  function MergeStored(core: Object_, list: seq<Stored>): Option<Effective> {
    if AllChange(list) then Merged(core, Layers(list)) else None
  }

  function Resolve(core: Object_, stack: Stack): Option<Effective> {
    MergeStored(core, InOrder(stack))
  }

  datatype Op =
    | Save(slot: Slot, ov: Layering)
    | Delete(slot: Slot)
    | DeleteSource(source: nat)

  /** The layer is checked in the position it would be stored, against the other layers. */
  predicate SaveAllowed(core: Object_, stack: Stack, slot: Slot, ov: Layering) {
    ov.target == core.name && ChangesSomething(ov) && Resolve(core, stack[slot := ov]).Some?
  }

  function OfSource(stack: Stack, source: nat): (r: set<Slot>)
    ensures forall s :: s in r <==> s in stack && s.source == source
  {
    set s | s in stack && s.source == source
  }

  /** Deletions are not checked. */
  function Apply(core: Object_, stack: Stack, op: Op): Stack {
    match op
    case Save(slot, ov) => if SaveAllowed(core, stack, slot, ov) then stack[slot := ov] else stack
    case Delete(slot) => stack - {slot}
    case DeleteSource(source) => stack - OfSource(stack, source)
  }

  function Run(core: Object_, stack: Stack, ops: seq<Op>): Stack {
    if ops == [] then stack else Apply(core, Run(core, stack, ops[..|ops| - 1]), ops[|ops| - 1])
  }

  /** No layer that stays narrows a field of a layer below it that goes. */
  predicate NothingDangles(stack: Stack, gone: set<Slot>) {
    forall g, s :: g in stack && g in gone && s in stack && s !in gone && Before(g, s) ==> !Narrows(stack[s], stack[g])
  }

  predicate Narrows(ov: Layering, below: Layering) {
    exists name :: name in ov.narrow && HasField(below.addFields, name)
  }

  /** What a caller can look up before a deletion; a save is checked by itself. */
  predicate Safe(stack: Stack, op: Op) {
    match op
    case Save(_, _) => true
    case Delete(slot) => NothingDangles(stack, {slot})
    case DeleteSource(source) => NothingDangles(stack, OfSource(stack, source))
  }

  /** The stored layers whose slot is not in `gone`, in the same order. */
  function Rest(list: seq<Stored>, gone: set<Slot>): seq<Stored> {
    if list == [] then []
    else Rest(list[..|list| - 1], gone) + (if list[|list| - 1].slot in gone then [] else [list[|list| - 1]])
  }

  function Stays(list: seq<Stored>, gone: set<Slot>): (keep: seq<bool>)
    ensures |keep| == |list| && forall i :: 0 <= i < |keep| ==> keep[i] == (list[i].slot !in gone)
  {
    seq(|list|, i requires 0 <= i < |list| => list[i].slot !in gone)
  }

  lemma {:induction false} RestAscends(list: seq<Stored>, gone: set<Slot>)
    requires Ascending(list)
    ensures Ascending(Rest(list, gone)) && forall x :: x in Rest(list, gone) <==> x in list && x.slot !in gone
  {
    if list != [] {
      var init, last := list[..|list| - 1], list[|list| - 1];
      RestAscends(init, gone);
      assert list == init + [last];
      var rest := Rest(init, gone);
      forall i | 0 <= i < |rest| ensures Before(rest[i].slot, last.slot) {
        assert rest[i] in init;
        var j :| 0 <= j < |init| && list[j] == rest[i];
      }
    }
  }

  /** Removing layers leaves the others in the order they had. */
  lemma RemovingKeepsOrder(stack: Stack, gone: set<Slot>)
    ensures InOrder(stack - gone) == Rest(InOrder(stack), gone)
  {
    InOrderIsOrder(stack);
    InOrderIsOrder(stack - gone);
    RestAscends(InOrder(stack), gone);
    OrderUnique(InOrder(stack - gone), Rest(InOrder(stack), gone));
  }

  lemma {:induction false} RestLayers(list: seq<Stored>, gone: set<Slot>)
    ensures Layers(Rest(list, gone)) == Kept(Layers(list), Stays(list, gone))
  {
    if list != [] {
      var init, last := list[..|list| - 1], list[|list| - 1];
      RestLayers(init, gone);
      assert Layers(list)[..|init|] == Layers(init) && Stays(list, gone)[..|init|] == Stays(init, gone);
      assert Layers(Rest(init, gone) + [last]) == Layers(Rest(init, gone)) + [last.ov];
      assert Rest(init, gone) + [] == Rest(init, gone);
    }
  }

  lemma SlotAt(stack: Stack, i: nat)
    requires i < |InOrder(stack)|
    ensures InOrder(stack)[i].slot in stack && stack[InOrder(stack)[i].slot] == InOrder(stack)[i].ov
  {
    InOrderIsOrder(stack);
    assert InOrder(stack)[i] in InOrder(stack);
  }

  lemma IndexOrder(stack: Stack, i: nat, j: nat)
    requires i < |InOrder(stack)| && j < |InOrder(stack)|
    ensures i < j <==> Before(InOrder(stack)[i].slot, InOrder(stack)[j].slot)
  {
    InOrderIsOrder(stack);
    assert j < i ==> Before(InOrder(stack)[j].slot, InOrder(stack)[i].slot);
  }

  lemma IndexOf(stack: Stack, slot: Slot) returns (i: nat)
    requires slot in stack
    ensures i < |InOrder(stack)| && InOrder(stack)[i] == Stored(slot, stack[slot])
  {
    InOrderIsOrder(stack);
    assert Stored(slot, stack[slot]) in InOrder(stack);
    i :| 0 <= i < |InOrder(stack)| && InOrder(stack)[i] == Stored(slot, stack[slot]);
  }

  lemma DanglesInOrder(stack: Stack, gone: set<Slot>)
    ensures
      var list := InOrder(stack);
      NoneDangles(Layers(list), Stays(list, gone)) <==> NothingDangles(stack, gone)
  {
    var list := InOrder(stack);
    InOrderIsOrder(stack);
    if i: nat, j: nat :| Dangles(Layers(list), Stays(list, gone), i, j) {
      SlotAt(stack, i);
      SlotAt(stack, j);
      assert Before(list[i].slot, list[j].slot) && Narrows(list[j].ov, list[i].ov);
    }
    if !NothingDangles(stack, gone) {
      var g, s :| g in stack && g in gone && s in stack && s !in gone && Before(g, s) && Narrows(stack[s], stack[g]);
      var i := IndexOf(stack, g);
      var j := IndexOf(stack, s);
      IndexOrder(stack, i, j);
      assert Dangles(Layers(list), Stays(list, gone), i, j);
    }
  }

  /** Deleting layers from a stack that resolves leaves one that resolves if and only if no layer that
      stays narrows a field that a layer below it, deleted, had added. */
  lemma DeletionExactly(core: Object_, stack: Stack, gone: set<Slot>)
    requires Resolve(core, stack).Some?
    ensures Resolve(core, stack - gone).Some? <==> NothingDangles(stack, gone)
  {
    var list := InOrder(stack);
    RemovingKeepsOrder(stack, gone);
    InOrderIsOrder(stack);
    RestAscends(list, gone);
    RestLayers(list, gone);
    RemovalExactly(core, Layers(list), Stays(list, gone));
    DanglesInOrder(stack, gone);
  }

  /** Only layers merged after every layer that stays are removed. */
  predicate FromTheTop(stack: Stack, gone: set<Slot>) {
    forall kept, s :: kept in stack && kept !in gone && s in stack && s in gone ==> Before(kept, s)
  }

  /** So deleting from the top is always safe. */
  lemma RemovingTop(core: Object_, stack: Stack, gone: set<Slot>)
    requires Resolve(core, stack).Some? && FromTheTop(stack, gone)
    ensures Resolve(core, stack - gone).Some?
  {
    TopDangles(stack, gone);
    DeletionExactly(core, stack, gone);
  }

  lemma TopDangles(stack: Stack, gone: set<Slot>)
    requires FromTheTop(stack, gone)
    ensures NothingDangles(stack, gone)
  {
  }

  lemma ApplyResolves(core: Object_, stack: Stack, op: Op)
    requires Resolve(core, stack).Some?
    ensures Resolve(core, Apply(core, stack, op)).Some? <==> Safe(stack, op)
  {
    match op
    case Save(_, _) =>
    case Delete(slot) => DeletionExactly(core, stack, {slot});
    case DeleteSource(source) => DeletionExactly(core, stack, OfSource(stack, source));
  }

  ghost predicate AllSafe(core: Object_, stack: Stack, ops: seq<Op>) {
    forall k :: 0 <= k < |ops| ==> Safe(Run(core, stack, ops[..k]), ops[k])
  }

  /** After any run of saves, and of deletions that leave no narrowing behind, the stack resolves. */
  lemma {:induction false} RunResolves(core: Object_, stack: Stack, ops: seq<Op>)
    requires Resolve(core, stack).Some? && AllSafe(core, stack, ops)
    ensures Resolve(core, Run(core, stack, ops)).Some?
    ensures ObjectValid(core) && Sound(core, Resolve(core, Run(core, stack, ops)).value)
  {
    if ops != [] {
      var init := ops[..|ops| - 1];
      forall k | 0 <= k < |init| ensures Safe(Run(core, stack, init[..k]), init[k]) {
        assert init[..k] == ops[..k];
        assert Safe(Run(core, stack, ops[..k]), ops[k]);
      }
      RunResolves(core, stack, init);
      ApplyResolves(core, Run(core, stack, init), ops[|ops| - 1]);
    }
    MergedSound(core, Layers(InOrder(Run(core, stack, ops))));
  }

  // ---- Why the order matters ----

  const COLOUR := Field("colour", Enum, false, false, ["red", "blue"], NoWidget, false, false)
  const PAINT := Layering("Car", [COLOUR], map[], map[])
  const ONLY_RED := Layering("Car", [], map[], map["colour" := ["red"]])

  lemma OneLayer(core: Object_, slot: Slot, ov: Layering)
    requires ObjectValid(core) && ChangesSomething(ov)
    ensures Resolve(core, map[slot := ov]) == MergeOne(Effective(core.fields, core.permissions), ov)
  {
    var stack: Stack := map[slot := ov];
    var list := [Stored(slot, ov)];
    InOrderIsOrder(stack);
    assert IsOrder(list, stack);
    OrderUnique(list, InOrder(stack));
    assert Layers(list) == [ov] && [ov][..0] == [];
    assert AllChange(list);
    assert Merged(core, []) == Some(Effective(core.fields, core.permissions));
  }

  lemma TwoLayers(core: Object_, a: Slot, x: Layering, b: Slot, y: Layering)
    requires ObjectValid(core) && ChangesSomething(x) && ChangesSomething(y) && Before(a, b)
    ensures
      Resolve(core, map[a := x, b := y]) ==
      match MergeOne(Effective(core.fields, core.permissions), x)
      case None => None
      case Some(eff) => MergeOne(eff, y)
  {
    var stack: Stack := map[a := x, b := y];
    var list := [Stored(a, x), Stored(b, y)];
    InOrderIsOrder(stack);
    assert IsOrder(list, stack);
    OrderUnique(list, InOrder(stack));
    assert Layers(list) == [x, y] && [x, y][..1] == [x] && [x][..0] == [];
    assert Merged(core, [x]) == MergeOne(Effective(core.fields, core.permissions), x);
  }

  /** Deleting a plugin layer whose field the tenant narrows is accepted and leaves a stack that no
      longer resolves. */
  lemma DeletingBelowBreaks(core: Object_)
    requires ObjectValid(core) && !HasField(core.fields, "colour")
    ensures
      var plugin, tenant := Slot(PluginLayer, 1), Slot(TenantLayer, 0);
      var stack: Stack := map[plugin := PAINT, tenant := ONLY_RED];
      Resolve(core, stack).Some? && Resolve(core, Apply(core, stack, Delete(plugin))).None?
  {
    var plugin, tenant := Slot(PluginLayer, 1), Slot(TenantLayer, 0);
    var base := Effective(core.fields, core.permissions);
    assert "colour" in ONLY_RED.narrow;
    TwoLayers(core, plugin, PAINT, tenant, ONLY_RED);
    OneLayer(core, tenant, ONLY_RED);
    assert map[plugin := PAINT, tenant := ONLY_RED] - {plugin} == map[tenant := ONLY_RED];
    Painted(base);
    assert "colour" in ONLY_RED.narrow;
    assert !NarrowsWithin(base.fields, ONLY_RED.narrow);
    assert Added(base.fields, []) == Some(base.fields);
  }

  lemma Painted(base: Effective)
    requires !HasField(base.fields, "colour")
    ensures MergeOne(base, PAINT).Some? && MergeOne(MergeOne(base, PAINT).value, ONLY_RED).Some?
    ensures MergeOne(MergeOne(base, PAINT).value, PAINT).None?
  {
    assert [COLOUR][..0] == [] && Added(base.fields, []) == Some(base.fields);
    assert FieldValid(COLOUR);
    var fields := base.fields + [COLOUR.(fromOverlay := true)];
    assert Added(base.fields, [COLOUR]) == Some(fields);
    var eff := MergeOne(base, PAINT).value;
    assert eff.fields == Narrowed(fields, map[]) == fields;
    assert Added(fields, []) == Some(fields);
    assert fields[|base.fields|].name == "colour";
    assert Missing(["red"], ["red", "blue"]) == [];
    assert CanNarrow(fields[|base.fields|], ["red"]);
    assert NarrowsWithin(fields, ONLY_RED.narrow);
  }

  // ---- The store ----

  /** Insert each row after every row it does not precede. */
  method SortOverlays(list: seq<Stored>) returns (r: seq<Stored>)
    requires forall i, j :: 0 <= i < j < |list| ==> list[i].slot != list[j].slot
    ensures Ascending(r) && forall x :: x in r <==> x in list
  {
    r := [];
    for k := 0 to |list|
      invariant Ascending(r) && forall x :: x in r <==> x in list[..k]
    {
      assert list[..k + 1] == list[..k] + [list[k]];
      forall x | x in r ensures x.slot != list[k].slot {
        var i :| 0 <= i < k && list[i] == x;
      }
      r := Insert(r, list[k]);
    }
    assert list[..|list|] == list;
  }

  function Insert(list: seq<Stored>, s: Stored): (r: seq<Stored>)
    requires Ascending(list) && forall x :: x in list ==> x.slot != s.slot
    ensures Ascending(r) && forall x :: x in r <==> x in list || x == s
  {
    if list == [] then [s]
    else
      var init, last := list[..|list| - 1], list[|list| - 1];
      assert list == init + [last] && last in list;
      if Before(last.slot, s.slot) then
        assert forall i :: 0 <= i < |list| ==> list[i] == last || Before(list[i].slot, last.slot);
        list + [s]
      else
        var r := Insert(init, s);
        assert forall x :: x in init ==> Before(x.slot, last.slot);
        r + [last]
  }

  /** Substitute the incoming layer for the one in its slot, so that what is checked is the stack that
      is about to be stored. */
  method ReplaceLayer(stack: Stack, list: seq<Stored>, incoming: Stored) returns (out: seq<Stored>)
    requires list == InOrder(stack)
    ensures out == InOrder(stack[incoming.slot := incoming.ov])
  {
    InOrderIsOrder(stack);
    out := [];
    for k := 0 to |list|
      invariant forall x :: x in out <==> x in list[..k] && x.slot != incoming.slot
      invariant forall i, j :: 0 <= i < j < |out| ==> out[i].slot != out[j].slot
    {
      assert list[..k + 1] == list[..k] + [list[k]];
      forall x | x in list[..k] ensures x.slot != list[k].slot {
        var i :| 0 <= i < k && list[i] == x;
        assert Before(list[i].slot, list[k].slot);
      }
      if list[k].slot == incoming.slot {
        continue;
      }
      forall i | 0 <= i < |out| ensures out[i].slot != list[k].slot {
        assert out[i] in out;
      }
      out := out + [list[k]];
    }
    assert list[..|list|] == list;
    forall i | 0 <= i < |out| ensures out[i].slot != incoming.slot {
      assert out[i] in out;
    }
    out := SortOverlays(out + [incoming]);
    var after := stack[incoming.slot := incoming.ov];
    InOrderIsOrder(after);
    assert IsOrder(out, after);
    OrderUnique(out, InOrder(after));
  }

  /** Each layer adds a field, narrows one or grants an action. */
  predicate NoneEmpty(stack: Stack) {
    forall s :: s in stack ==> |stack[s].addFields| + |stack[s].narrow| + |stack[s].permissions| > 0
  }

  lemma NothingUnchanged(stack: Stack)
    requires IsOrder(InOrder(stack), stack)
    ensures AllChange(InOrder(stack)) <==> NoneEmpty(stack)
  {
    forall s | s in stack ensures Stored(s, stack[s]) in InOrder(stack) {
    }
  }

  class OverlayTable {
    const core: Object_
    var stack: Stack

    constructor (core: Object_)
      ensures this.core == core && stack == map[]
    {
      this.core := core;
      stack := map[];
    }

    /** The stored rows, sorted into merge order. */
    method LoadOverlays(rows: seq<Stored>) returns (list: seq<Stored>)
      requires forall i, j :: 0 <= i < j < |rows| ==> rows[i].slot != rows[j].slot
      requires forall x :: x in rows <==> x.slot in stack && stack[x.slot] == x.ov
      ensures list == InOrder(stack)
    {
      list := SortOverlays(rows);
      InOrderIsOrder(stack);
      OrderUnique(list, InOrder(stack));
    }

    method CheckOverlay(slot: Slot, ov: Layering) returns (ok: bool)
      ensures ok == SaveAllowed(core, stack, slot, ov)
      ensures ok <==>
                && ov.target == core.name
                && NoneEmpty(stack[slot := ov])
                && Merged(core, Layers(InOrder(stack[slot := ov]))).Some?
    {
      InOrderIsOrder(stack[slot := ov]);
      NothingUnchanged(stack[slot := ov]);
      assert slot in stack[slot := ov] && stack[slot := ov][slot] == ov;
      if ov.target != core.name || !ChangesSomething(ov) {
        return false;
      }
      var list := ReplaceLayer(stack, InOrder(stack), Stored(slot, ov));
      var eff: Option<Effective> := None;
      if AllChange(list) {
        eff := Merge(core, Layers(list));
      }
      return eff.Some?;
    }

    /** The write half: it does not validate. */
    method StoreOverlay(slot: Slot, ov: Layering)
      modifies this`stack
      ensures stack == old(stack)[slot := ov]
    {
      stack := stack[slot := ov];
    }

    /** Check, then write; undisturbed in between, a resolvable stack stays resolvable. */
    method SaveOverlay(slot: Slot, ov: Layering) returns (ok: bool)
      modifies this`stack
      ensures ok == SaveAllowed(core, old(stack), slot, ov)
      ensures stack == Apply(core, old(stack), Save(slot, ov))
      ensures Resolve(core, old(stack)).Some? ==> Resolve(core, stack).Some?
    {
      ok := CheckOverlay(slot, ov);
      if ok {
        StoreOverlay(slot, ov);
      }
    }

    method DeleteOverlay(slot: Slot)
      modifies this`stack
      ensures stack == Apply(core, old(stack), Delete(slot)) == old(stack) - {slot}
      ensures Resolve(core, old(stack)).Some? ==> (Resolve(core, stack).Some? <==> Safe(old(stack), Delete(slot)))
    {
      if Resolve(core, stack).Some? {
        ApplyResolves(core, stack, Delete(slot));
      }
      stack := stack - {slot};
    }

    method DeleteOverlaysBySource(source: nat)
      modifies this`stack
      ensures stack == Apply(core, old(stack), DeleteSource(source)) == map s | s in old(stack) && s.source != source :: old(stack)[s]
      ensures Resolve(core, old(stack)).Some? ==> (Resolve(core, stack).Some? <==> Safe(old(stack), DeleteSource(source)))
    {
      if Resolve(core, stack).Some? {
        ApplyResolves(core, stack, DeleteSource(source));
      }
      stack := stack - OfSource(stack, source);
    }
  }
}
