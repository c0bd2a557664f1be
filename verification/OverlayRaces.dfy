/** Saves whose check and write interleave: each layer is checked on a stack without the other. */
module OverlayRaces {
  import opened Schema
  import opened Overlay
  import opened OverlayRemoval
  import opened OverlayAgreement
  import opened OverlayStore
  import opened Wrappers

  // ---- A stored stack, slot by slot ----

  /** Core, or a layer in this slot or below it, declares a field that can be narrowed to the options. */
  ghost predicate GroundedIn(core: Object_, stack: Stack, s: Slot, name: string, options: seq<string>) {
    Declares(core.fields, name, options)
    || exists t :: t in stack && (t == s || Before(t, s)) && Declares(stack[t].addFields, name, options)
  }

  ghost predicate Based(core: Object_, stack: Stack, s: Slot)
    requires s in stack
  {
    && ChangesSomething(stack[s]) && Fresh(core, stack[s])
    && forall name :: name in stack[s].narrow ==> GroundedIn(core, stack, s, name, stack[s].narrow[name])
  }

  ghost predicate AllBased(core: Object_, stack: Stack) {
    forall s :: s in stack ==> Based(core, stack, s)
  }

  ghost predicate AllAgree(stack: Stack) {
    forall s, t :: s in stack && t in stack && Before(s, t) ==> Agree(stack[s], stack[t])
  }

  lemma GroundedUpTo(core: Object_, stack: Stack, k: nat, name: string, options: seq<string>)
    requires k < |InOrder(stack)|
    ensures Grounded(core, Layers(InOrder(stack))[..k + 1], name, options) <==> GroundedIn(core, stack, InOrder(stack)[k].slot, name, options)
  {
    var list := InOrder(stack);
    var layers := Layers(list)[..k + 1];
    InOrderIsOrder(stack);
    if AddsOne(layers, name, options) {
      var i :| 0 <= i < |layers| && Declares(layers[i].addFields, name, options);
      SlotAt(stack, i);
      assert list[i].slot == list[k].slot || Before(list[i].slot, list[k].slot);
    }
    if t :| t in stack && (t == list[k].slot || Before(t, list[k].slot)) && Declares(stack[t].addFields, name, options) {
      var i := IndexOf(stack, t);
      IndexOrder(stack, i, k);
      IndexOrder(stack, k, i);
      assert Declares(layers[i].addFields, name, options);
    }
  }

  lemma StandsInOrder(core: Object_, stack: Stack, k: nat)
    requires k < |InOrder(stack)|
    ensures
      var s := InOrder(stack)[k].slot;
      s in stack && (Stands(core, Layers(InOrder(stack)), k) <==>
        && Fresh(core, stack[s]) && (forall name :: name in stack[s].narrow ==> GroundedIn(core, stack, s, name, stack[s].narrow[name]))
        && (forall t :: t in stack && Before(t, s) ==> Agree(stack[t], stack[s])))
  {
    var list := InOrder(stack);
    var layers, s := Layers(list), list[k].slot;
    SlotAt(stack, k);
    InOrderIsOrder(stack);
    forall name | name in stack[s].narrow
      ensures Grounded(core, layers[..k + 1], name, stack[s].narrow[name]) <==> GroundedIn(core, stack, s, name, stack[s].narrow[name])
    {
      GroundedUpTo(core, stack, k, name, stack[s].narrow[name]);
    }
    BelowInOrder(stack, k);
  }

  lemma BelowInOrder(stack: Stack, k: nat)
    requires k < |InOrder(stack)|
    ensures
      var s := InOrder(stack)[k].slot;
      s in stack && ((forall i :: 0 <= i < k ==> Agree(Layers(InOrder(stack))[i], Layers(InOrder(stack))[k]))
                     <==> forall t :: t in stack && Before(t, s) ==> Agree(stack[t], stack[s]))
  {
    var list := InOrder(stack);
    var layers, s := Layers(list), list[k].slot;
    SlotAt(stack, k);
    InOrderIsOrder(stack);
    if forall i :: 0 <= i < k ==> Agree(layers[i], layers[k]) {
      forall t | t in stack && Before(t, s) ensures Agree(stack[t], stack[s]) {
        var i := IndexOf(stack, t);
        IndexOrder(stack, i, k);
        assert Agree(layers[i], layers[k]);
      }
    }
    if forall t :: t in stack && Before(t, s) ==> Agree(stack[t], stack[s]) {
      forall i | 0 <= i < k ensures Agree(layers[i], layers[k]) {
        SlotAt(stack, i);
        assert Before(list[i].slot, s);
      }
    }
  }

  lemma ChangesInOrder(stack: Stack)
    ensures AllChange(InOrder(stack)) <==> forall s :: s in stack ==> ChangesSomething(stack[s])
  {
    InOrderIsOrder(stack);
    if AllChange(InOrder(stack)) {
      forall s | s in stack ensures ChangesSomething(stack[s]) {
        assert Stored(s, stack[s]) in InOrder(stack);
      }
    }
  }

  lemma StandInOrder(core: Object_, stack: Stack)
    requires forall s :: s in stack ==> ChangesSomething(stack[s])
    ensures AllStand(core, Layers(InOrder(stack))) <==> AllBased(core, stack) && AllAgree(stack)
  {
    var layers := Layers(InOrder(stack));
    if AllStand(core, layers) {
      forall s | s in stack ensures Based(core, stack, s) && forall t :: t in stack && Before(t, s) ==> Agree(stack[t], stack[s]) {
        var k := IndexOf(stack, s);
        assert Stands(core, layers, k);
        StandsInOrder(core, stack, k);
      }
    }
    if AllBased(core, stack) && AllAgree(stack) {
      forall k | 0 <= k < |layers| ensures Stands(core, layers, k) {
        StandsInOrder(core, stack, k);
        assert Based(core, stack, InOrder(stack)[k].slot);
      }
    }
  }

  /** A stored stack resolves if and only if core is valid, each layer changes something and stands on
      core and the layers below it, and each agrees with every layer below it. */
  lemma ResolvesExactly(core: Object_, stack: Stack)
    ensures Resolve(core, stack).Some? <==> ObjectValid(core) && AllBased(core, stack) && AllAgree(stack)
  {
    MergesExactly(core, Layers(InOrder(stack)));
    ChangesInOrder(stack);
    if forall s :: s in stack ==> ChangesSomething(stack[s]) {
      StandInOrder(core, stack);
    } else {
      var s :| s in stack && !ChangesSomething(stack[s]);
      assert !Based(core, stack, s);
    }
  }

  // ---- Two interleaved saves ----

  /** A layer that one of the two saves replaces had added this field. */
  ghost predicate ReplacedAdds(stack: Stack, i: Slot, j: Slot, name: string) {
    (i in stack && HasField(stack[i].addFields, name)) || (j in stack && HasField(stack[j].addFields, name))
  }

  /** No layer is left narrowing a field that only a replaced layer had added. */
  ghost predicate NoneLost(core: Object_, stack: Stack, i: Slot, x: Layering, j: Slot, y: Layering) {
    var both := stack[i := x][j := y];
    forall s, name :: s in both && name in both[s].narrow && ReplacedAdds(stack, i, j, name) ==>
      GroundedIn(core, both, s, name, both[s].narrow[name])
  }

  /** A layer that no save replaces narrows on the stack with both what it narrowed on the stack checked. */
  lemma StillGrounded(core: Object_, stack: Stack, i: Slot, x: Layering, j: Slot, y: Layering, s: Slot, name: string)
    requires i != j && s in stack[i := x][j := y] && name in stack[i := x][j := y][s].narrow && !ReplacedAdds(stack, i, j, name)
    requires if s == j then Based(core, stack[j := y], s) else s in stack[i := x] && Based(core, stack[i := x], s)
    ensures GroundedIn(core, stack[i := x][j := y], s, name, stack[i := x][j := y][s].narrow[name])
  {
    var both, checked := stack[i := x][j := y], if s == j then stack[j := y] else stack[i := x];
    var options := both[s].narrow[name];
    assert checked[s] == both[s] && GroundedIn(core, checked, s, name, options);
    if !Declares(core.fields, name, options) {
      var t :| t in checked && (t == s || Before(t, s)) && Declares(checked[t].addFields, name, options);
      DeclaresHas(checked[t].addFields, name, options);
      assert both[t] == checked[t];
    }
  }

  lemma BothBased(core: Object_, stack: Stack, i: Slot, x: Layering, j: Slot, y: Layering)
    requires i != j && AllBased(core, stack[i := x]) && AllBased(core, stack[j := y])
    ensures AllBased(core, stack[i := x][j := y]) <==> NoneLost(core, stack, i, x, j, y)
  {
    var both := stack[i := x][j := y];
    if NoneLost(core, stack, i, x, j, y) {
      forall s | s in both ensures Based(core, both, s) {
        assert if s == j then Based(core, stack[j := y], s) else s in stack[i := x] && Based(core, stack[i := x], s);
        forall name | name in both[s].narrow ensures GroundedIn(core, both, s, name, both[s].narrow[name]) {
          if !ReplacedAdds(stack, i, j, name) { StillGrounded(core, stack, i, x, j, y, s, name); }
        }
      }
    }
    if AllBased(core, both) {
      forall s, name | s in both && name in both[s].narrow ensures GroundedIn(core, both, s, name, both[s].narrow[name]) {
        assert Based(core, both, s);
      }
    }
  }

  lemma BothAgree(stack: Stack, i: Slot, x: Layering, j: Slot, y: Layering)
    requires Before(i, j) && AllAgree(stack[i := x]) && AllAgree(stack[j := y])
    ensures AllAgree(stack[i := x][j := y]) <==> Agree(x, y)
  {
    var both := stack[i := x][j := y];
    if Agree(x, y) {
      forall s, t | s in both && t in both && Before(s, t) ensures Agree(both[s], both[t]) {
        if s != j && t != j {
          assert s in stack[i := x] && t in stack[i := x];
        } else if s != i && t != i {
          assert s in stack[j := y] && t in stack[j := y];
        }
      }
    }
    assert i in both && j in both && both[i] == x && both[j] == y;
  }

  /** Two saves, each legal on the stack it was checked against, leave one that resolves if and only if
      the upper one agrees with the lower one and no layer loses a field it narrows. */
  lemma InterleavedExactly(core: Object_, stack: Stack, i: Slot, x: Layering, j: Slot, y: Layering)
    requires Before(i, j)
    requires SaveAllowed(core, stack, i, x) && SaveAllowed(core, stack, j, y)
    ensures Resolve(core, stack[i := x][j := y]).Some? <==> Agree(x, y) && NoneLost(core, stack, i, x, j, y)
  {
    ResolvesExactly(core, stack[i := x]);
    ResolvesExactly(core, stack[j := y]);
    ResolvesExactly(core, stack[i := x][j := y]);
    BothBased(core, stack, i, x, j, y);
    BothAgree(stack, i, x, j, y);
  }

  /** Where neither slot was taken, agreement is all it takes. */
  lemma InterleavedNew(core: Object_, stack: Stack, i: Slot, x: Layering, j: Slot, y: Layering)
    requires Before(i, j) && i !in stack && j !in stack
    requires SaveAllowed(core, stack, i, x) && SaveAllowed(core, stack, j, y)
    ensures Resolve(core, stack[i := x][j := y]).Some? <==> Agree(x, y)
  {
    InterleavedExactly(core, stack, i, x, j, y);
  }

  /** The lower save still declares every field of the layer it replaces that the upper save narrows. */
  ghost predicate Redeclares(stack: Stack, i: Slot, x: Layering, y: Layering) {
    i in stack ==> forall name :: name in y.narrow && HasField(stack[i].addFields, name) ==> Declares(x.addFields, name, y.narrow[name])
  }

  lemma OnlyOneAdds(core: Object_, stack: Stack, s: Slot, t: Slot, name: string)
    requires AllBased(core, stack) && AllAgree(stack) && s in stack && HasField(stack[s].addFields, name)
    ensures !HasField(core.fields, name)
    ensures t in stack && t != s ==> !HasField(stack[t].addFields, name)
  {
    assert Based(core, stack, s);
    var k := FieldOf(stack[s].addFields, name);
    assert t in stack && t != s ==> Before(s, t) || Before(t, s);
  }

  lemma LostOnlyAbove(core: Object_, stack: Stack, i: Slot, x: Layering, j: Slot, y: Layering, s: Slot, name: string)
    requires Before(i, j) && AllBased(core, stack) && AllAgree(stack)
    requires AllBased(core, stack[i := x]) && AllBased(core, stack[j := y])
    requires s in stack[i := x][j := y] && s != j && name in stack[i := x][j := y][s].narrow
    ensures GroundedIn(core, stack[i := x][j := y], s, name, stack[i := x][j := y][s].narrow[name])
  {
    var a, b, both := stack[i := x], stack[j := y], stack[i := x][j := y];
    var options := both[s].narrow[name];
    assert s in a && a[s] == both[s] && Based(core, a, s);
    if !Declares(core.fields, name, options) {
      var t :| t in a && (t == s || Before(t, s)) && Declares(a[t].addFields, name, options);
      if t != j {
        assert both[t] == a[t];
      } else {
        assert s != i && s in b && b[s] == both[s] && Based(core, b, s);
        var u :| u in b && (u == s || Before(u, s)) && Declares(b[u].addFields, name, options);
        DeclaresHas(a[t].addFields, name, options);
        DeclaresHas(b[u].addFields, name, options);
        assert stack[j] == a[j];
        OnlyOneAdds(core, stack, j, u, name);
        assert u != i;
        assert both[u] == b[u];
      }
    }
  }

  lemma UpperGrounded(core: Object_, stack: Stack, i: Slot, x: Layering, j: Slot, y: Layering, name: string)
    requires Before(i, j) && AllBased(core, stack[j := y]) && AllAgree(stack[j := y])
    requires name in y.narrow && i in stack && HasField(stack[i].addFields, name)
    ensures GroundedIn(core, stack[i := x][j := y], j, name, y.narrow[name]) <==> Declares(x.addFields, name, y.narrow[name])
  {
    var b, both, options := stack[j := y], stack[i := x][j := y], y.narrow[name];
    assert b[i] == stack[i];
    OnlyOneAdds(core, b, i, j, name);
    if GroundedIn(core, both, j, name, options) {
      if Declares(core.fields, name, options) { DeclaresHas(core.fields, name, options); }
      var t :| t in both && (t == j || Before(t, j)) && Declares(both[t].addFields, name, options);
      DeclaresHas(both[t].addFields, name, options);
      OnlyOneAdds(core, b, i, t, name);
      if t != i { assert false; }
    }
    if Declares(x.addFields, name, options) { assert both[i] == x; }
  }

  /** Checked against a stack that resolves, two saves leave one that resolves if and only if they agree
      and the lower one still declares what the upper one narrows of the layer it replaces. */
  lemma InterleavedSaves(core: Object_, stack: Stack, i: Slot, x: Layering, j: Slot, y: Layering)
    requires Before(i, j) && Resolve(core, stack).Some?
    requires SaveAllowed(core, stack, i, x) && SaveAllowed(core, stack, j, y)
    ensures Resolve(core, stack[i := x][j := y]).Some? <==> Agree(x, y) && Redeclares(stack, i, x, y)
  {
    var both := stack[i := x][j := y];
    InterleavedExactly(core, stack, i, x, j, y);
    ResolvesExactly(core, stack);
    ResolvesExactly(core, stack[i := x]);
    ResolvesExactly(core, stack[j := y]);
    LostExactly(core, stack, i, x, j, y);
  }

  lemma LostExactly(core: Object_, stack: Stack, i: Slot, x: Layering, j: Slot, y: Layering)
    requires Before(i, j) && AllBased(core, stack) && AllAgree(stack)
    requires AllBased(core, stack[i := x]) && AllBased(core, stack[j := y]) && AllAgree(stack[j := y])
    ensures NoneLost(core, stack, i, x, j, y) <==> Redeclares(stack, i, x, y)
  {
    var both := stack[i := x][j := y];
    assert j in both && both[j] == y;
    if Redeclares(stack, i, x, y) {
      forall s, name | s in both && name in both[s].narrow && ReplacedAdds(stack, i, j, name)
        ensures GroundedIn(core, both, s, name, both[s].narrow[name])
      {
        if s != j {
          LostOnlyAbove(core, stack, i, x, j, y, s, name);
        } else if i in stack && HasField(stack[i].addFields, name) {
          UpperGrounded(core, stack, i, x, j, y, name);
        } else {
          UpperKeeps(core, stack, i, x, j, y, name);
        }
      }
    }
    if NoneLost(core, stack, i, x, j, y) && i in stack {
      forall name | name in y.narrow && HasField(stack[i].addFields, name) ensures Declares(x.addFields, name, y.narrow[name]) {
        assert ReplacedAdds(stack, i, j, name);
        UpperGrounded(core, stack, i, x, j, y, name);
      }
    }
  }

  lemma UpperKeeps(core: Object_, stack: Stack, i: Slot, x: Layering, j: Slot, y: Layering, name: string)
    requires i != j && AllBased(core, stack[j := y]) && name in y.narrow && !(i in stack && HasField(stack[i].addFields, name))
    ensures GroundedIn(core, stack[i := x][j := y], j, name, y.narrow[name])
  {
    var b, both, options := stack[j := y], stack[i := x][j := y], y.narrow[name];
    assert j in b && b[j] == y && Based(core, b, j);
    if !Declares(core.fields, name, options) {
      var t :| t in b && (t == j || Before(t, j)) && Declares(b[t].addFields, name, options);
      DeclaresHas(b[t].addFields, name, options);
      assert both[t] == b[t];
    }
  }

  /** Of any two different slots one is below the other, and the order of the writes does not matter; two
      saves of one slot are harmless, for the later one was checked in place of the earlier. */
  lemma EveryInterleaving(core: Object_, stack: Stack, i: Slot, x: Layering, j: Slot, y: Layering)
    requires SaveAllowed(core, stack, i, x) && SaveAllowed(core, stack, j, y)
    ensures i == j ==> Resolve(core, stack[i := x][j := y]).Some?
    ensures i != j ==> (Before(i, j) || Before(j, i)) && stack[i := x][j := y] == stack[j := y][i := x]
    ensures i != j && Resolve(core, stack).Some? ==>
              (Resolve(core, stack[i := x][j := y]).Some? <==>
               if Before(i, j) then Agree(x, y) && Redeclares(stack, i, x, y) else Agree(y, x) && Redeclares(stack, j, y, x))
  {
    if i == j {
      assert stack[i := x][j := y] == stack[j := y];
    } else {
      assert stack[i := x][j := y] == stack[j := y][i := x];
      if Resolve(core, stack).Some? {
        if Before(i, j) { InterleavedSaves(core, stack, i, x, j, y); } else { InterleavedSaves(core, stack, j, y, i, x); }
      }
    }
  }

  /** Whatever the rest of the stack is, two layers that add one name never resolve together. */
  lemma SameNameBreaks(core: Object_, stack: Stack, a: Slot, x: Layering, b: Slot, y: Layering, name: string)
    requires a != b && HasField(x.addFields, name) && HasField(y.addFields, name)
    ensures Resolve(core, stack[a := x][b := y]).None?
  {
    var both := stack[a := x][b := y];
    ResolvesExactly(core, both);
    assert a in both && b in both && both[a] == x && both[b] == y;
    assert Before(a, b) || Before(b, a);
  }

  /** Two plugins that add the same field: each save is legal on the empty stack, the stack is not. */
  lemma InterleavedSavesBreak(core: Object_)
    requires ObjectValid(core) && core.name == "Car" && !HasField(core.fields, "colour")
    ensures
      var a, b := Slot(PluginLayer, 1), Slot(PluginLayer, 2);
      && SaveAllowed(core, map[], a, PAINT) && SaveAllowed(core, map[], b, PAINT)
      && Resolve(core, map[a := PAINT, b := PAINT]).None?
  {
    var a, b := Slot(PluginLayer, 1), Slot(PluginLayer, 2);
    Painted(Effective(core.fields, core.permissions));
    OneLayer(core, a, PAINT);
    OneLayer(core, b, PAINT);
    assert PAINT.addFields[0].name == "colour";
    SameNameBreaks(core, map[], a, PAINT, b, PAINT, "colour");
    var empty: Stack := map[];
    assert empty[a := PAINT][b := PAINT] == map[a := PAINT, b := PAINT];
  }
}
