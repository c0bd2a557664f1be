/** Merging a stack of layers with some of them taken out. */
module OverlayRemoval {
  import opened Schema
  import opened Overlay
  import opened Wrappers

  // ---- What adding fields does ----

  function Marked(add: seq<Field>): (r: seq<Field>)
    ensures |r| == |add| && forall i :: 0 <= i < |r| ==> r[i] == add[i].(fromOverlay := true)
  {
    seq(|add|, i requires 0 <= i < |add| => add[i].(fromOverlay := true))
  }

  ghost predicate Fits(fields: seq<Field>, add: seq<Field>) {
    DistinctNames(add) && forall i :: 0 <= i < |add| ==> FieldValid(add[i]) && !HasField(fields, add[i].name)
  }

  lemma HasFieldConcat(a: seq<Field>, b: seq<Field>, name: string)
    ensures HasField(a + b, name) <==> HasField(a, name) || HasField(b, name)
  {
    if HasField(a, name) {
      var i :| 0 <= i < |a| && a[i].name == name;
      assert (a + b)[i].name == name;
    }
    if HasField(b, name) {
      var i :| 0 <= i < |b| && b[i].name == name;
      assert (a + b)[|a| + i].name == name;
    }
    if HasField(a + b, name) {
      var i :| 0 <= i < |a + b| && (a + b)[i].name == name;
      if i < |a| { assert a[i].name == name; } else { assert b[i - |a|].name == name; }
    }
  }

  lemma HasMarked(add: seq<Field>, name: string)
    ensures HasField(Marked(add), name) <==> HasField(add, name)
  {
    if HasField(add, name) {
      var i :| 0 <= i < |add| && add[i].name == name;
      assert Marked(add)[i].name == name;
    }
  }

  lemma FitsNext(fields: seq<Field>, init: seq<Field>, f: Field)
    ensures Fits(fields, init + [f]) <==>
            Fits(fields, init) && FieldValid(f) && !HasField(fields, f.name) && !HasField(init, f.name)
  {
    var add := init + [f];
    assert forall i :: 0 <= i < |init| ==> add[i] == init[i];
    assert add[|init|] == f;
    if DistinctNames(init) { NewName(init, f); }
  }

  /** Fields are added exactly when they are valid and new, and then come after the others. */
  lemma {:induction false} AddedExactly(fields: seq<Field>, add: seq<Field>)
    ensures Added(fields, add) == if Fits(fields, add) then Some(fields + Marked(add)) else None
  {
    if add == [] {
      assert fields + Marked(add) == fields;
    } else {
      var init, f := add[..|add| - 1], add[|add| - 1];
      AddedExactly(fields, init);
      assert add == init + [f];
      FitsNext(fields, init, f);
      HasFieldConcat(fields, Marked(init), f.name);
      HasMarked(init, f.name);
      assert (fields + Marked(init)) + [f.(fromOverlay := true)] == fields + Marked(add);
    }
  }

  lemma NewName(init: seq<Field>, f: Field)
    requires DistinctNames(init)
    ensures DistinctNames(init + [f]) <==> !HasField(init, f.name)
  {
    if HasField(init, f.name) {
      var i :| 0 <= i < |init| && init[i].name == f.name;
      assert (init + [f])[i].name == (init + [f])[|init|].name;
    }
  }

  // ---- A stack and the same stack without some layers ----

  /** `f` is `g` before it was narrowed as far. */
  predicate Wider(f: Field, g: Field) {
    f.name == g.name && f.kind == g.kind && Within(g.options, f.options)
  }

  ghost predicate HasWider(fields: seq<Field>, f: Field) {
    exists i :: 0 <= i < |fields| && Wider(f, fields[i])
  }

  /** `part` is what `full` is without the layers that added the names in `gone`. */
  ghost predicate Without(full: Effective, part: Effective, gone: set<string>) {
    && DistinctNames(full.fields) && DistinctNames(part.fields)
    && (forall j :: 0 <= j < |part.fields| ==> HasWider(full.fields, part.fields[j]))
    && (forall name :: HasField(part.fields, name) <==> HasField(full.fields, name) && name !in gone)
    && (forall name :: name in gone ==> HasField(full.fields, name))
    && (forall action, role :: role in RolesOf(part.permissions, action) ==> role in RolesOf(full.permissions, action))
  }

  predicate Touches(ov: Layering, gone: set<string>) {
    exists name :: name in ov.narrow && name in gone
  }

  lemma WiderNarrows(f: Field, g: Field, options: seq<string>)
    requires Wider(f, g) && CanNarrow(g, options)
    ensures CanNarrow(f, options)
  {
  }

  lemma FieldOf(fields: seq<Field>, name: string) returns (i: nat)
    requires HasField(fields, name)
    ensures i < |fields| && fields[i].name == name
  {
    i :| 0 <= i < |fields| && fields[i].name == name;
  }

  /** A layer that stays adds the same fields to both stacks. */
  lemma AddToBoth(full: Effective, part: Effective, gone: set<string>, ov: Layering)
    requires Without(full, part, gone) && Added(full.fields, ov.addFields).Some?
    ensures
      && Added(part.fields, ov.addFields).Some?
      && Without(full.(fields := Added(full.fields, ov.addFields).value), part.(fields := Added(part.fields, ov.addFields).value), gone)
  {
    AddedExactly(full.fields, ov.addFields);
    AddedExactly(part.fields, ov.addFields);
    var more := Marked(ov.addFields);
    AddedFields(full.fields, ov.addFields);
    AddedFields(part.fields, ov.addFields);
    var full', part' := full.fields + more, part.fields + more;
    forall j | 0 <= j < |part'| ensures HasWider(full', part'[j]) {
      if j < |part.fields| {
        var i :| 0 <= i < |full.fields| && Wider(part.fields[j], full.fields[i]);
        assert Wider(part'[j], full'[i]);
      } else {
        assert Wider(part'[j], full'[|full.fields| + j - |part.fields|]);
      }
    }
    forall name ensures HasField(part', name) <==> HasField(full', name) && name !in gone
      ensures name in gone ==> HasField(full', name)
    {
      HasFieldConcat(full.fields, more, name);
      HasFieldConcat(part.fields, more, name);
      HasMarked(ov.addFields, name);
    }
  }

  lemma HasNarrowed(fields: seq<Field>, narrow: map<string, seq<string>>, name: string)
    ensures HasField(Narrowed(fields, narrow), name) <==> HasField(fields, name)
  {
    if HasField(fields, name) {
      var i := FieldOf(fields, name);
      assert Narrowed(fields, narrow)[i].name == name;
    }
    if HasField(Narrowed(fields, narrow), name) {
      var i := FieldOf(Narrowed(fields, narrow), name);
      assert fields[i].name == name;
    }
  }

  /** It can narrow the smaller stack's fields exactly when it narrows none that is gone. */
  lemma NarrowBoth(full: Effective, part: Effective, gone: set<string>, ov: Layering)
    requires Without(full, part, gone) && NarrowsWithin(full.fields, ov.narrow)
    ensures NarrowsWithin(part.fields, ov.narrow) <==> !Touches(ov, gone)
  {
    forall name | name in ov.narrow
      ensures (exists j :: 0 <= j < |part.fields| && part.fields[j].name == name && CanNarrow(part.fields[j], ov.narrow[name]))
              <==> name !in gone
    {
      var i :| 0 <= i < |full.fields| && full.fields[i].name == name && CanNarrow(full.fields[i], ov.narrow[name]);
      if name in gone {
        assert !HasField(part.fields, name);
      } else {
        assert HasField(part.fields, name);
        var j := FieldOf(part.fields, name);
        var k :| 0 <= k < |full.fields| && Wider(part.fields[j], full.fields[k]);
        assert k == i;
        WiderNarrows(part.fields[j], full.fields[i], ov.narrow[name]);
      }
    }
  }

  lemma NarrowedWithout(full: Effective, part: Effective, gone: set<string>, narrow: map<string, seq<string>>)
    requires Without(full, part, gone)
    ensures Without(full.(fields := Narrowed(full.fields, narrow)), part.(fields := Narrowed(part.fields, narrow)), gone)
  {
    var full', part' := Narrowed(full.fields, narrow), Narrowed(part.fields, narrow);
    forall j | 0 <= j < |part'| ensures HasWider(full', part'[j]) {
      var i :| 0 <= i < |full.fields| && Wider(part.fields[j], full.fields[i]);
      assert Wider(part'[j], full'[i]);
    }
    forall name ensures HasField(part', name) <==> HasField(full', name) && name !in gone
      ensures name in gone ==> HasField(full', name)
    {
      HasNarrowed(full.fields, narrow, name);
      HasNarrowed(part.fields, narrow, name);
    }
  }

  lemma KeptLayer(full: Effective, part: Effective, gone: set<string>, ov: Layering)
    requires Without(full, part, gone) && MergeOne(full, ov).Some?
    ensures MergeOne(part, ov).Some? <==> !Touches(ov, gone)
    ensures MergeOne(part, ov).Some? ==> Without(MergeOne(full, ov).value, MergeOne(part, ov).value, gone)
  {
    AddToBoth(full, part, gone, ov);
    var full1 := full.(fields := Added(full.fields, ov.addFields).value);
    var part1 := part.(fields := Added(part.fields, ov.addFields).value);
    NarrowBoth(full1, part1, gone, ov);
    NarrowedWithout(full1, part1, gone, ov.narrow);
    forall action | action in ov.permissions ensures Superset(ov.permissions[action], RolesOf(part.permissions, action)) {
      assert Superset(ov.permissions[action], RolesOf(full.permissions, action));
    }
    forall action, role | role in RolesOf(part.permissions + ov.permissions, action)
      ensures role in RolesOf(full.permissions + ov.permissions, action)
    {
      if action !in ov.permissions { assert role in RolesOf(part.permissions, action); }
    }
  }

  function NamesOf(fields: seq<Field>): (r: set<string>)
    ensures forall name :: name in r <==> HasField(fields, name)
  {
    set i | 0 <= i < |fields| :: fields[i].name
  }

  /** The fields of `before`, narrowed at most, come first. */
  ghost predicate StartsWith(fields: seq<Field>, before: seq<Field>) {
    |before| <= |fields| && forall i :: 0 <= i < |before| ==> Wider(before[i], fields[i])
  }

  lemma NarrowedStarts(before: seq<Field>, more: seq<Field>, narrow: map<string, seq<string>>)
    requires DistinctNames(before + more) && NarrowsWithin(before + more, narrow)
    ensures DistinctNames(Narrowed(before + more, narrow)) && StartsWith(Narrowed(before + more, narrow), before)
  {
    forall i | 0 <= i < |before| ensures Wider(before[i], Narrowed(before + more, narrow)[i]) {
      NarrowedWithin(before + more, narrow, i);
      assert (before + more)[i] == before[i];
    }
  }

  /** A layer leaves the fields it found, narrowed at most, then its own. */
  lemma LeftFields(eff: Effective, ov: Layering)
    requires DistinctNames(eff.fields) && MergeOne(eff, ov).Some?
    ensures DistinctNames(MergeOne(eff, ov).value.fields) && StartsWith(MergeOne(eff, ov).value.fields, eff.fields)
  {
    AddedExactly(eff.fields, ov.addFields);
    AddedFields(eff.fields, ov.addFields);
    NarrowedStarts(eff.fields, Marked(ov.addFields), ov.narrow);
  }

  lemma LeftNames(eff: Effective, ov: Layering, name: string)
    requires MergeOne(eff, ov).Some?
    ensures HasField(MergeOne(eff, ov).value.fields, name) <==> HasField(eff.fields, name) || HasField(ov.addFields, name)
    ensures !(HasField(eff.fields, name) && HasField(ov.addFields, name))
  {
    AddedExactly(eff.fields, ov.addFields);
    HasNarrowed(eff.fields + Marked(ov.addFields), ov.narrow, name);
    HasFieldConcat(eff.fields, Marked(ov.addFields), name);
    HasMarked(ov.addFields, name);
    if HasField(ov.addFields, name) {
      var i := FieldOf(ov.addFields, name);
    }
  }

  lemma WiderThrough(full: seq<Field>, full': seq<Field>, f: Field)
    requires HasWider(full, f) && StartsWith(full', full)
    ensures HasWider(full', f)
  {
    var i :| 0 <= i < |full| && Wider(f, full[i]);
    assert Wider(full[i], full'[i]);
    assert Wider(f, full'[i]);
  }

  lemma LeftRoles(eff: Effective, ov: Layering, action: string, role: string)
    requires MergeOne(eff, ov).Some? && role in RolesOf(eff.permissions, action)
    ensures role in RolesOf(MergeOne(eff, ov).value.permissions, action)
  {
    if action in ov.permissions { assert Superset(ov.permissions[action], RolesOf(eff.permissions, action)); }
  }

  lemma RemovedLayer(full: Effective, part: Effective, gone: set<string>, ov: Layering)
    requires Without(full, part, gone) && MergeOne(full, ov).Some?
    ensures Without(MergeOne(full, ov).value, part, gone + NamesOf(ov.addFields))
  {
    var full' := MergeOne(full, ov).value;
    LeftFields(full, ov);
    forall name ensures HasField(full'.fields, name) <==> HasField(full.fields, name) || HasField(ov.addFields, name)
      ensures !(HasField(full.fields, name) && HasField(ov.addFields, name))
    {
      LeftNames(full, ov, name);
    }
    forall j | 0 <= j < |part.fields| ensures HasWider(full'.fields, part.fields[j]) {
      WiderThrough(full.fields, full'.fields, part.fields[j]);
    }
    forall action, role | role in RolesOf(part.permissions, action) ensures role in RolesOf(full'.permissions, action) {
      LeftRoles(full, ov, action, role);
    }
  }

  lemma NarrowedWithin(fields: seq<Field>, narrow: map<string, seq<string>>, i: nat)
    requires DistinctNames(fields) && NarrowsWithin(fields, narrow) && i < |fields|
    ensures Within(Narrowed(fields, narrow)[i].options, fields[i].options) && Narrowed(fields, narrow)[i].kind == fields[i].kind
  {
    if fields[i].name in narrow {
      var j :| 0 <= j < |fields| && fields[j].name == fields[i].name && CanNarrow(fields[j], narrow[fields[i].name]);
      assert i == j;
    }
  }

  // ---- The whole stack ----

  function Kept(list: seq<Layering>, keep: seq<bool>): seq<Layering>
    requires |keep| == |list|
  {
    if list == [] then []
    else
      var k := |list| - 1;
      Kept(list[..k], keep[..k]) + (if keep[k] then [list[k]] else [])
  }

  /** The names that the layers taken out had added. */
  function Gone(list: seq<Layering>, keep: seq<bool>): set<string>
    requires |keep| == |list|
  {
    if list == [] then {}
    else
      var k := |list| - 1;
      Gone(list[..k], keep[..k]) + (if keep[k] then {} else NamesOf(list[k].addFields))
  }

  lemma {:induction false} GoneNames(list: seq<Layering>, keep: seq<bool>, name: string)
    requires |keep| == |list|
    ensures name in Gone(list, keep) <==> exists i :: 0 <= i < |list| && !keep[i] && HasField(list[i].addFields, name)
  {
    if list != [] {
      var k := |list| - 1;
      GoneNames(list[..k], keep[..k], name);
      assert forall i :: 0 <= i < k ==> list[..k][i] == list[i] && keep[..k][i] == keep[i];
    }
  }

  /** A layer that stays, narrowing a field of a layer below it that is taken out. */
  predicate Dangles(list: seq<Layering>, keep: seq<bool>, i: nat, j: nat)
    requires |keep| == |list|
  {
    i < j < |list| && !keep[i] && keep[j] && exists name :: name in list[j].narrow && HasField(list[i].addFields, name)
  }

  ghost predicate NoneDangles(list: seq<Layering>, keep: seq<bool>)
    requires |keep| == |list|
  {
    forall i: nat, j: nat :: !Dangles(list, keep, i, j)
  }

  lemma DanglesLast(list: seq<Layering>, keep: seq<bool>)
    requires |keep| == |list| && list != []
    ensures
      var k := |list| - 1;
      NoneDangles(list, keep) <==> NoneDangles(list[..k], keep[..k]) && !(keep[k] && Touches(list[k], Gone(list[..k], keep[..k])))
  {
    var k := |list| - 1;
    var init, kept := list[..k], keep[..k];
    forall i: nat, j: nat | j < k ensures Dangles(list, keep, i, j) <==> Dangles(init, kept, i, j) {
    }
    forall name ensures name in Gone(init, kept) <==> exists i :: 0 <= i < k && !keep[i] && HasField(list[i].addFields, name) {
      GoneNames(init, kept, name);
      if i: int :| 0 <= i < k && !keep[i] && HasField(list[i].addFields, name) {
        assert !kept[i] && HasField(init[i].addFields, name);
      }
    }
    if keep[k] && Touches(list[k], Gone(init, kept)) {
      var name :| name in list[k].narrow && name in Gone(init, kept);
      var i :| 0 <= i < k && !keep[i] && HasField(list[i].addFields, name);
      assert Dangles(list, keep, i, k);
    }
    if i: nat, j: nat :| Dangles(list, keep, i, j) && j == k {
      var name :| name in list[j].narrow && HasField(list[i].addFields, name);
      assert name in Gone(init, kept);
    }
    if i: nat, j: nat :| Dangles(init, kept, i, j) {
      assert Dangles(list, keep, i, j);
    }
  }

  /** Taking layers out of a stack that merges leaves one that merges if and only if no layer that stays
      narrows a field that a layer below it, taken out, had added. */
  lemma {:induction false} RemovalExactly(core: Object_, list: seq<Layering>, keep: seq<bool>)
    requires |keep| == |list| && Merged(core, list).Some?
    ensures Merged(core, Kept(list, keep)).Some? <==> NoneDangles(list, keep)
    ensures Merged(core, Kept(list, keep)).Some? ==>
              Without(Merged(core, list).value, Merged(core, Kept(list, keep)).value, Gone(list, keep))
  {
    if list == [] {
      MergedSound(core, list);
      forall j | 0 <= j < |core.fields| ensures HasWider(core.fields, core.fields[j]) {
        assert Wider(core.fields[j], core.fields[j]);
      }
    } else {
      var k := |list| - 1;
      var init, kept := list[..k], keep[..k];
      RemovalExactly(core, init, kept);
      DanglesLast(list, keep);
      var full := Merged(core, init).value;
      var part := Kept(init, kept);
      if keep[k] {
        assert (part + [list[k]])[..|part|] == part;
        if Merged(core, part).Some? {
          KeptLayer(full, Merged(core, part).value, Gone(init, kept), list[k]);
        }
      } else if Merged(core, part).Some? {
        assert part + [] == part;
        RemovedLayer(full, Merged(core, part).value, Gone(init, kept), list[k]);
      } else {
        assert part + [] == part;
      }
    }
  }

  // ---- Two layers that add one name ----

  lemma {:induction false} AddedOnce(core: Object_, list: seq<Layering>, j: nat, name: string)
    requires Merged(core, list).Some? && j < |list| && HasField(list[j].addFields, name)
    ensures HasField(Merged(core, list).value.fields, name) && !HasField(core.fields, name)
    ensures forall i :: 0 <= i < |list| && i != j ==> !HasField(list[i].addFields, name)
  {
    var k := |list| - 1;
    var init := list[..k];
    LeftNames(Merged(core, init).value, list[k], name);
    if j < k {
      AddedOnce(core, init, j, name);
      assert forall i :: 0 <= i < k ==> init[i] == list[i];
    } else {
      NeverAdded(core, init, name);
      assert forall i :: 0 <= i < k ==> init[i] == list[i];
    }
  }

  lemma {:induction false} NeverAdded(core: Object_, list: seq<Layering>, name: string)
    requires Merged(core, list).Some?
    ensures HasField(Merged(core, list).value.fields, name) <==>
            HasField(core.fields, name) || exists i :: 0 <= i < |list| && HasField(list[i].addFields, name)
  {
    if list != [] {
      var k := |list| - 1;
      var init := list[..k];
      LeftNames(Merged(core, init).value, list[k], name);
      NeverAdded(core, init, name);
      if i: int :| 0 <= i < |list| && HasField(list[i].addFields, name) {
        if i < k { assert HasField(init[i].addFields, name); }
      }
      if i: int :| 0 <= i < k && HasField(init[i].addFields, name) { assert HasField(list[i].addFields, name); }
    }
  }
}
