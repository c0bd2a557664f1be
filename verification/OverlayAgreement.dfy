/** When a stack of layers merges, layer by layer and pair by pair. */
module OverlayAgreement {
  import opened Schema
  import opened Overlay
  import opened OverlayRemoval
  import opened Wrappers

  /** `y`, merged above `x`, takes nothing back: no name is added twice, no role is lost, and what both
      narrow is narrowed further. */
  ghost predicate Agree(x: Layering, y: Layering) {
    && (forall name :: !(HasField(x.addFields, name) && HasField(y.addFields, name)))
    && (forall action :: action in x.permissions && action in y.permissions ==> Superset(y.permissions[action], x.permissions[action]))
    && (forall name :: name in x.narrow && name in y.narrow ==> Within(y.narrow[name], x.narrow[name]))
  }

  /** One of the fields is an enum of this name that can be narrowed to the options. */
  ghost predicate Declares(fields: seq<Field>, name: string, options: seq<string>) {
    exists i :: 0 <= i < |fields| && fields[i].name == name && CanNarrow(fields[i], options)
  }

  ghost predicate AddsOne(layers: seq<Layering>, name: string, options: seq<string>) {
    exists i :: 0 <= i < |layers| && Declares(layers[i].addFields, name, options)
  }

  ghost predicate Grounded(core: Object_, layers: seq<Layering>, name: string, options: seq<string>) {
    Declares(core.fields, name, options) || AddsOne(layers, name, options)
  }

  /** What a layer must meet by itself: fresh valid fields and core's roles. */
  ghost predicate Fresh(core: Object_, ov: Layering) {
    && Fits(core.fields, ov.addFields)
    && (forall action :: action in ov.permissions ==> Superset(ov.permissions[action], RolesOf(core.permissions, action)))
  }

  /** It narrows only what core, a layer below it or itself declares. */
  ghost predicate NarrowsGrounded(core: Object_, upTo: seq<Layering>, ov: Layering) {
    forall name :: name in ov.narrow ==> Grounded(core, upTo, name, ov.narrow[name])
  }

  ghost predicate Stands(core: Object_, list: seq<Layering>, k: nat)
    requires k < |list|
  {
    && Fresh(core, list[k]) && NarrowsGrounded(core, list[..k + 1], list[k])
    && forall i :: 0 <= i < k ==> Agree(list[i], list[k])
  }

  ghost predicate AllStand(core: Object_, list: seq<Layering>) {
    forall k :: 0 <= k < |list| ==> Stands(core, list, k)
  }

  // ---- What a merged stack has come to ----

  ghost predicate NamesAre(core: Object_, list: seq<Layering>, eff: Effective) {
    forall name :: HasField(eff.fields, name) <==> HasField(core.fields, name) || exists i :: 0 <= i < |list| && HasField(list[i].addFields, name)
  }

  ghost predicate NarrowedBy(list: seq<Layering>, name: string, options: seq<string>) {
    forall i :: 0 <= i < |list| && name in list[i].narrow ==> Within(options, list[i].narrow[name])
  }

  ghost predicate OptionsAre(core: Object_, list: seq<Layering>, eff: Effective) {
    forall name, options :: Declares(eff.fields, name, options) <==> Grounded(core, list, name, options) && NarrowedBy(list, name, options)
  }

  ghost predicate Grants(list: seq<Layering>, action: string, roles: seq<string>) {
    forall i :: 0 <= i < |list| && action in list[i].permissions ==> Superset(roles, list[i].permissions[action])
  }

  ghost predicate RolesAre(core: Object_, list: seq<Layering>, eff: Effective) {
    forall action, roles :: Superset(roles, RolesOf(eff.permissions, action))
                            <==> Superset(roles, RolesOf(core.permissions, action)) && Grants(list, action, roles)
  }

  ghost predicate NarrowedExist(list: seq<Layering>, eff: Effective) {
    forall i, name :: 0 <= i < |list| && name in list[i].narrow ==> HasField(eff.fields, name)
  }

  ghost predicate Described(core: Object_, list: seq<Layering>, eff: Effective) {
    DistinctNames(eff.fields) && NamesAre(core, list, eff) && OptionsAre(core, list, eff) && RolesAre(core, list, eff) && NarrowedExist(list, eff)
  }

  lemma DeclaresConcat(a: seq<Field>, b: seq<Field>, name: string, options: seq<string>)
    ensures Declares(a + b, name, options) <==> Declares(a, name, options) || Declares(b, name, options)
  {
    if Declares(a, name, options) {
      var i :| 0 <= i < |a| && a[i].name == name && CanNarrow(a[i], options);
      assert (a + b)[i] == a[i];
    }
    if Declares(b, name, options) {
      var i :| 0 <= i < |b| && b[i].name == name && CanNarrow(b[i], options);
      assert (a + b)[|a| + i] == b[i];
    }
    if Declares(a + b, name, options) {
      var i :| 0 <= i < |a + b| && (a + b)[i].name == name && CanNarrow((a + b)[i], options);
      if i < |a| { assert a[i] == (a + b)[i]; } else { assert b[i - |a|] == (a + b)[i]; }
    }
  }

  lemma DeclaresMarked(add: seq<Field>, name: string, options: seq<string>)
    ensures Declares(Marked(add), name, options) <==> Declares(add, name, options)
  {
    if Declares(add, name, options) {
      var i :| 0 <= i < |add| && add[i].name == name && CanNarrow(add[i], options);
      assert Marked(add)[i].name == name && CanNarrow(Marked(add)[i], options);
    }
    if Declares(Marked(add), name, options) {
      var i :| 0 <= i < |add| && Marked(add)[i].name == name && CanNarrow(Marked(add)[i], options);
      assert add[i].name == name && CanNarrow(add[i], options);
    }
  }

  lemma DeclaresHas(fields: seq<Field>, name: string, options: seq<string>)
    requires Declares(fields, name, options)
    ensures HasField(fields, name)
  {
    var i :| 0 <= i < |fields| && fields[i].name == name && CanNarrow(fields[i], options);
  }

  /** After narrowing, a field can be narrowed to what it could before and the narrowing allows. */
  lemma DeclaresNarrowed(fields: seq<Field>, narrow: map<string, seq<string>>, name: string, options: seq<string>)
    requires DistinctNames(fields) && NarrowsWithin(fields, narrow)
    ensures Declares(Narrowed(fields, narrow), name, options)
            <==> Declares(fields, name, options) && (name in narrow ==> Within(options, narrow[name]))
  {
    var narrowed := Narrowed(fields, narrow);
    if Declares(narrowed, name, options) {
      var i :| 0 <= i < |narrowed| && narrowed[i].name == name && CanNarrow(narrowed[i], options);
      NarrowedWithin(fields, narrow, i);
      assert fields[i].name == name && CanNarrow(fields[i], options);
    }
    if Declares(fields, name, options) && (name in narrow ==> Within(options, narrow[name])) {
      var i :| 0 <= i < |fields| && fields[i].name == name && CanNarrow(fields[i], options);
      assert narrowed[i].name == name && CanNarrow(narrowed[i], options);
    }
  }

  // ---- One more layer ----

  lemma LastLayer(init: seq<Layering>, ov: Layering)
    ensures |init + [ov]| == |init| + 1 && (init + [ov])[|init|] == ov && (init + [ov])[..|init|] == init
    ensures forall i :: 0 <= i < |init| ==> (init + [ov])[i] == init[i]
  {
  }

  lemma GroundedNext(core: Object_, init: seq<Layering>, ov: Layering, name: string, options: seq<string>)
    ensures Grounded(core, init + [ov], name, options) <==> Grounded(core, init, name, options) || Declares(ov.addFields, name, options)
  {
    LastLayer(init, ov);
    if AddsOne(init, name, options) {
      var i :| 0 <= i < |init| && Declares(init[i].addFields, name, options);
      assert Declares((init + [ov])[i].addFields, name, options);
    }
    if Declares(ov.addFields, name, options) { assert Declares((init + [ov])[|init|].addFields, name, options); }
  }

  lemma FitsNow(core: Object_, init: seq<Layering>, eff: Effective, ov: Layering)
    requires Described(core, init, eff)
    ensures Fits(eff.fields, ov.addFields) <==>
            Fits(core.fields, ov.addFields) && forall i, name :: 0 <= i < |init| ==> !(HasField(init[i].addFields, name) && HasField(ov.addFields, name))
  {
    if Fits(eff.fields, ov.addFields) {
      forall i, name | 0 <= i < |init| ensures !(HasField(init[i].addFields, name) && HasField(ov.addFields, name)) {
        if HasField(ov.addFields, name) { var j := FieldOf(ov.addFields, name); }
      }
    }
    forall j | 0 <= j < |ov.addFields| ensures HasField(ov.addFields, ov.addFields[j].name) {
    }
  }

  lemma FloorNow(core: Object_, init: seq<Layering>, eff: Effective, ov: Layering)
    requires Described(core, init, eff)
    ensures FloorKept(eff.permissions, ov.permissions) <==>
            && (forall action :: action in ov.permissions ==> Superset(ov.permissions[action], RolesOf(core.permissions, action)))
            && (forall i, action :: 0 <= i < |init| && action in init[i].permissions && action in ov.permissions ==>
                  Superset(ov.permissions[action], init[i].permissions[action]))
  {
    if FloorKept(eff.permissions, ov.permissions) {
      forall action | action in ov.permissions
        ensures Superset(ov.permissions[action], RolesOf(core.permissions, action)) && Grants(init, action, ov.permissions[action])
      {
        assert Superset(ov.permissions[action], RolesOf(eff.permissions, action));
      }
    } else {
      var action :| action in ov.permissions && !Superset(ov.permissions[action], RolesOf(eff.permissions, action));
      assert !(Superset(ov.permissions[action], RolesOf(core.permissions, action)) && Grants(init, action, ov.permissions[action]));
    }
  }

  /** The fields that a layer narrows: those below it and its own. */
  lemma DeclaresWith(core: Object_, init: seq<Layering>, eff: Effective, ov: Layering, name: string, options: seq<string>)
    requires Described(core, init, eff) && Fits(eff.fields, ov.addFields)
    ensures Declares(eff.fields + Marked(ov.addFields), name, options) <==> Grounded(core, init + [ov], name, options) && NarrowedBy(init, name, options)
  {
    DeclaresConcat(eff.fields, Marked(ov.addFields), name, options);
    DeclaresMarked(ov.addFields, name, options);
    GroundedNext(core, init, ov, name, options);
    if Declares(ov.addFields, name, options) {
      DeclaresHas(ov.addFields, name, options);
      var j := FieldOf(ov.addFields, name);
      assert !HasField(eff.fields, name);
    }
  }

  lemma NarrowNow(core: Object_, init: seq<Layering>, eff: Effective, ov: Layering)
    requires Described(core, init, eff) && Fits(eff.fields, ov.addFields)
    ensures NarrowsWithin(eff.fields + Marked(ov.addFields), ov.narrow) <==>
            && NarrowsGrounded(core, init + [ov], ov)
            && (forall i, name :: 0 <= i < |init| && name in init[i].narrow && name in ov.narrow ==> Within(ov.narrow[name], init[i].narrow[name]))
  {
    var fields := eff.fields + Marked(ov.addFields);
    forall name | name in ov.narrow
      ensures Declares(fields, name, ov.narrow[name]) <==> Grounded(core, init + [ov], name, ov.narrow[name]) && NarrowedBy(init, name, ov.narrow[name])
    {
      DeclaresWith(core, init, eff, ov, name, ov.narrow[name]);
    }
    assert NarrowsWithin(fields, ov.narrow) <==> forall name :: name in ov.narrow ==> Declares(fields, name, ov.narrow[name]);
  }

  lemma StandsLast(core: Object_, init: seq<Layering>, ov: Layering)
    ensures AllStand(core, init + [ov]) <==> AllStand(core, init) && Stands(core, init + [ov], |init|)
  {
    LastLayer(init, ov);
    var list := init + [ov];
    forall k: nat | k < |init| ensures Stands(core, list, k) <==> Stands(core, init, k) {
      assert list[..k + 1] == init[..k + 1];
    }
  }

  /** A layer merges onto a stack exactly when it stands on it. */
  lemma MergeOneExactly(core: Object_, init: seq<Layering>, eff: Effective, ov: Layering)
    requires Described(core, init, eff)
    ensures MergeOne(eff, ov).Some? <==> Stands(core, init + [ov], |init|)
  {
    LastLayer(init, ov);
    assert (init + [ov])[..|init| + 1] == init + [ov];
    AddedExactly(eff.fields, ov.addFields);
    FitsNow(core, init, eff, ov);
    FloorNow(core, init, eff, ov);
    if Fits(eff.fields, ov.addFields) { NarrowNow(core, init, eff, ov); }
    AgreeWithAll(init, ov);
  }

  lemma AgreeWithAll(init: seq<Layering>, ov: Layering)
    ensures (forall i :: 0 <= i < |init| ==> Agree(init[i], ov)) <==>
            && (forall i, name :: 0 <= i < |init| ==> !(HasField(init[i].addFields, name) && HasField(ov.addFields, name)))
            && (forall i, action :: 0 <= i < |init| && action in init[i].permissions && action in ov.permissions ==>
                  Superset(ov.permissions[action], init[i].permissions[action]))
            && (forall i, name :: 0 <= i < |init| && name in init[i].narrow && name in ov.narrow ==> Within(ov.narrow[name], init[i].narrow[name]))
  {
  }

  // ---- The description is kept ----

  lemma NamesNext(core: Object_, init: seq<Layering>, eff: Effective, ov: Layering)
    requires Described(core, init, eff) && MergeOne(eff, ov).Some?
    ensures NamesAre(core, init + [ov], MergeOne(eff, ov).value)
  {
    LastLayer(init, ov);
    var list, eff' := init + [ov], MergeOne(eff, ov).value;
    forall name ensures HasField(eff'.fields, name) <==> HasField(core.fields, name) || exists i :: 0 <= i < |list| && HasField(list[i].addFields, name) {
      LeftNames(eff, ov, name);
      if i: int :| 0 <= i < |init| && HasField(init[i].addFields, name) { assert HasField(list[i].addFields, name); }
      if HasField(ov.addFields, name) { assert HasField(list[|init|].addFields, name); }
      if i: int :| 0 <= i < |list| && HasField(list[i].addFields, name) {
        if i < |init| { assert HasField(init[i].addFields, name); }
      }
    }
  }

  lemma OptionsNext(core: Object_, init: seq<Layering>, eff: Effective, ov: Layering)
    requires Described(core, init, eff) && MergeOne(eff, ov).Some?
    ensures OptionsAre(core, init + [ov], MergeOne(eff, ov).value)
  {
    LastLayer(init, ov);
    AddedExactly(eff.fields, ov.addFields);
    AddedFields(eff.fields, ov.addFields);
    var list, eff', fields := init + [ov], MergeOne(eff, ov).value, eff.fields + Marked(ov.addFields);
    forall name, options ensures Declares(eff'.fields, name, options) <==> Grounded(core, list, name, options) && NarrowedBy(list, name, options) {
      DeclaresWith(core, init, eff, ov, name, options);
      DeclaresNarrowed(fields, ov.narrow, name, options);
      NarrowedByNext(init, ov, name, options);
    }
  }

  lemma NarrowedByNext(init: seq<Layering>, ov: Layering, name: string, options: seq<string>)
    ensures NarrowedBy(init + [ov], name, options) <==> NarrowedBy(init, name, options) && (name in ov.narrow ==> Within(options, ov.narrow[name]))
  {
    LastLayer(init, ov);
    if NarrowedBy(init + [ov], name, options) {
      forall i | 0 <= i < |init| && name in init[i].narrow ensures Within(options, init[i].narrow[name]) {
        assert (init + [ov])[i] == init[i];
      }
      assert (init + [ov])[|init|] == ov;
    }
  }

  lemma RolesNext(core: Object_, init: seq<Layering>, eff: Effective, ov: Layering)
    requires Described(core, init, eff) && MergeOne(eff, ov).Some?
    ensures RolesAre(core, init + [ov], MergeOne(eff, ov).value)
  {
    var list, eff' := init + [ov], MergeOne(eff, ov).value;
    forall action, roles
      ensures Superset(roles, RolesOf(eff'.permissions, action))
              <==> Superset(roles, RolesOf(core.permissions, action)) && Grants(list, action, roles)
    {
      GrantsNext(init, ov, action, roles);
      if action in ov.permissions {
        assert Superset(ov.permissions[action], RolesOf(eff.permissions, action));
        SupersetThrough(roles, ov.permissions[action], RolesOf(eff.permissions, action));
      }
    }
  }

  lemma SupersetThrough(a: seq<string>, b: seq<string>, c: seq<string>)
    requires Superset(b, c)
    ensures Superset(a, b) ==> Superset(a, c)
  {
  }

  lemma GrantsNext(init: seq<Layering>, ov: Layering, action: string, roles: seq<string>)
    ensures Grants(init + [ov], action, roles) <==> Grants(init, action, roles) && (action in ov.permissions ==> Superset(roles, ov.permissions[action]))
  {
    LastLayer(init, ov);
    if Grants(init + [ov], action, roles) {
      forall i | 0 <= i < |init| && action in init[i].permissions ensures Superset(roles, init[i].permissions[action]) {
        assert (init + [ov])[i] == init[i];
      }
      assert (init + [ov])[|init|] == ov;
    }
  }

  lemma NarrowedExistNext(core: Object_, init: seq<Layering>, eff: Effective, ov: Layering)
    requires Described(core, init, eff) && MergeOne(eff, ov).Some?
    ensures NarrowedExist(init + [ov], MergeOne(eff, ov).value)
  {
    LastLayer(init, ov);
    var list, eff' := init + [ov], MergeOne(eff, ov).value;
    AddedExactly(eff.fields, ov.addFields);
    forall i, name | 0 <= i < |list| && name in list[i].narrow ensures HasField(eff'.fields, name) {
      LeftNames(eff, ov, name);
      if i == |init| {
        var fields := eff.fields + Marked(ov.addFields);
        var j :| 0 <= j < |fields| && fields[j].name == name && CanNarrow(fields[j], ov.narrow[name]);
        assert HasField(fields, name);
        HasFieldConcat(eff.fields, Marked(ov.addFields), name);
        HasMarked(ov.addFields, name);
      }
    }
  }

  lemma DescribedNext(core: Object_, init: seq<Layering>, eff: Effective, ov: Layering)
    requires Described(core, init, eff) && MergeOne(eff, ov).Some?
    ensures Described(core, init + [ov], MergeOne(eff, ov).value)
  {
    LeftFields(eff, ov);
    NamesNext(core, init, eff, ov);
    OptionsNext(core, init, eff, ov);
    RolesNext(core, init, eff, ov);
    NarrowedExistNext(core, init, eff, ov);
  }

  lemma DescribedCore(core: Object_)
    requires ObjectValid(core)
    ensures Described(core, [], Effective(core.fields, core.permissions))
  {
  }

  /** A stack merges if and only if core is valid and each layer brings fresh valid fields, keeps core's
      roles, narrows only declared options, and agrees with every layer below it. */
  lemma {:induction false} MergesExactly(core: Object_, list: seq<Layering>)
    ensures Merged(core, list).Some? <==> ObjectValid(core) && AllStand(core, list)
    ensures Merged(core, list).Some? ==> Described(core, list, Merged(core, list).value)
  {
    if list == [] {
      if ObjectValid(core) { DescribedCore(core); }
    } else {
      var init, ov := list[..|list| - 1], list[|list| - 1];
      assert list == init + [ov];
      MergesExactly(core, init);
      StandsLast(core, init, ov);
      if Merged(core, init).Some? {
        MergeOneExactly(core, init, Merged(core, init).value, ov);
        if Merged(core, list).Some? { DescribedNext(core, init, Merged(core, init).value, ov); }
      }
    }
  }
}
