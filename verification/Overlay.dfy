/** Customization layers: merging them onto a core object, and the stored stack of them. */
module Overlay {
  import opened Schema
  import opened Wrappers

  datatype Layering = Layering(target: string, addFields: seq<Field>, permissions: Permissions, narrow: map<string, seq<string>>)

  datatype Effective = Effective(fields: seq<Field>, permissions: Permissions)

  /** The elements of `of` not in `among`. */
  function Missing(of: seq<string>, among: seq<string>): (r: seq<string>)
    ensures r == [] <==> forall x :: x in of ==> x in among
  {
    if of == [] then []
    else
      var init, last := of[..|of| - 1], of[|of| - 1];
      assert of == init + [last];
      Missing(init, among) + (if last in among then [] else [last])
  }

  predicate Superset(roles: seq<string>, existing: seq<string>): (r: bool)
    ensures r <==> forall role :: role in existing ==> role in roles
  {
    Missing(existing, roles) == []
  }

  function Added(fields: seq<Field>, add: seq<Field>): Option<seq<Field>> {
    if add == [] then Some(fields)
    else
      var f := add[|add| - 1];
      match Added(fields, add[..|add| - 1])
      case None => None
      case Some(before) =>
        if HasField(before, f.name) || !FieldValid(f) then None else Some(before + [f.(fromOverlay := true)])
  }

  function RolesOf(p: Permissions, action: string): seq<string> {
    if action in p then p[action] else []
  }

  /** No action loses a role that an earlier layer gave it. */
  predicate FloorKept(p: Permissions, over: Permissions): (r: bool)
    ensures r <==> forall action, role :: action in p && role in p[action] && action in over ==> role in over[action]
  {
    forall action :: action in over ==> Superset(over[action], RolesOf(p, action))
  }

  predicate CanNarrow(f: Field, options: seq<string>): (r: bool)
    ensures r <==> f.kind == Enum && |options| > 0 && forall x :: x in options ==> x in f.options
  {
    f.kind.Enum? && options != [] && Missing(options, f.options) == []
  }

  predicate NarrowsWithin(fields: seq<Field>, narrow: map<string, seq<string>>) {
    forall name :: name in narrow ==> exists i :: 0 <= i < |fields| && fields[i].name == name && CanNarrow(fields[i], narrow[name])
  }

  function NarrowField(f: Field, narrow: map<string, seq<string>>): Field {
    if f.name in narrow then f.(options := narrow[f.name]) else f
  }

  function Narrowed(fields: seq<Field>, narrow: map<string, seq<string>>): (r: seq<Field>)
    ensures |r| == |fields| && forall i :: 0 <= i < |r| ==> r[i] == NarrowField(fields[i], narrow)
  {
    seq(|fields|, i requires 0 <= i < |fields| => NarrowField(fields[i], narrow))
  }

  /** One layer on top of what the layers before it left. */
  function MergeOne(eff: Effective, ov: Layering): Option<Effective> {
    match Added(eff.fields, ov.addFields)
    case None => None
    case Some(fields) =>
      if FloorKept(eff.permissions, ov.permissions) && NarrowsWithin(fields, ov.narrow)
      then Some(Effective(Narrowed(fields, ov.narrow), eff.permissions + ov.permissions))
      else None
  }

  function Merged(core: Object_, overlays: seq<Layering>): Option<Effective> {
    if overlays == [] then
      if ObjectValid(core) then Some(Effective(core.fields, core.permissions)) else None
    else match Merged(core, overlays[..|overlays| - 1])
      case None => None
      case Some(eff) => MergeOne(eff, overlays[|overlays| - 1])
  }

  // ---- What every merge keeps ----

  predicate Within(options: seq<string>, ceiling: seq<string>) {
    forall x :: x in options ==> x in ceiling
  }

  /** A core field survives with at most its enum options narrowed, and never to nothing. */
  predicate SameCoreField(core: Field, f: Field) {
    && f == core.(options := f.options)
    && (if core.kind.Enum? then f.options != [] && Within(f.options, core.options) else f.options == core.options)
  }

  /** Names are unique, the core fields come first, unchanged but for narrowed options, the rest are
      overlay fields, and no core action has lost a role. */
  ghost predicate Sound(core: Object_, eff: Effective) {
    && DistinctNames(eff.fields)
    && |core.fields| <= |eff.fields|
    && (forall i :: 0 <= i < |core.fields| ==> SameCoreField(core.fields[i], eff.fields[i]))
    && (forall i :: |core.fields| <= i < |eff.fields| ==> eff.fields[i].fromOverlay)
    && (forall action :: action in core.permissions ==>
          action in eff.permissions && Within(core.permissions[action], eff.permissions[action]))
  }

  lemma {:induction false} AddedFields(fields: seq<Field>, add: seq<Field>)
    requires DistinctNames(fields) && Added(fields, add).Some?
    ensures
      var r := Added(fields, add).value;
      && DistinctNames(r) && |r| == |fields| + |add| && r[..|fields|] == fields
      && forall i :: |fields| <= i < |r| ==> r[i].fromOverlay
  {
    if add != [] {
      AddedFields(fields, add[..|add| - 1]);
      var before, f := Added(fields, add[..|add| - 1]).value, add[|add| - 1];
      forall i | 0 <= i < |before| ensures before[i].name != f.name {
      }
    }
  }

  lemma NarrowedSound(core: Object_, fields: seq<Field>, narrow: map<string, seq<string>>)
    requires DistinctNames(fields) && |core.fields| <= |fields| && NarrowsWithin(fields, narrow)
    requires forall i :: 0 <= i < |core.fields| ==> SameCoreField(core.fields[i], fields[i])
    ensures DistinctNames(Narrowed(fields, narrow))
    ensures forall i :: 0 <= i < |core.fields| ==> SameCoreField(core.fields[i], Narrowed(fields, narrow)[i])
  {
    forall i | 0 <= i < |core.fields| ensures SameCoreField(core.fields[i], Narrowed(fields, narrow)[i]) {
      var f := fields[i];
      if f.name in narrow {
        var j :| 0 <= j < |fields| && fields[j].name == f.name && CanNarrow(fields[j], narrow[f.name]);
        assert j == i;
      }
    }
  }

  lemma MergeOneSound(core: Object_, eff: Effective, ov: Layering)
    requires Sound(core, eff) && MergeOne(eff, ov).Some?
    ensures Sound(core, MergeOne(eff, ov).value)
  {
    AddedFields(eff.fields, ov.addFields);
    var fields := Added(eff.fields, ov.addFields).value;
    assert forall i :: 0 <= i < |eff.fields| ==> fields[i] == fields[..|eff.fields|][i];
    NarrowedSound(core, fields, ov.narrow);
    var permissions := eff.permissions + ov.permissions;
    forall action | action in core.permissions
      ensures action in permissions && Within(core.permissions[action], permissions[action])
    {
      if action in ov.permissions {
        assert Superset(ov.permissions[action], RolesOf(eff.permissions, action));
      }
    }
  }

  lemma {:induction false} MergedSound(core: Object_, overlays: seq<Layering>)
    requires Merged(core, overlays).Some?
    ensures ObjectValid(core) && Sound(core, Merged(core, overlays).value)
  {
    if overlays == [] {
      assert forall i :: 0 <= i < |core.fields| ==> FieldValid(core.fields[i]);
    } else {
      MergedSound(core, overlays[..|overlays| - 1]);
      MergeOneSound(core, Merged(core, overlays[..|overlays| - 1]).value, overlays[|overlays| - 1]);
    }
  }

  /** A shorter stack of the same layers merges when the longer one does. */
  lemma {:induction false} PrefixMerges(core: Object_, overlays: seq<Layering>, n: nat)
    requires n <= |overlays| && Merged(core, overlays).Some?
    ensures Merged(core, overlays[..n]).Some?
  {
    if n < |overlays| {
      assert overlays[..|overlays| - 1][..n] == overlays[..n];
      PrefixMerges(core, overlays[..|overlays| - 1], n);
    } else {
      assert overlays[..n] == overlays;
    }
  }

  // ---- Values ----

  datatype Value = Text(s: string) | Other(tag: nat)

  /** The rule of a field's type; only an enum's depends on the field, through its options. */
  predicate Legal(rules: (FieldType, Value) -> bool, f: Field, v: Value) {
    if f.kind.Enum? then v.Text? && v.s in f.options else rules(f.kind, v)
  }

  /** Whatever a tenant's schema accepts for a core field, core accepts. */
  lemma EffectiveLegalIsCoreLegal(core: Object_, overlays: seq<Layering>, rules: (FieldType, Value) -> bool, i: nat, v: Value)
    requires Merged(core, overlays).Some? && i < |core.fields|
    ensures i < |Merged(core, overlays).value.fields|
    ensures Legal(rules, Merged(core, overlays).value.fields[i], v) ==> Legal(rules, core.fields[i], v)
  {
    MergedSound(core, overlays);
  }

  // ---- Merging in loops ----

  method AddAll(fields: seq<Field>, add: seq<Field>) returns (r: Option<seq<Field>>)
    ensures r == Added(fields, add)
  {
    var out := fields;
    var names := set i | 0 <= i < |fields| :: fields[i].name;
    for k := 0 to |add|
      invariant Added(fields, add[..k]) == Some(out)
      invariant forall name :: name in names <==> HasField(out, name)
    {
      assert add[..k + 1][..k] == add[..k];
      var f := add[k];
      if f.name in names || !FieldValid(f) {
        AddFailsEarly(fields, add, k + 1);
        return None;
      }
      names := names + {f.name};
      HasFieldAppend(out, f.(fromOverlay := true));
      out := out + [f.(fromOverlay := true)];
    }
    assert add[..|add|] == add;
    return Some(out);
  }

  lemma HasFieldAppend(fields: seq<Field>, f: Field)
    ensures forall name :: HasField(fields + [f], name) <==> HasField(fields, name) || name == f.name
  {
    forall name ensures HasField(fields + [f], name) <==> HasField(fields, name) || name == f.name {
      if HasField(fields, name) {
        var i :| 0 <= i < |fields| && fields[i].name == name;
        assert (fields + [f])[i].name == name;
      }
      assert (fields + [f])[|fields|] == f;
    }
  }

  lemma {:induction false} AddFailsEarly(fields: seq<Field>, add: seq<Field>, n: nat)
    requires n <= |add| && Added(fields, add[..n]).None?
    ensures Added(fields, add).None?
  {
    if n < |add| {
      assert add[..|add| - 1][..n] == add[..n];
      AddFailsEarly(fields, add[..|add| - 1], n);
    } else {
      assert add[..n] == add;
    }
  }

  method FieldIndex(fields: seq<Field>, name: string) returns (i: int)
    ensures i < 0 ==> !HasField(fields, name)
    ensures i >= 0 ==> i < |fields| && fields[i].name == name && forall j :: 0 <= j < i ==> fields[j].name != name
  {
    for k := 0 to |fields|
      invariant forall j :: 0 <= j < k ==> fields[j].name != name
    {
      if fields[k].name == name {
        return k;
      }
    }
    return -1;
  }

  /** One name at a time; each assignment replaces the whole option list. */
  method Narrow(fields: seq<Field>, narrow: map<string, seq<string>>) returns (r: Option<seq<Field>>)
    requires DistinctNames(fields)
    ensures r == if NarrowsWithin(fields, narrow) then Some(Narrowed(fields, narrow)) else None
    ensures r.Some? ==> |r.value| == |fields| && forall i :: 0 <= i < |fields| ==>
              r.value[i] == if fields[i].name in narrow then fields[i].(options := narrow[fields[i].name]) else fields[i]
    ensures r.Some? <==> forall name :: name in narrow ==>
              exists i :: 0 <= i < |fields| && fields[i].name == name && fields[i].kind == Enum && |narrow[name]| > 0
                          && forall x :: x in narrow[name] ==> x in fields[i].options
  {
    var out, left := fields, narrow.Keys;
    while left != {}
      invariant left <= narrow.Keys && |out| == |fields|
      invariant forall i :: 0 <= i < |out| ==>
                  out[i] == if fields[i].name in narrow && fields[i].name !in left then NarrowField(fields[i], narrow) else fields[i]
      invariant forall name :: name in narrow && name !in left ==>
                  exists i :: 0 <= i < |fields| && fields[i].name == name && CanNarrow(fields[i], narrow[name])
      decreases left
    {
      var name :| name in left;
      var i := FieldIndex(out, name);
      if i < 0 || !CanNarrow(out[i], narrow[name]) {
        RefusesNarrow(fields, out, narrow, name, i);
        return None;
      }
      assert fields[i].name == name && CanNarrow(fields[i], narrow[name]);
      left := left - {name};
      out := out[i := out[i].(options := narrow[name])];
    }
    assert out == Narrowed(fields, narrow);
    return Some(out);
  }

  lemma RefusesNarrow(fields: seq<Field>, out: seq<Field>, narrow: map<string, seq<string>>, name: string, i: int)
    requires DistinctNames(fields) && |out| == |fields| && name in narrow
    requires forall k :: 0 <= k < |out| ==> out[k].name == fields[k].name && (out[k].name == name ==> out[k] == fields[k])
    requires i < 0 ==> !HasField(out, name)
    requires i >= 0 ==> i < |out| && out[i].name == name && !CanNarrow(out[i], narrow[name])
    ensures !NarrowsWithin(fields, narrow)
  {
    assert i >= 0 ==> out[i] == fields[i];
    assert i < 0 ==> forall k :: 0 <= k < |fields| ==> out[k].name != name;
    assert forall k :: 0 <= k < |fields| && fields[k].name == name ==> !CanNarrow(fields[k], narrow[name]);
  }

  method Merge(core: Object_, overlays: seq<Layering>) returns (r: Option<Effective>)
    ensures r == Merged(core, overlays)
    ensures r.Some? ==> Sound(core, r.value)
  {
    if !ObjectValid(core) {
      MergeFailsEarly(core, overlays, 0);
      return None;
    }
    var eff := Effective(core.fields, core.permissions);
    for k := 0 to |overlays|
      invariant Merged(core, overlays[..k]) == Some(eff)
    {
      assert overlays[..k + 1][..k] == overlays[..k];
      MergedSound(core, overlays[..k]);
      var fields := AddAll(eff.fields, overlays[k].addFields);
      var next: Option<Effective> := None;
      if fields.Some? && FloorKept(eff.permissions, overlays[k].permissions) {
        AddedFields(eff.fields, overlays[k].addFields);
        var narrowed := Narrow(fields.value, overlays[k].narrow);
        if narrowed.Some? {
          next := Some(Effective(narrowed.value, eff.permissions + overlays[k].permissions));
        }
      }
      assert next == MergeOne(eff, overlays[k]);
      if next.None? {
        MergeFailsEarly(core, overlays, k + 1);
        return None;
      }
      eff := next.value;
    }
    assert overlays[..|overlays|] == overlays;
    MergedSound(core, overlays);
    return Some(eff);
  }

  lemma MergeFailsEarly(core: Object_, overlays: seq<Layering>, n: nat)
    requires n <= |overlays| && Merged(core, overlays[..n]).None?
    ensures Merged(core, overlays).None?
  {
    if Merged(core, overlays).Some? {
      PrefixMerges(core, overlays, n);
    }
  }
}
