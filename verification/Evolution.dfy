/** Evolving an object's shared table on Postgres: planning additive steps, executing them, recording versions. */
module Evolution {
  import opened Schema
  import opened Wrappers

  datatype ColType = TEXT | INT | BOOLEAN | TIMESTAMPTZ

  datatype Column = Column(sql: ColType, notNull: bool)

  datatype Table = Table(columns: map<string, Column>, indexes: set<string>)

  /** A child-row field has no column of its own. */
  function ColumnType(kind: FieldType): Option<ColType> {
    match kind
    case Rows => None
    case Whole => Some(INT)
    case Boolean => Some(BOOLEAN)
    case Date => Some(TIMESTAMPTZ)
    case Datetime => Some(TIMESTAMPTZ)
    case _ => Some(TEXT)
  }

  function ColumnOf(f: Field): Column
    requires ColumnType(f.kind).Some?
  {
    Column(ColumnType(f.kind).value, f.required)
  }

  /** The columns every generated table has. */
  const SYSTEM := map[
    "id" := Column(TEXT, true), "tenant_id" := Column(TEXT, true), "custom_fields" := Column(TEXT, true),
    "created_at" := Column(TIMESTAMPTZ, true), "updated_at" := Column(TIMESTAMPTZ, true), "archived_at" := Column(TIMESTAMPTZ, false)
  ]

  predicate Widenable(from: ColType, to: ColType) {
    to == TEXT && from != TEXT
  }

  datatype Step =
    | AddColumn(field: string, col: ColType)
    | WidenColumn(field: string, from: ColType, col: ColType)
    | AddIndex(field: string)
    | DropNotNull(field: string)

  function CoreFields(fields: seq<Field>): (core: seq<Field>)
    ensures forall i :: 0 <= i < |core| ==> !core[i].fromOverlay
    ensures forall f :: f in core <==> f in fields && !f.fromOverlay
    ensures DistinctNames(fields) ==> DistinctNames(core)
  {
    if fields == [] then []
    else
      var init, last := fields[..|fields| - 1], fields[|fields| - 1];
      assert fields == init + [last];
      var core := CoreFields(init);
      assert DistinctNames(fields) && !last.fromOverlay ==> DistinctNames(core + [last]) by {
        if DistinctNames(fields) && !last.fromOverlay {
          forall i | 0 <= i < |core| ensures core[i].name != last.name {
            assert core[i] in init;
          }
        }
      }
      if last.fromOverlay then core else core + [last]
  }

  /** The core fields by name. */
  function CoreFieldMap(fields: seq<Field>): (m: map<string, Field>)
    ensures forall name :: name in m <==> exists i :: 0 <= i < |fields| && fields[i].name == name && !fields[i].fromOverlay
    ensures forall name :: name in m ==> m[name] in fields && m[name].name == name && !m[name].fromOverlay
    ensures DistinctNames(fields) ==> forall i :: 0 <= i < |fields| && !fields[i].fromOverlay ==> m[fields[i].name] == fields[i]
  {
    if fields == [] then map[]
    else
      var init, last := fields[..|fields| - 1], fields[|fields| - 1];
      assert fields == init + [last];
      var m := CoreFieldMap(init);
      if last.fromOverlay then m else m[last.name := last]
  }

  /** The steps one core field of the new schema needs, or nothing when they would be destructive. */
  function FieldSteps(prev: map<string, Field>, f: Field): Option<seq<Step>> {
    if ColumnType(f.kind).None? then None
    else if f.name !in prev then
      if f.required then None
      else Some([AddColumn(f.name, ColumnType(f.kind).value)] + (if f.index then [AddIndex(f.name)] else []))
    else
      var pf := prev[f.name];
      var from, to := ColumnType(pf.kind), ColumnType(f.kind);
      if from.None? || (from != to && !Widenable(from.value, to.value)) || (f.required && !pf.required) then None
      else
        Some((if from != to then [WidenColumn(f.name, from.value, to.value)] else []) +
             (if !f.required && pf.required then [DropNotNull(f.name)] else []) +
             (if f.index && !pf.index then [AddIndex(f.name)] else []))
  }

  function StepsOf(prev: map<string, Field>, fields: seq<Field>): Option<seq<Step>> {
    if fields == [] then Some([])
    else
      var init := StepsOf(prev, fields[..|fields| - 1]);
      var last := fields[|fields| - 1];
      if init.None? || last.fromOverlay then init
      else
        var steps := FieldSteps(prev, last);
        if steps.None? then None else Some(init.value + steps.value)
  }

  /** No core field of `prev` is gone. */
  predicate KeepsFields(prev: map<string, Field>, next: map<string, Field>) {
    forall name :: name in prev ==> name in next
  }

  datatype PlanResult = Plan(steps: seq<Step>) | Destructive | NotMonotonic

  function PlanOf(prev: seq<Field>, next: seq<Field>, from: int, to: int): PlanResult {
    if to <= from then NotMonotonic
    else if !KeepsFields(CoreFieldMap(prev), CoreFieldMap(next)) then Destructive
    else match StepsOf(CoreFieldMap(prev), next)
      case None => Destructive
      case Some(steps) => Plan(steps)
  }

  method PlanEvolution(prev: seq<Field>, next: seq<Field>, from: int, to: int) returns (r: PlanResult)
    ensures r == PlanOf(prev, next, from, to)
  {
    if to <= from {
      return NotMonotonic;
    }
    var prevCore := CoreFieldMap(prev);
    if !KeepsFields(prevCore, CoreFieldMap(next)) {
      return Destructive;
    }
    var steps := [];
    for i := 0 to |next|
      invariant StepsOf(prevCore, next[..i]) == Some(steps)
    {
      assert next[..i + 1][..i] == next[..i];
      if next[i].fromOverlay {
        continue;
      }
      var more := FieldSteps(prevCore, next[i]);
      if more.None? {
        FailsEarly(prevCore, next, i + 1);
        return Destructive;
      }
      steps := steps + more.value;
    }
    assert next[..|next|] == next;
    return Plan(steps);
  }

  lemma {:induction false} FailsEarly(prev: map<string, Field>, fields: seq<Field>, n: nat)
    requires n <= |fields| && StepsOf(prev, fields[..n]).None?
    ensures StepsOf(prev, fields).None?
  {
    if n < |fields| {
      assert fields[..|fields| - 1][..n] == fields[..n];
      FailsEarly(prev, fields[..|fields| - 1], n);
    } else {
      assert fields[..n] == fields;
    }
  }

  // ---- What is accepted ----

  /** A field may keep or widen its column type, and loosen but not tighten its nullability. */
  predicate FieldAccepted(prev: map<string, Field>, f: Field) {
    && ColumnType(f.kind).Some?
    && (f.name !in prev ==> !f.required)
    && (f.name in prev ==>
          && ColumnType(prev[f.name].kind).Some?
          && (ColumnType(f.kind) == ColumnType(prev[f.name].kind) || ColumnType(f.kind) == Some(TEXT))
          && (f.required ==> prev[f.name].required))
  }

  /** The diff needs no contract step. */
  ghost predicate Accepted(prev: seq<Field>, next: seq<Field>) {
    && KeepsFields(CoreFieldMap(prev), CoreFieldMap(next))
    && forall i :: 0 <= i < |next| && !next[i].fromOverlay ==> FieldAccepted(CoreFieldMap(prev), next[i])
  }

  lemma {:induction false} StepsAccepted(prev: map<string, Field>, fields: seq<Field>)
    ensures StepsOf(prev, fields).Some? <==> forall i :: 0 <= i < |fields| && !fields[i].fromOverlay ==> FieldAccepted(prev, fields[i])
  {
    if fields != [] {
      var init, last := fields[..|fields| - 1], fields[|fields| - 1];
      StepsAccepted(prev, init);
      assert forall i :: 0 <= i < |init| ==> init[i] == fields[i];
      assert FieldSteps(prev, last).Some? <==> FieldAccepted(prev, last);
    }
  }

  /** A plan exists exactly when the version advances and nothing destructive is asked for. */
  lemma PlanExactly(prev: seq<Field>, next: seq<Field>, from: int, to: int)
    ensures PlanOf(prev, next, from, to).Plan? <==> from < to && Accepted(prev, next)
  {
    StepsAccepted(CoreFieldMap(prev), next);
  }

  /** Two accepted evolutions in a row could have been one. */
  lemma AcceptedTransitive(a: seq<Field>, b: seq<Field>, c: seq<Field>)
    requires DistinctNames(a) && DistinctNames(b) && DistinctNames(c)
    requires Accepted(a, b) && Accepted(b, c)
    ensures Accepted(a, c)
  {
    var am, bm, cm := CoreFieldMap(a), CoreFieldMap(b), CoreFieldMap(c);
    forall i | 0 <= i < |c| && !c[i].fromOverlay ensures FieldAccepted(am, c[i]) {
      assert FieldAccepted(bm, c[i]);
      if c[i].name in bm {
        var f := bm[c[i].name];
        var j :| 0 <= j < |b| && b[j] == f;
        assert FieldAccepted(am, b[j]);
      }
    }
  }

  ghost predicate StepwiseAccepted(schemas: seq<seq<Field>>) {
    && (forall i :: 0 <= i < |schemas| ==> DistinctNames(schemas[i]))
    && (forall i :: 0 < i < |schemas| ==> Accepted(schemas[i - 1], schemas[i]))
  }

  /** Accepting every step of a chain of schemas means any later one could follow the first directly. */
  lemma {:induction false} StepwiseImpliesDirect(schemas: seq<seq<Field>>, k: nat)
    requires 1 <= k < |schemas| && StepwiseAccepted(schemas)
    ensures Accepted(schemas[0], schemas[k])
  {
    if k > 1 {
      StepwiseImpliesDirect(schemas, k - 1);
      AcceptedTransitive(schemas[0], schemas[k - 1], schemas[k]);
    }
  }

  // ---- Executing a plan ----

  /** Adding a column or an index that exists fails the whole transaction. */
  function Exec(t: Table, s: Step): Option<Table> {
    match s
    case AddColumn(field, col) =>
      if field in t.columns then None else Some(t.(columns := t.columns[field := Column(col, false)]))
    case WidenColumn(field, from, col) =>
      if field !in t.columns then None else Some(t.(columns := t.columns[field := t.columns[field].(sql := col)]))
    case AddIndex(field) =>
      if field in t.indexes || field !in t.columns then None else Some(t.(indexes := t.indexes + {field}))
    case DropNotNull(field) =>
      if field !in t.columns then None else Some(t.(columns := t.columns[field := t.columns[field].(notNull := false)]))
  }

  function ExecAll(t: Table, steps: seq<Step>): Option<Table> {
    if steps == [] then Some(t)
    else match ExecAll(t, steps[..|steps| - 1])
      case None => None
      case Some(before) => Exec(before, steps[|steps| - 1])
  }

  lemma {:induction false} ExecConcat(t: Table, a: seq<Step>, b: seq<Step>)
    ensures ExecAll(t, a + b) == match ExecAll(t, a) case None => None case Some(mid) => ExecAll(mid, b)
  {
    if b == [] {
      assert a + b == a;
    } else {
      assert (a + b)[..|a + b| - 1] == a + b[..|b| - 1];
      ExecConcat(t, a, b[..|b| - 1]);
    }
  }

  lemma ExecOne(t: Table, s: Step)
    ensures ExecAll(t, [s]) == Exec(t, s)
  {
    assert [s][..0] == [];
    assert ExecAll(t, []) == Some(t);
  }

  /** A step is planned for this field's index. */
  predicate AddsIndex(prev: map<string, Field>, f: Field) {
    f.index && (f.name in prev ==> !prev[f.name].index)
  }

  /** The table holds this field as the previous schema left it, or not at all. */
  predicate HoldsPrevious(t: Table, prev: map<string, Field>, f: Field) {
    f.name in prev ==>
      f.name in t.columns && ColumnType(prev[f.name].kind).Some? && t.columns[f.name] == ColumnOf(prev[f.name])
  }

  /** Executing one field's steps fails exactly when a new field's column, or a planned index, exists
      already, and otherwise leaves the field's column as the new schema declares it. */
  lemma ExecField(t: Table, prev: map<string, Field>, f: Field)
    requires FieldAccepted(prev, f) && HoldsPrevious(t, prev, f)
    ensures FieldSteps(prev, f).Some?
    ensures
      var r := ExecAll(t, FieldSteps(prev, f).value);
      if (f.name !in prev && f.name in t.columns) || (AddsIndex(prev, f) && f.name in t.indexes) then r.None?
      else r == Some(Table(t.columns[f.name := ColumnOf(f)], if AddsIndex(prev, f) then t.indexes + {f.name} else t.indexes))
  {
    if f.name !in prev {
      ExecNew(t, f);
    } else {
      ExecExisting(t, prev, f);
    }
  }

  lemma ExecNew(t: Table, f: Field)
    requires ColumnType(f.kind).Some? && !f.required
    ensures
      var add, index := [AddColumn(f.name, ColumnType(f.kind).value)], if f.index then [AddIndex(f.name)] else [];
      var r := ExecAll(t, add + index);
      if f.name in t.columns || (f.index && f.name in t.indexes) then r.None?
      else r == Some(Table(t.columns[f.name := ColumnOf(f)], if f.index then t.indexes + {f.name} else t.indexes))
  {
    var add, index := [AddColumn(f.name, ColumnType(f.kind).value)], if f.index then [AddIndex(f.name)] else [];
    ExecConcat(t, add, index);
    ExecOne(t, add[0]);
    if f.index && ExecAll(t, add).Some? {
      ExecOne(ExecAll(t, add).value, index[0]);
    }
  }

  lemma WidenOne(t: Table, name: string, from: ColType, to: ColType)
    requires name in t.columns && t.columns[name].sql == from
    ensures ExecAll(t, if from != to then [WidenColumn(name, from, to)] else [])
            == Some(t.(columns := t.columns[name := t.columns[name].(sql := to)]))
  {
    if from != to {
      ExecOne(t, WidenColumn(name, from, to));
    } else {
      assert t.columns[name := t.columns[name]] == t.columns;
    }
  }

  lemma LoosenOne(t: Table, name: string, required: bool)
    requires name in t.columns && (required ==> t.columns[name].notNull)
    ensures ExecAll(t, if !required && t.columns[name].notNull then [DropNotNull(name)] else [])
            == Some(t.(columns := t.columns[name := t.columns[name].(notNull := required)]))
  {
    if !required && t.columns[name].notNull {
      ExecOne(t, DropNotNull(name));
    } else {
      assert t.columns[name := t.columns[name]] == t.columns;
    }
  }

  lemma IndexOne(t: Table, name: string, index: bool)
    requires name in t.columns
    ensures ExecAll(t, if index then [AddIndex(name)] else [])
            == if index && name in t.indexes then None
               else Some(t.(indexes := if index then t.indexes + {name} else t.indexes))
  {
    if index { ExecOne(t, AddIndex(name)); }
  }

  lemma ExecExisting(t: Table, prev: map<string, Field>, f: Field)
    requires FieldAccepted(prev, f) && f.name in prev && HoldsPrevious(t, prev, f)
    ensures
      var r := ExecAll(t, FieldSteps(prev, f).value);
      if AddsIndex(prev, f) && f.name in t.indexes then r.None?
      else r == Some(Table(t.columns[f.name := ColumnOf(f)], if AddsIndex(prev, f) then t.indexes + {f.name} else t.indexes))
  {
    var pf := prev[f.name];
    var from, to := ColumnType(pf.kind).value, ColumnType(f.kind).value;
    var widen := if from != to then [WidenColumn(f.name, from, to)] else [];
    var loosen := if !f.required && pf.required then [DropNotNull(f.name)] else [];
    var index := if f.index && !pf.index then [AddIndex(f.name)] else [];
    assert FieldSteps(prev, f).value == widen + loosen + index;
    ExecConcat(t, widen + loosen, index);
    ExecConcat(t, widen, loosen);
    WidenOne(t, f.name, from, to);
    var t1 := ExecAll(t, widen).value;
    LoosenOne(t1, f.name, f.required);
    var t2 := ExecAll(t1, loosen).value;
    assert t2 == t.(columns := t.columns[f.name := ColumnOf(f)]);
    IndexOne(t2, f.name, f.index && !pf.index);
  }

  /** The table holds every field of the previous schema as that schema declares it. */
  ghost predicate HoldsAll(t: Table, prev: map<string, Field>) {
    forall name :: name in prev ==> HoldsPrevious(t, prev, prev[name]) && prev[name].name == name
  }

  /** A field whose new column or newly planned index exists already. */
  predicate Clashes(t: Table, prev: map<string, Field>, f: Field) {
    !f.fromOverlay && ((f.name !in prev && f.name in t.columns) || (AddsIndex(prev, f) && f.name in t.indexes))
  }

  ghost predicate AnyClash(t: Table, prev: map<string, Field>, fields: seq<Field>) {
    exists i :: 0 <= i < |fields| && Clashes(t, prev, fields[i])
  }

  /** `t'` is `t` with the columns the fields declare and the indexes their plan adds. */
  ghost predicate Evolved(t: Table, t': Table, prev: map<string, Field>, fields: seq<Field>) {
    && (forall i :: 0 <= i < |fields| && !fields[i].fromOverlay ==>
          ColumnType(fields[i].kind).Some? && fields[i].name in t'.columns && t'.columns[fields[i].name] == ColumnOf(fields[i]))
    && (forall name :: !CoreName(fields, name) ==>
          (name in t'.columns <==> name in t.columns) && (name in t.columns ==> t'.columns[name] == t.columns[name]))
    && (forall name :: name in t'.indexes <==> name in t.indexes || IndexPlanned(prev, fields, name))
  }

  predicate CoreName(fields: seq<Field>, name: string) {
    exists i :: 0 <= i < |fields| && !fields[i].fromOverlay && fields[i].name == name
  }

  predicate IndexPlanned(prev: map<string, Field>, fields: seq<Field>, name: string) {
    exists i :: 0 <= i < |fields| && !fields[i].fromOverlay && fields[i].name == name && AddsIndex(prev, fields[i])
  }

  /** A whole plan executes exactly when nothing clashes, and then produces the new schema's columns. */
  lemma {:induction false} ExecFields(t: Table, prev: map<string, Field>, fields: seq<Field>)
    requires HoldsAll(t, prev) && DistinctNames(fields)
    requires forall i :: 0 <= i < |fields| && !fields[i].fromOverlay ==> FieldAccepted(prev, fields[i])
    ensures StepsOf(prev, fields).Some?
    ensures
      var r := ExecAll(t, StepsOf(prev, fields).value);
      if AnyClash(t, prev, fields) then r.None? else r.Some? && Evolved(t, r.value, prev, fields)
  {
    StepsAccepted(prev, fields);
    if fields == [] {
      assert ExecAll(t, []) == Some(t);
    } else {
      var init, last := fields[..|fields| - 1], fields[|fields| - 1];
      assert fields == init + [last];
      ExecFields(t, prev, init);
      ClashSplit(t, prev, init, last);
      if !last.fromOverlay {
        ExecConcat(t, StepsOf(prev, init).value, FieldSteps(prev, last).value);
        if !AnyClash(t, prev, init) {
          ExecLast(t, ExecAll(t, StepsOf(prev, init).value).value, prev, init, last);
        }
      } else if !AnyClash(t, prev, init) {
        OverlaySkips(t, ExecAll(t, StepsOf(prev, init).value).value, prev, init, last);
      }
    }
  }

  lemma ClashSplit(t: Table, prev: map<string, Field>, init: seq<Field>, last: Field)
    ensures AnyClash(t, prev, init + [last]) <==> AnyClash(t, prev, init) || Clashes(t, prev, last)
  {
    var fields := init + [last];
    if AnyClash(t, prev, init) {
      var i :| 0 <= i < |init| && Clashes(t, prev, init[i]);
      assert fields[i] == init[i];
    }
    if Clashes(t, prev, last) { assert fields[|init|] == last; }
  }

  lemma NamesSplit(prev: map<string, Field>, init: seq<Field>, last: Field, name: string)
    ensures CoreName(init + [last], name) <==> CoreName(init, name) || (!last.fromOverlay && last.name == name)
    ensures IndexPlanned(prev, init + [last], name) <==>
            IndexPlanned(prev, init, name) || (!last.fromOverlay && last.name == name && AddsIndex(prev, last))
  {
    var fields := init + [last];
    assert forall i :: 0 <= i < |init| ==> fields[i] == init[i];
    assert fields[|init|] == last;
  }

  lemma OverlaySkips(t: Table, t': Table, prev: map<string, Field>, init: seq<Field>, last: Field)
    requires Evolved(t, t', prev, init) && last.fromOverlay
    ensures Evolved(t, t', prev, init + [last])
  {
    forall name ensures CoreName(init + [last], name) == CoreName(init, name)
      ensures IndexPlanned(prev, init + [last], name) == IndexPlanned(prev, init, name)
    {
      NamesSplit(prev, init, last, name);
    }
  }

  lemma ExecLast(t: Table, mid: Table, prev: map<string, Field>, init: seq<Field>, last: Field)
    requires HoldsAll(t, prev) && DistinctNames(init + [last]) && !last.fromOverlay
    requires Evolved(t, mid, prev, init) && FieldAccepted(prev, last)
    ensures FieldSteps(prev, last).Some?
    ensures
      var r := ExecAll(mid, FieldSteps(prev, last).value);
      if Clashes(t, prev, last) then r.None? else r.Some? && Evolved(t, r.value, prev, init + [last])
  {
    assert forall i :: 0 <= i < |init| ==> (init + [last])[i] == init[i] && (init + [last])[|init|] == last;
    assert !CoreName(init, last.name) && !IndexPlanned(prev, init, last.name);
    ExecField(mid, prev, last);
    if !Clashes(t, prev, last) {
      EvolveOne(t, mid, ExecAll(mid, FieldSteps(prev, last).value).value, prev, init, last);
    }
  }

  lemma EvolveOne(t: Table, mid: Table, t': Table, prev: map<string, Field>, init: seq<Field>, last: Field)
    requires !last.fromOverlay && ColumnType(last.kind).Some? && !CoreName(init, last.name)
    requires Evolved(t, mid, prev, init)
    requires t' == Table(mid.columns[last.name := ColumnOf(last)], if AddsIndex(prev, last) then mid.indexes + {last.name} else mid.indexes)
    ensures Evolved(t, t', prev, init + [last])
  {
    var fields := init + [last];
    forall i | 0 <= i < |fields| && !fields[i].fromOverlay
      ensures ColumnType(fields[i].kind).Some? && fields[i].name in t'.columns && t'.columns[fields[i].name] == ColumnOf(fields[i])
    {
      if i < |init| {
        assert CoreName(init, init[i].name);
      }
    }
    forall name ensures !CoreName(fields, name) ==> (name in t'.columns <==> name in t.columns) && (name in t.columns ==> t'.columns[name] == t.columns[name])
      ensures name in t'.indexes <==> name in t.indexes || IndexPlanned(prev, fields, name)
    {
      NamesSplit(prev, init, last, name);
    }
  }

  // ---- Applying versions ----

  datatype Applied = Applied(version: int, fields: seq<Field>)

  /** The shared table and the versions recorded so far, in the order they were applied. */
  datatype Db = Db(table: Option<Table>, applied: seq<Applied>)

  const EMPTY_DB := Db(None, [])

  predicate IsApplied(db: Db, version: int) {
    exists i :: 0 <= i < |db.applied| && db.applied[i].version == version
  }

  /** CREATE TABLE and its indexes. */
  function Generate(fields: seq<Field>): Option<Table> {
    if fields == [] then Some(Table(SYSTEM, {"tenant_id"}))
    else
      var init, last := Generate(fields[..|fields| - 1]), fields[|fields| - 1];
      if init.None? || last.fromOverlay then init
      else if ColumnType(last.kind).None? || last.name in init.value.columns then None
      else Some(Table(init.value.columns[last.name := ColumnOf(last)],
                      if last.index then init.value.indexes + {last.name} else init.value.indexes))
  }

  datatype Outcome = Recorded | Unchanged | Refused

  /** The table a new version leads to. Version 0 reads as nothing applied: the next version then
      tries to create the table again. */
  function NextTable(db: Db, fields: seq<Field>, version: int): Option<Table> {
    if db.applied == [] || db.applied[|db.applied| - 1].version == 0 then
      if db.table.Some? then None else Generate(fields)
    else
      var last := db.applied[|db.applied| - 1];
      var plan := PlanOf(last.fields, fields, last.version, version);
      if plan.Plan? && db.table.Some? then ExecAll(db.table.value, plan.steps) else None
  }

  /** Everything happens in one transaction, so a refusal leaves the database as it was. */
  function Apply(db: Db, fields: seq<Field>, version: int): (r: (Db, Outcome)) {
    if IsApplied(db, version) then (db, Unchanged)
    else
      var table := NextTable(db, fields, version);
      if table.None? then (db, Refused) else (Db(table, db.applied + [Applied(version, fields)]), Recorded)
  }

  /** The physical columns are the system's and the core fields', with their declared types and nullability. */
  ghost predicate Shape(t: Table, fields: seq<Field>) {
    && (forall name :: name in t.columns <==> name in SYSTEM || CoreName(fields, name))
    && (forall name :: name in SYSTEM ==> name in t.columns && t.columns[name] == SYSTEM[name] && !CoreName(fields, name))
    && (forall i :: 0 <= i < |fields| && !fields[i].fromOverlay ==>
          ColumnType(fields[i].kind).Some? && fields[i].name in t.columns && t.columns[fields[i].name] == ColumnOf(fields[i]))
  }

  /** Some schema up to now has declared an index on this core field. */
  ghost predicate EverIndexed(applied: seq<Applied>, name: string) {
    exists k :: 0 <= k < |applied| && IndexedIn(applied[k].fields, name)
  }

  predicate IndexedIn(fields: seq<Field>, name: string) {
    exists i :: 0 <= i < |fields| && !fields[i].fromOverlay && fields[i].name == name && fields[i].index
  }

  ghost predicate Inv(db: Db) {
    && (db.table.Some? <==> db.applied != [])
    && (forall i :: 0 <= i < |db.applied| ==> DistinctNames(db.applied[i].fields))
    && (forall i, j :: 0 <= i < j < |db.applied| ==> db.applied[i].version < db.applied[j].version)
    && (db.table.Some? ==>
          && Shape(db.table.value, db.applied[|db.applied| - 1].fields)
          && forall name :: name in db.table.value.indexes <==> name == "tenant_id" || EverIndexed(db.applied, name))
  }

  // ---- What every run keeps ----

  lemma {:induction false} GenerateShape(fields: seq<Field>)
    requires DistinctNames(fields)
    ensures Generate(fields).Some? <==>
            forall i :: 0 <= i < |fields| && !fields[i].fromOverlay ==> ColumnType(fields[i].kind).Some? && fields[i].name !in SYSTEM
    ensures Generate(fields).Some? ==>
              && Shape(Generate(fields).value, fields)
              && forall name :: name in Generate(fields).value.indexes <==> name == "tenant_id" || IndexedIn(fields, name)
  {
    if fields != [] {
      var init, last := fields[..|fields| - 1], fields[|fields| - 1];
      GenerateShape(init);
      assert fields == init + [last];
      if Generate(init).Some? {
        GenerateNext(Generate(init).value, init, last);
      }
    }
  }

  lemma GenerateNext(t: Table, init: seq<Field>, last: Field)
    requires DistinctNames(init + [last]) && Shape(t, init)
    requires forall name :: name in t.indexes <==> name == "tenant_id" || IndexedIn(init, name)
    ensures !last.fromOverlay ==> (last.name in t.columns <==> last.name in SYSTEM)
    ensures last.fromOverlay ==> Shape(t, init + [last]) && forall name :: name in t.indexes <==> name == "tenant_id" || IndexedIn(init + [last], name)
    ensures
      !last.fromOverlay && ColumnType(last.kind).Some? && last.name !in t.columns ==>
        var t' := Table(t.columns[last.name := ColumnOf(last)], if last.index then t.indexes + {last.name} else t.indexes);
        && Shape(t', init + [last])
        && forall name :: name in t'.indexes <==> name == "tenant_id" || IndexedIn(init + [last], name)
  {
    forall name ensures CoreName(init + [last], name) <==> CoreName(init, name) || (!last.fromOverlay && last.name == name)
      ensures IndexedIn(init + [last], name) <==> IndexedIn(init, name) || (!last.fromOverlay && last.name == name && last.index)
    {
      NamesSplit(map[], init, last, name);
      IndexedSplit(init, last, name);
    }
    assert forall i :: 0 <= i < |init| ==> (init + [last])[i] == init[i];
    assert (init + [last])[|init|] == last && !CoreName(init, last.name);
  }

  lemma IndexedSplit(init: seq<Field>, last: Field, name: string)
    ensures IndexedIn(init + [last], name) <==> IndexedIn(init, name) || (!last.fromOverlay && last.name == name && last.index)
  {
    assert forall i :: 0 <= i < |init| ==> (init + [last])[i] == init[i];
    assert (init + [last])[|init|] == last;
  }

  /** A new core field takes a system column's name, or an index is declared anew on a field that had
      one in some earlier version. */
  ghost predicate Collides(db: Db, fields: seq<Field>)
    requires db.applied != []
  {
    var prev := CoreFieldMap(db.applied[|db.applied| - 1].fields);
    exists i :: 0 <= i < |fields| && !fields[i].fromOverlay &&
      ((fields[i].name !in prev && fields[i].name in SYSTEM) || (AddsIndex(prev, fields[i]) && EverIndexed(db.applied, fields[i].name)))
  }

  lemma ShapeHolds(t: Table, fields: seq<Field>)
    requires Shape(t, fields) && DistinctNames(fields)
    ensures HoldsAll(t, CoreFieldMap(fields))
  {
    var prev := CoreFieldMap(fields);
    forall name | name in prev ensures HoldsPrevious(t, prev, prev[name]) && prev[name].name == name {
      var i :| 0 <= i < |fields| && fields[i].name == name && !fields[i].fromOverlay;
      assert prev[fields[i].name] == fields[i];
    }
  }

  lemma ClashIsCollision(db: Db, fields: seq<Field>)
    requires Inv(db) && db.applied != []
    ensures AnyClash(db.table.value, CoreFieldMap(db.applied[|db.applied| - 1].fields), fields) <==> Collides(db, fields)
  {
    var t, last := db.table.value, db.applied[|db.applied| - 1].fields;
    var prev := CoreFieldMap(last);
    forall i | 0 <= i < |fields| && !fields[i].fromOverlay
      ensures Clashes(t, prev, fields[i]) <==>
              (fields[i].name !in prev && fields[i].name in SYSTEM) || (AddsIndex(prev, fields[i]) && EverIndexed(db.applied, fields[i].name))
    {
      var name := fields[i].name;
      assert CoreName(last, name) <==> name in prev;
      if AddsIndex(prev, fields[i]) && name == "tenant_id" {
        assert name in SYSTEM;
      }
    }
  }

  /** A later version is recorded exactly when it advances the last one, is not destructive, and
      collides with no system column and no index of any earlier version. */
  lemma ApplyExactly(db: Db, fields: seq<Field>, version: int)
    requires Inv(db) && DistinctNames(fields) && db.applied != [] && !IsApplied(db, version)
    requires db.applied[|db.applied| - 1].version != 0
    ensures
      var last := db.applied[|db.applied| - 1];
      Apply(db, fields, version).1 == Recorded <==> last.version < version && Accepted(last.fields, fields) && !Collides(db, fields)
    ensures Apply(db, fields, version).1 == Recorded ==>
              Evolved(db.table.value, Apply(db, fields, version).0.table.value, CoreFieldMap(db.applied[|db.applied| - 1].fields), fields)
  {
    var last := db.applied[|db.applied| - 1];
    var prev := CoreFieldMap(last.fields);
    PlanExactly(last.fields, fields, last.version, version);
    if last.version < version && Accepted(last.fields, fields) {
      ShapeHolds(db.table.value, last.fields);
      ExecFields(db.table.value, prev, fields);
      ClashIsCollision(db, fields);
    }
  }

  lemma EverIndexedAppend(applied: seq<Applied>, a: Applied, name: string)
    ensures EverIndexed(applied + [a], name) <==> EverIndexed(applied, name) || IndexedIn(a.fields, name)
  {
    var all := applied + [a];
    assert forall k :: 0 <= k < |applied| ==> all[k] == applied[k];
    assert all[|applied|] == a;
  }

  /** Recording a version leaves the table in the shape of its schema. */
  lemma RecordedShape(t: Table, t': Table, last: seq<Field>, fields: seq<Field>)
    requires Shape(t, last) && DistinctNames(fields)
    requires Accepted(last, fields) && Evolved(t, t', CoreFieldMap(last), fields)
    requires forall i :: 0 <= i < |fields| && !fields[i].fromOverlay ==> fields[i].name in CoreFieldMap(last) || fields[i].name !in SYSTEM
    ensures Shape(t', fields)
  {
    var prev := CoreFieldMap(last);
    forall name ensures name in t'.columns <==> name in SYSTEM || CoreName(fields, name) {
      if !CoreName(fields, name) {
        assert CoreName(last, name) <==> name in prev;
        assert name in prev ==> name in CoreFieldMap(fields);
      }
    }
    forall name | name in SYSTEM ensures name in t'.columns && t'.columns[name] == SYSTEM[name] && !CoreName(fields, name) {
      if CoreName(fields, name) {
        assert name in prev;
        assert CoreName(last, name);
        assert false;
      }
    }
  }

  lemma RecordedIndexes(db: Db, t': Table, fields: seq<Field>, version: int)
    requires Inv(db) && db.applied != [] && DistinctNames(fields)
    requires Evolved(db.table.value, t', CoreFieldMap(db.applied[|db.applied| - 1].fields), fields)
    ensures forall name :: name in t'.indexes <==> name == "tenant_id" || EverIndexed(db.applied + [Applied(version, fields)], name)
  {
    var last := db.applied[|db.applied| - 1];
    var prev := CoreFieldMap(last.fields);
    forall name ensures name in t'.indexes <==> name == "tenant_id" || EverIndexed(db.applied + [Applied(version, fields)], name) {
      EverIndexedAppend(db.applied, Applied(version, fields), name);
      if IndexedIn(fields, name) && !IndexPlanned(prev, fields, name) {
        var i :| 0 <= i < |fields| && !fields[i].fromOverlay && fields[i].name == name && fields[i].index;
        assert !AddsIndex(prev, fields[i]);
        assert prev[name] in last.fields;
        var j :| 0 <= j < |last.fields| && last.fields[j] == prev[name];
        assert IndexedIn(last.fields, name);
      }
      if IndexPlanned(prev, fields, name) {
        assert IndexedIn(fields, name);
      }
    }
  }

  lemma ApplyKeepsInv(db: Db, fields: seq<Field>, version: int)
    requires Inv(db) && DistinctNames(fields)
    ensures Inv(Apply(db, fields, version).0)
  {
    var db' := Apply(db, fields, version).0;
    if Apply(db, fields, version).1 == Recorded {
      assert db'.applied == db.applied + [Applied(version, fields)];
      if db.applied == [] {
        GenerateShape(fields);
        forall name ensures EverIndexed(db'.applied, name) <==> IndexedIn(fields, name) {
          EverIndexedAppend([], Applied(version, fields), name);
          assert [] + [Applied(version, fields)] == db'.applied;
        }
      } else {
        RecordedInv(db, fields, version);
      }
    }
  }

  lemma RecordedInv(db: Db, fields: seq<Field>, version: int)
    requires Inv(db) && DistinctNames(fields) && db.applied != [] && Apply(db, fields, version).1 == Recorded
    ensures Inv(Apply(db, fields, version).0)
  {
    var db' := Apply(db, fields, version).0;
    var last := db.applied[|db.applied| - 1];
    ApplyExactly(db, fields, version);
    NoSystemName(db, fields);
    RecordedShape(db.table.value, db'.table.value, last.fields, fields);
    RecordedIndexes(db, db'.table.value, fields, version);
    assert forall i :: 0 <= i < |db.applied| ==> db.applied[i].version <= last.version;
  }

  lemma NoSystemName(db: Db, fields: seq<Field>)
    requires db.applied != [] && !Collides(db, fields)
    ensures forall i :: 0 <= i < |fields| && !fields[i].fromOverlay ==>
              fields[i].name in CoreFieldMap(db.applied[|db.applied| - 1].fields) || fields[i].name !in SYSTEM
  {
  }

  datatype Migration = Migration(version: int, fields: seq<Field>)

  function Run(db: Db, ms: seq<Migration>): Db {
    if ms == [] then db
    else Apply(Run(db, ms[..|ms| - 1]), ms[|ms| - 1].fields, ms[|ms| - 1].version).0
  }

  predicate AllDistinct(ms: seq<Migration>) {
    forall i :: 0 <= i < |ms| ==> DistinctNames(ms[i].fields)
  }

  /** Over every sequence of attempted versions, the physical columns are those of the last recorded
      schema, and there is one index per field that any recorded schema indexed. */
  lemma {:induction false} RunKeepsInv(ms: seq<Migration>)
    requires AllDistinct(ms)
    ensures Inv(Run(EMPTY_DB, ms))
  {
    if ms != [] {
      RunKeepsInv(ms[..|ms| - 1]);
      ApplyKeepsInv(Run(EMPTY_DB, ms[..|ms| - 1]), ms[|ms| - 1].fields, ms[|ms| - 1].version);
    }
  }

  /** No column is dropped, narrowed or tightened. */
  ghost predicate Grows(t: Table, t': Table) {
    forall name :: name in t.columns ==>
      && name in t'.columns
      && (t'.columns[name].sql == t.columns[name].sql || t'.columns[name].sql == TEXT)
      && (t'.columns[name].notNull ==> t.columns[name].notNull)
  }

  lemma ApplyGrows(db: Db, fields: seq<Field>, version: int)
    requires Inv(db) && DistinctNames(fields) && db.table.Some?
    ensures Apply(db, fields, version).0.table.Some? && Grows(db.table.value, Apply(db, fields, version).0.table.value)
  {
    if Apply(db, fields, version).1 == Recorded {
      ApplyExactly(db, fields, version);
      var last := db.applied[|db.applied| - 1];
      EvolvedGrows(db.table.value, Apply(db, fields, version).0.table.value, last.fields, fields);
    }
  }

  lemma EvolvedGrows(t: Table, t': Table, last: seq<Field>, fields: seq<Field>)
    requires Shape(t, last) && DistinctNames(last) && Accepted(last, fields) && Evolved(t, t', CoreFieldMap(last), fields)
    requires forall i :: 0 <= i < |fields| && !fields[i].fromOverlay && fields[i].name in SYSTEM ==> fields[i].name in CoreFieldMap(last)
    ensures Grows(t, t')
  {
    var prev := CoreFieldMap(last);
    forall name | name in t.columns
      ensures name in t'.columns && (t'.columns[name].sql == t.columns[name].sql || t'.columns[name].sql == TEXT)
              && (t'.columns[name].notNull ==> t.columns[name].notNull)
    {
      if CoreName(fields, name) {
        var i :| 0 <= i < |fields| && !fields[i].fromOverlay && fields[i].name == name;
        assert CoreName(last, name) || name in SYSTEM;
        PreviousColumn(t, last, name);
        ColumnGrows(prev, fields[i]);
      }
    }
  }

  lemma PreviousColumn(t: Table, last: seq<Field>, name: string)
    requires Shape(t, last) && name in CoreFieldMap(last)
    ensures var f := CoreFieldMap(last)[name]; ColumnType(f.kind).Some? && name in t.columns && t.columns[name] == ColumnOf(f)
  {
    assert CoreFieldMap(last)[name] in last;
  }

  lemma ColumnGrows(prev: map<string, Field>, f: Field)
    requires FieldAccepted(prev, f) && f.name in prev
    ensures ColumnOf(f).sql == ColumnOf(prev[f.name]).sql || ColumnOf(f).sql == TEXT
    ensures ColumnOf(f).notNull ==> ColumnOf(prev[f.name]).notNull
  {
  }

  lemma {:induction false} RunGrows(db: Db, ms: seq<Migration>)
    requires Inv(db) && db.table.Some? && AllDistinct(ms)
    ensures Inv(Run(db, ms)) && Run(db, ms).table.Some? && Grows(db.table.value, Run(db, ms).table.value)
  {
    if ms != [] {
      var init, m := ms[..|ms| - 1], ms[|ms| - 1];
      RunGrows(db, init);
      ApplyKeepsInv(Run(db, init), m.fields, m.version);
      ApplyGrows(Run(db, init), m.fields, m.version);
    }
  }

  /** Applying a version again changes nothing, whatever happened in between. */
  lemma {:induction false} ReapplyUnchanged(db: Db, fields: seq<Field>, version: int, ms: seq<Migration>)
    requires Apply(db, fields, version).1 != Refused
    ensures
      var later := Run(Apply(db, fields, version).0, ms);
      IsApplied(later, version) && Apply(later, fields, version) == (later, Unchanged)
  {
    if ms == [] {
      var db' := Apply(db, fields, version).0;
      if Apply(db, fields, version).1 == Recorded {
        assert db'.applied[|db.applied|].version == version;
      }
    } else {
      var before := Run(Apply(db, fields, version).0, ms[..|ms| - 1]);
      ReapplyUnchanged(db, fields, version, ms[..|ms| - 1]);
      var i :| 0 <= i < |before.applied| && before.applied[i].version == version;
      assert Run(Apply(db, fields, version).0, ms).applied[i] == before.applied[i];
    }
  }

  /** A recorded version 0 counts as nothing applied: the table is generated again, and refused. */
  lemma ZeroBlocks(db: Db, fields: seq<Field>, version: int)
    requires Inv(db) && db.applied != [] && db.applied[|db.applied| - 1].version == 0 && !IsApplied(db, version)
    ensures Apply(db, fields, version) == (db, Refused)
  {
  }

  /** So once version 0 is the last one recorded, the object never evolves again. */
  lemma {:induction false} ZeroBlocksForever(db: Db, ms: seq<Migration>)
    requires Inv(db) && db.applied != [] && db.applied[|db.applied| - 1].version == 0
    ensures Run(db, ms) == db
  {
    if ms != [] {
      ZeroBlocksForever(db, ms[..|ms| - 1]);
      var m := ms[|ms| - 1];
      if !IsApplied(db, m.version) { ZeroBlocks(db, m.fields, m.version); }
    }
  }

  /** Removing an index and declaring it again later is accepted as a plan and refused by the database. */
  lemma RedeclaredIndexFails(db: Db, fields: seq<Field>, version: int, i: nat)
    requires Inv(db) && DistinctNames(fields) && db.applied != [] && !IsApplied(db, version)
    requires i < |fields| && !fields[i].fromOverlay && EverIndexed(db.applied, fields[i].name)
    requires AddsIndex(CoreFieldMap(db.applied[|db.applied| - 1].fields), fields[i])
    ensures Apply(db, fields, version) == (db, Refused)
  {
    if db.applied[|db.applied| - 1].version == 0 {
      ZeroBlocks(db, fields, version);
    } else {
      CollisionRefused(db, fields, version, i);
      NotRecorded(db, fields, version);
    }
  }

  lemma NotRecorded(db: Db, fields: seq<Field>, version: int)
    requires !IsApplied(db, version) && Apply(db, fields, version).1 != Recorded
    ensures Apply(db, fields, version) == (db, Refused)
  {
  }

  lemma CollisionRefused(db: Db, fields: seq<Field>, version: int, i: nat)
    requires Inv(db) && DistinctNames(fields) && db.applied != [] && !IsApplied(db, version)
    requires db.applied[|db.applied| - 1].version != 0
    requires i < |fields| && !fields[i].fromOverlay && EverIndexed(db.applied, fields[i].name)
    requires AddsIndex(CoreFieldMap(db.applied[|db.applied| - 1].fields), fields[i])
    ensures Apply(db, fields, version).1 != Recorded
  {
    SomeCollision(db, fields, i);
    ApplyExactly(db, fields, version);
  }

  lemma SomeCollision(db: Db, fields: seq<Field>, i: nat)
    requires db.applied != [] && i < |fields| && !fields[i].fromOverlay && EverIndexed(db.applied, fields[i].name)
    requires AddsIndex(CoreFieldMap(db.applied[|db.applied| - 1].fields), fields[i])
    ensures Collides(db, fields)
  {
  }

  /** In every reachable database each core field of the last schema has the column its declaration asks
      for: an integer for a whole number and for nothing else, and so on, NOT NULL exactly when it is required. */
  lemma {:induction false} ColumnsAsDeclared(db: Db, i: nat)
    requires Inv(db) && db.applied != []
    requires var fields := db.applied[|db.applied| - 1].fields; i < |fields| && !fields[i].fromOverlay
    ensures
      var f, columns := db.applied[|db.applied| - 1].fields[i], db.table.value.columns;
      && f.kind != Rows && f.name in columns && columns[f.name].notNull == f.required
      && (columns[f.name].sql == INT <==> f.kind == Whole)
      && (columns[f.name].sql == BOOLEAN <==> f.kind == Boolean)
      && (columns[f.name].sql == TIMESTAMPTZ <==> f.kind in {Date, Datetime})
  {
  }

  class MigrationTable {
    var table: Option<Table>
    var applied: seq<Applied>

    function State(): Db
      reads this
    {
      Db(table, applied)
    }

    constructor ()
      ensures State() == EMPTY_DB && Inv(State())
    {
      table, applied := None, [];
    }

    method ApplyDDL(fields: seq<Field>, version: int) returns (outcome: Outcome)
      requires Inv(State()) && DistinctNames(fields)
      modifies this
      ensures Inv(State()) && (State(), outcome) == Apply(old(State()), fields, version)
      ensures outcome == Unchanged <==> exists i :: 0 <= i < |old(applied)| && old(applied)[i].version == version
      ensures if outcome == Recorded then table.Some? && applied == old(applied) + [Applied(version, fields)]
              else State() == old(State())
    {
      ApplyKeepsInv(State(), fields, version);
      if IsApplied(State(), version) {
        return Unchanged;
      }
      var next: Option<Table> := None;
      if applied == [] || applied[|applied| - 1].version == 0 {
        if table.None? {
          next := Generate(fields);
        }
      } else {
        var last := applied[|applied| - 1];
        var plan := PlanEvolution(last.fields, fields, last.version, version);
        if plan.Plan? && table.Some? {
          next := ExecAll(table.value, plan.steps);
        }
      }
      if next.None? {
        return Refused;
      }
      table, applied := next, applied + [Applied(version, fields)];
      return Recorded;
    }
  }
}
