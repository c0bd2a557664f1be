/**
 How a record of a fixed schema is stored: core fields as columns, overlay fields and translations in
 one blob. The stored row refines a plain map from field names to values.
 */
module RowRepr {
  import opened Schema
  import opened Wrappers

  datatype Value = Nil | Str(s: string) | Int(n: int) | Bool(b: bool) | Instant(t: nat) | Document(json: string)

  /** Per field, per locale. */
  type Translations = map<string, map<string, string>>

  datatype BlobEntry = Plain(v: Value) | Texts(t: Translations)

  datatype Row = Row(id: Value, tenant: Value, created: Value, updated: Value, archived: Option<Value>,
                     columns: map<string, Value>, blob: map<string, BlobEntry>)

  /** A record as callers see it; the translations travel under their reserved key. */
  datatype Record = Record(values: map<string, Value>, translations: Option<Translations>)

  /** What a column of a field, and the blob, give back for a value stored in them: an int in the blob
      comes back as a JSON number, a time as text. */
  datatype Codec = Codec(column: (string, Value) -> Value, blob: Value -> Value)

  /** Nothing reads back as nothing, and what the blob gives back it stores unchanged. */
  ghost predicate Lawful(c: Codec) {
    && c.blob(Nil) == Nil
    && (forall v :: c.blob(c.blob(v)) == c.blob(v))
    && (forall name: string :: c.column(name, Nil) == Nil)
  }

  function CoreNames(fields: seq<Field>): (r: set<string>)
    ensures forall name :: name in r <==> exists i :: 0 <= i < |fields| && !fields[i].fromOverlay && fields[i].name == name
  {
    set i | 0 <= i < |fields| && !fields[i].fromOverlay :: fields[i].name
  }

  function OverlayNames(fields: seq<Field>): (r: set<string>)
    ensures forall name :: name in r <==> exists i :: 0 <= i < |fields| && fields[i].fromOverlay && fields[i].name == name
  {
    set i | 0 <= i < |fields| && fields[i].fromOverlay :: fields[i].name
  }

  /** Absent and nil are the same. */
  function Look(values: map<string, Value>, name: string): Value {
    if name in values then values[name] else Nil
  }

  // ---- Translations ----

  function NonEmptyTexts(byLocale: map<string, string>): map<string, string> {
    map locale | locale in byLocale && byLocale[locale] != "" :: byLocale[locale]
  }

  /** Empty texts, and fields left with none, are dropped. */
  function Clean(t: Translations): Translations {
    map field | field in t && NonEmptyTexts(t[field]) != map[] :: NonEmptyTexts(t[field])
  }

  /** What is stored: nothing at all rather than an empty object. */
  function BlobValue(t: Translations): Option<Translations> {
    if Clean(t) == map[] then None else Some(Clean(t))
  }

  lemma CleanTwice(t: Translations)
    ensures Clean(Clean(t)) == Clean(t)
  {
    forall field | field in Clean(t) ensures NonEmptyTexts(Clean(t)[field]) == Clean(t)[field] {
      var texts := Clean(t)[field];
      assert forall locale :: locale in texts ==> texts[locale] != "";
    }
  }

  predicate HasText(t: Option<Translations>, field: string, locale: string, text: string) {
    t.Some? && field in t.value && locale in t.value[field] && t.value[field][locale] == text
  }

  /** Some locale has a text for the field, and it is not empty. */
  ghost predicate Translated(t: Option<Translations>, field: string) {
    exists locale, text :: HasText(t, field, locale, text) && text != ""
  }

  /** Every text given that is not empty, and nothing else: no empty text, no field without one, and
      nothing at all where none was given. */
  ghost predicate TextsOf(read: Option<Translations>, given: Option<Translations>) {
    && (forall field, locale, text :: HasText(read, field, locale, text) <==> HasText(given, field, locale, text) && text != "")
    && (forall field :: read.Some? && field in read.value <==> Translated(given, field))
    && (read.Some? <==> exists field :: Translated(given, field))
  }

  lemma StoredTexts(t: Translations)
    ensures TextsOf(BlobValue(t), Some(t))
  {
    var read, given := BlobValue(t), Some(t);
    forall field, locale, text
      ensures HasText(read, field, locale, text) <==> HasText(given, field, locale, text) && text != ""
    {
      if HasText(given, field, locale, text) && text != "" {
        assert locale in NonEmptyTexts(t[field]);
        assert field in Clean(t);
      }
    }
    forall field ensures read.Some? && field in read.value <==> Translated(given, field) {
      if field in Clean(t) {
        var locale :| locale in NonEmptyTexts(t[field]);
        assert HasText(given, field, locale, t[field][locale]);
      }
    }
    if read.Some? {
      var field :| field in read.value;
      assert Translated(given, field);
    }
    if field :| Translated(given, field) {
      assert field in Clean(t);
    }
  }

  lemma GivenTexts(given: Option<Translations>, read: Option<Translations>)
    requires read == match given case None => None case Some(t) => BlobValue(t)
    ensures TextsOf(read, given)
  {
    if given.Some? { StoredTexts(given.value); }
  }

  // ---- Reading ----

  function SystemValues(row: Row): map<string, Value> {
    var values := map["id" := row.id, "tenant_id" := row.tenant, "created_at" := row.created, "updated_at" := row.updated];
    if row.archived.Some? then values["archived_at" := row.archived.value] else values
  }

  const SYSTEM_KEYS: set<string> := {"id", "tenant_id", "created_at", "updated_at", "archived_at"}

  function TranslationsFromBlob(blob: map<string, BlobEntry>): Option<Translations> {
    if BLOB_KEY in blob && blob[BLOB_KEY].Texts? && blob[BLOB_KEY].t != map[] then Some(blob[BLOB_KEY].t) else None
  }

  function CoreValues(c: Codec, fields: seq<Field>, columns: map<string, Value>): (r: map<string, Value>)
    ensures forall name :: name in r <==> name in CoreNames(fields)
    ensures forall name :: name in r ==> r[name] == c.column(name, Look(columns, name))
  {
    map name | name in CoreNames(fields) :: c.column(name, Look(columns, name))
  }

  function OverlayValues(c: Codec, fields: seq<Field>, blob: map<string, BlobEntry>): (r: map<string, Value>)
    ensures forall name :: name in r <==> name in OverlayNames(fields) && name in blob && blob[name].Plain?
    ensures forall name :: name in r ==> r[name] == c.blob(blob[name].v)
  {
    map name | name in OverlayNames(fields) && name in blob && blob[name].Plain? :: c.blob(blob[name].v)
  }

  /** A row as a record: system values, then core fields, then the overlay fields the blob holds. */
  function Read(c: Codec, fields: seq<Field>, row: Row): Record {
    Record(SystemValues(row) + CoreValues(c, fields, row.columns) + OverlayValues(c, fields, row.blob),
           TranslationsFromBlob(row.blob))
  }

  // ---- Writing ----

  function WithTranslations(blob: map<string, BlobEntry>, t: Option<Translations>): map<string, BlobEntry> {
    if t.Some? && BlobValue(t.value).Some? then blob[BLOB_KEY := Texts(BlobValue(t.value).value)] else blob - {BLOB_KEY}
  }

  /** The named values among `names`. */
  function Picked(names: set<string>, values: map<string, Value>): (r: map<string, Value>)
    ensures forall name :: name in r <==> name in names && name in values
    ensures forall name :: name in r ==> r[name] == values[name]
  {
    map name | name in names && name in values :: values[name]
  }

  function Entries(names: set<string>, values: map<string, Value>): (r: map<string, BlobEntry>)
    ensures forall name :: name in r <==> name in names && name in values
    ensures forall name :: name in r ==> r[name] == Plain(values[name])
  {
    map name | name in names && name in values :: Plain(values[name])
  }

  function AllColumns(names: set<string>, values: map<string, Value>): (r: map<string, Value>)
    ensures forall name :: name in r <==> name in names
    ensures forall name :: name in r ==> r[name] == Look(values, name)
  {
    map name | name in names :: Look(values, name)
  }

  /** The row a create inserts: every core column, and the overlay fields the record names. */
  function NewRow(fields: seq<Field>, rec: Record, id: Value, tenant: Value, now: Value): Row {
    Row(id, tenant, now, now, None, AllColumns(CoreNames(fields), rec.values),
        WithTranslations(map[], rec.translations) + Entries(OverlayNames(fields), rec.values))
  }

  /** The blob an update starts from: whatever the row gives back for overlay fields and translations. */
  function Seed(fields: seq<Field>, current: Record): map<string, BlobEntry> {
    WithTranslations(Entries(OverlayNames(fields), current.values), current.translations)
  }

  predicate TouchesAny(names: set<string>, values: map<string, Value>) {
    exists name :: name in names && name in values
  }

  predicate TouchesBlob(fields: seq<Field>, changes: Record) {
    changes.translations.Some? || TouchesAny(OverlayNames(fields), changes.values)
  }

  function ChangedBlob(fields: seq<Field>, current: Record, changes: Record): map<string, BlobEntry> {
    (if changes.translations.Some? then WithTranslations(Seed(fields, current), changes.translations) else Seed(fields, current))
    + Entries(OverlayNames(fields), changes.values)
  }

  function ChangedRow(c: Codec, fields: seq<Field>, row: Row, changes: Record, now: Value): Row {
    row.(columns := row.columns + Picked(CoreNames(fields), changes.values),
         updated := now,
         blob := if TouchesBlob(fields, changes) then ChangedBlob(fields, Read(c, fields, row), changes) else row.blob)
  }

  // ---- The row refines a map ----

  /** What the field gives back for a stored value. */
  function Stored(c: Codec, fields: seq<Field>, name: string, v: Value): Value {
    if name in OverlayNames(fields) then c.blob(v) else c.column(name, v)
  }

  predicate IsField(fields: seq<Field>, name: string) {
    name in CoreNames(fields) || name in OverlayNames(fields)
  }

  /** Names are distinct and none is reserved for translations. A name may be a system key. */
  ghost predicate Proper(fields: seq<Field>) {
    && CoreNames(fields) !! OverlayNames(fields)
    && (forall name :: IsField(fields, name) ==> !Reserved(name))
  }

  lemma ValidFieldsProper(fields: seq<Field>)
    requires DistinctNames(fields) && forall i :: 0 <= i < |fields| ==> FieldValid(fields[i])
    ensures Proper(fields)
  {
    forall name | name in CoreNames(fields) ensures name !in OverlayNames(fields) {
    }
  }

  /** The blob holds a value for an overlay field of this name. */
  predicate Held(fields: seq<Field>, blob: map<string, BlobEntry>, name: string) {
    name in OverlayNames(fields) && name in blob && blob[name].Plain?
  }

  lemma ReadCore(c: Codec, fields: seq<Field>, row: Row, name: string)
    requires name in CoreNames(fields) && name !in OverlayNames(fields)
    ensures Look(Read(c, fields, row).values, name) == c.column(name, Look(row.columns, name))
  {
  }

  lemma ReadOverlay(c: Codec, fields: seq<Field>, row: Row, name: string)
    requires name !in CoreNames(fields)
    ensures name in Read(c, fields, row).values <==> Held(fields, row.blob, name) || name in SystemValues(row)
    ensures
      Look(Read(c, fields, row).values, name)
      == if Held(fields, row.blob, name) then c.blob(row.blob[name].v) else Look(SystemValues(row), name)
  {
  }

  lemma NotBlobKey(fields: seq<Field>)
    requires Proper(fields)
    ensures BLOB_KEY !in OverlayNames(fields)
  {
    assert Reserved(BLOB_KEY);
    assert BLOB_KEY in OverlayNames(fields) ==> IsField(fields, BLOB_KEY);
  }

  /** The system values of a new row; nil under any other name. */
  function Preset(id: Value, tenant: Value, now: Value, key: string): Value {
    if key == "id" then id
    else if key == "tenant_id" then tenant
    else if key == "created_at" || key == "updated_at" then now
    else Nil
  }

  lemma NewSystem(fields: seq<Field>, rec: Record, id: Value, tenant: Value, now: Value, key: string)
    ensures Look(SystemValues(NewRow(fields, rec, id, tenant, now)), key) == Preset(id, tenant, now, key)
  {
  }

  /** A new blob holds exactly the overlay fields the record names. */
  lemma NewEntry(fields: seq<Field>, rec: Record, id: Value, tenant: Value, now: Value, name: string)
    requires Proper(fields)
    ensures
      var blob := NewRow(fields, rec, id, tenant, now).blob;
      && (Held(fields, blob, name) <==> name in OverlayNames(fields) && name in rec.values)
      && (name in OverlayNames(fields) && name in rec.values ==> blob[name] == Plain(rec.values[name]))
  {
    NotBlobKey(fields);
  }

  /** After a create, every field reads as what the record held, absent as nil; but an overlay field the
      record does not name and a system key of its name read the same. */
  lemma GetAfterCreate(c: Codec, fields: seq<Field>, rec: Record, id: Value, tenant: Value, now: Value, name: string)
    requires Lawful(c) && Proper(fields) && IsField(fields, name)
    ensures
      Look(Read(c, fields, NewRow(fields, rec, id, tenant, now)).values, name)
      == if name in OverlayNames(fields) && name !in rec.values then Preset(id, tenant, now, name)
         else Stored(c, fields, name, Look(rec.values, name))
    ensures
      name !in SYSTEM_KEYS ==>
        Look(Read(c, fields, NewRow(fields, rec, id, tenant, now)).values, name) == Stored(c, fields, name, Look(rec.values, name))
  {
    var row := NewRow(fields, rec, id, tenant, now);
    NewSystem(fields, rec, id, tenant, now, name);
    if name in CoreNames(fields) {
      ReadCore(c, fields, row, name);
    } else {
      NewEntry(fields, rec, id, tenant, now, name);
      ReadOverlay(c, fields, row, name);
    }
  }

  /** ... and the translations as given, without their empty texts. */
  lemma TranslationsAfterCreate(c: Codec, fields: seq<Field>, rec: Record, id: Value, tenant: Value, now: Value)
    requires Proper(fields)
    ensures TextsOf(Read(c, fields, NewRow(fields, rec, id, tenant, now)).translations, rec.translations)
  {
    GivenTexts(rec.translations, Read(c, fields, NewRow(fields, rec, id, tenant, now)).translations) by {
      NewTexts(fields, rec);
    }
  }

  lemma NewTexts(fields: seq<Field>, rec: Record)
    requires Proper(fields)
    ensures
      TranslationsFromBlob(WithTranslations(map[], rec.translations) + Entries(OverlayNames(fields), rec.values))
      == match rec.translations case None => None case Some(t) => BlobValue(t)
  {
    NotBlobKey(fields);
  }

  /** What a read after a create gives under a system key is the system value, unless the record sets an
      overlay field of that name to another one. */
  lemma SystemAfterCreate(c: Codec, fields: seq<Field>, rec: Record, id: Value, tenant: Value, now: Value, key: string)
    requires Proper(fields) && key in SYSTEM_KEYS && key !in CoreNames(fields)
    ensures
      Look(Read(c, fields, NewRow(fields, rec, id, tenant, now)).values, key) == Preset(id, tenant, now, key)
      <==> (key in OverlayNames(fields) && key in rec.values ==> c.blob(rec.values[key]) == Preset(id, tenant, now, key))
  {
    NewEntry(fields, rec, id, tenant, now, key);
    NewSystem(fields, rec, id, tenant, now, key);
    ReadOverlay(c, fields, NewRow(fields, rec, id, tenant, now), key);
  }

  /** What the rows the engine writes satisfy: overlay entries are plain values, translations are clean. */
  ghost predicate WellFormed(blob: map<string, BlobEntry>) {
    && (forall name :: name in blob && name != BLOB_KEY ==> blob[name].Plain?)
    && (BLOB_KEY in blob ==> blob[BLOB_KEY].Texts? && blob[BLOB_KEY].t != map[] && Clean(blob[BLOB_KEY].t) == blob[BLOB_KEY].t)
  }

  lemma WithTranslationsWellFormed(blob: map<string, BlobEntry>, t: Option<Translations>)
    requires forall name :: name in blob && name != BLOB_KEY ==> blob[name].Plain?
    ensures WellFormed(WithTranslations(blob, t))
  {
    if t.Some? { CleanTwice(t.value); }
  }

  lemma EntriesWellFormed(blob: map<string, BlobEntry>, names: set<string>, values: map<string, Value>)
    requires WellFormed(blob) && BLOB_KEY !in names
    ensures WellFormed(blob + Entries(names, values))
  {
  }

  lemma NewRowWellFormed(fields: seq<Field>, rec: Record, id: Value, tenant: Value, now: Value)
    requires Proper(fields)
    ensures WellFormed(NewRow(fields, rec, id, tenant, now).blob)
  {
    NotBlobKey(fields);
    WithTranslationsWellFormed(map[], rec.translations);
    EntriesWellFormed(WithTranslations(map[], rec.translations), OverlayNames(fields), rec.values);
  }

  lemma ChangedBlobWellFormed(fields: seq<Field>, current: Record, changes: Record)
    requires Proper(fields)
    ensures WellFormed(ChangedBlob(fields, current, changes))
  {
    NotBlobKey(fields);
    WithTranslationsWellFormed(Entries(OverlayNames(fields), current.values), current.translations);
    var seed := Seed(fields, current);
    WithTranslationsWellFormed(seed, changes.translations);
    var texts := if changes.translations.Some? then WithTranslations(seed, changes.translations) else seed;
    EntriesWellFormed(texts, OverlayNames(fields), changes.values);
  }

  /** After an update, the changed fields read as given and every other field as before. The exception is
      an overlay field the blob does not hold: it reads the system value of its name, and an update that
      rewrites the blob stores into it what the row read before. */
  lemma GetAfterUpdate(c: Codec, fields: seq<Field>, row: Row, changes: Record, now: Value, name: string)
    requires Lawful(c) && Proper(fields) && WellFormed(row.blob) && IsField(fields, name)
    ensures
      var row' := ChangedRow(c, fields, row, changes, now);
      Look(Read(c, fields, row').values, name)
      == if name in changes.values then Stored(c, fields, name, changes.values[name])
         else if name in CoreNames(fields) || Held(fields, row.blob, name) then Look(Read(c, fields, row).values, name)
         else if TouchesBlob(fields, changes) then c.blob(Look(SystemValues(row), name))
         else Look(SystemValues(row.(updated := now)), name)
    ensures
      name !in SYSTEM_KEYS ==>
        Look(Read(c, fields, ChangedRow(c, fields, row, changes, now)).values, name)
        == if name in changes.values then Stored(c, fields, name, changes.values[name])
           else Look(Read(c, fields, row).values, name)
  {
    var row' := ChangedRow(c, fields, row, changes, now);
    if name in CoreNames(fields) {
      ReadCore(c, fields, row, name);
      ReadCore(c, fields, row', name);
    } else {
      ReadOverlay(c, fields, row, name);
      ReadOverlay(c, fields, row', name);
      if TouchesBlob(fields, changes) {
        NotBlobKey(fields);
        ChangedEntry(fields, Read(c, fields, row), changes, name);
      }
    }
  }

  /** What a rewritten blob holds for an overlay field. */
  lemma ChangedEntry(fields: seq<Field>, current: Record, changes: Record, name: string)
    requires name in OverlayNames(fields) && BLOB_KEY !in OverlayNames(fields)
    ensures
      var blob := ChangedBlob(fields, current, changes);
      && (name in blob <==> name in changes.values || name in current.values)
      && (name in changes.values ==> blob[name] == Plain(changes.values[name]))
      && (name !in changes.values && name in current.values ==> blob[name] == Plain(current.values[name]))
  {
    assert name != BLOB_KEY;
  }

  /** An update without translations leaves them alone; one with translations replaces them. */
  lemma TranslationsAfterUpdate(c: Codec, fields: seq<Field>, row: Row, changes: Record, now: Value)
    requires Proper(fields) && WellFormed(row.blob)
    ensures
      var read := Read(c, fields, ChangedRow(c, fields, row, changes, now)).translations;
      if changes.translations.None? then read == Read(c, fields, row).translations else TextsOf(read, changes.translations)
  {
    NotBlobKey(fields);
    if changes.translations.Some? { StoredTexts(changes.translations.value); }
    if TouchesBlob(fields, changes) {
      ChangedTexts(fields, Read(c, fields, row), changes);
    }
  }

  lemma ChangedTexts(fields: seq<Field>, current: Record, changes: Record)
    requires BLOB_KEY !in OverlayNames(fields)
    requires current.translations.Some? ==> current.translations.value != map[] && Clean(current.translations.value) == current.translations.value
    ensures
      TranslationsFromBlob(ChangedBlob(fields, current, changes))
      == match changes.translations
         case None => current.translations
         case Some(t) => BlobValue(t)
  {
  }

  /** What an update is meant to leave under a system key: only the updated time moves. */
  function Meant(row: Row, now: Value, key: string): Value {
    if key == "updated_at" then now else Look(SystemValues(row), key)
  }

  /** A read after an update gives that value exactly when no overlay field bears the key, or the value
      such a field ends up with is that value: the one given, else the one the blob holds, else, when the
      blob is rewritten, the system value the row had before. */
  lemma SystemAfterUpdate(c: Codec, fields: seq<Field>, row: Row, changes: Record, now: Value, key: string)
    requires Lawful(c) && Proper(fields) && WellFormed(row.blob) && key in SYSTEM_KEYS && key !in CoreNames(fields)
    ensures
      Look(Read(c, fields, ChangedRow(c, fields, row, changes, now)).values, key) == Meant(row, now, key)
      <==> (key in OverlayNames(fields) ==>
              if key in changes.values then c.blob(changes.values[key]) == Meant(row, now, key)
              else if Held(fields, row.blob, key) then c.blob(row.blob[key].v) == Meant(row, now, key)
              else TouchesBlob(fields, changes) ==> c.blob(Look(SystemValues(row), key)) == Meant(row, now, key))
  {
    ReadOverlay(c, fields, row, key);
    ReadOverlay(c, fields, ChangedRow(c, fields, row, changes, now), key);
    if key in OverlayNames(fields) {
      GetAfterUpdate(c, fields, row, changes, now, key);
    }
  }

  /** A field name is not checked against the system keys: what Get returns under such a key is the
      overlay field's value where the blob holds one, and the system's otherwise. */
  lemma SystemKeyShadowed(c: Codec, fields: seq<Field>, row: Row, key: string)
    requires key in SYSTEM_KEYS && key !in CoreNames(fields)
    ensures
      Look(Read(c, fields, row).values, key)
      == if Held(fields, row.blob, key) then c.blob(row.blob[key].v) else Look(SystemValues(row), key)
  {
  }

  datatype Step = Step(changes: Record, now: Value)

  /** Several updates of one row, each at its own time. */
  function ChangedRows(c: Codec, fields: seq<Field>, row: Row, updates: seq<Step>): Row
    decreases |updates|
  {
    if updates == [] then row
    else ChangedRows(c, fields, ChangedRow(c, fields, row, updates[0].changes, updates[0].now), updates[1..])
  }

  lemma {:induction false} HeldStays(c: Codec, fields: seq<Field>, row: Row, updates: seq<Step>, name: string)
    requires Lawful(c) && Proper(fields) && WellFormed(row.blob) && Held(fields, row.blob, name)
    requires forall i :: 0 <= i < |updates| ==> name !in updates[i].changes.values
    ensures Look(Read(c, fields, ChangedRows(c, fields, row, updates)).values, name) == c.blob(row.blob[name].v)
    decreases |updates|
  {
    ReadOverlay(c, fields, row, name);
    if updates != [] {
      var Step(changes, now) := updates[0];
      var next := ChangedRow(c, fields, row, changes, now);
      NotBlobKey(fields);
      ChangedEntry(fields, Read(c, fields, row), changes, name);
      ChangedBlobWellFormed(fields, Read(c, fields, row), changes);
      assert c.blob(next.blob[name].v) == c.blob(row.blob[name].v);
      HeldStays(c, fields, next, updates[1..], name);
    }
  }

  /** Nobody has to set such a field: an overlay field named like a system key takes the row's system value
      from the first update that rewrites the blob, and shows it after every later update that does not
      name it: one called updated_at goes on showing the old time. */
  lemma {:induction false} SystemValueFreezes(c: Codec, fields: seq<Field>, row: Row, changes: Record, now: Value, updates: seq<Step>, key: string)
    requires Lawful(c) && Proper(fields) && WellFormed(row.blob)
    requires key in SystemValues(row) && key in OverlayNames(fields) && key !in row.blob
    requires TouchesBlob(fields, changes) && key !in changes.values
    requires forall i :: 0 <= i < |updates| ==> key !in updates[i].changes.values
    ensures
      Look(Read(c, fields, ChangedRows(c, fields, ChangedRow(c, fields, row, changes, now), updates)).values, key)
      == c.blob(SystemValues(row)[key])
  {
    ReadOverlay(c, fields, row, key);
    NotBlobKey(fields);
    ChangedEntry(fields, Read(c, fields, row), changes, key);
    ChangedBlobWellFormed(fields, Read(c, fields, row), changes);
    HeldStays(c, fields, ChangedRow(c, fields, row, changes, now), updates, key);
  }

  /** So a set overlay field called archived_at makes a live record look archived. */
  lemma LiveLooksArchived(c: Codec, fields: seq<Field>, row: Row, v: Value)
    requires "archived_at" in OverlayNames(fields) && "archived_at" !in CoreNames(fields)
    requires row.archived.None? && "archived_at" in row.blob && row.blob["archived_at"] == Plain(v) && c.blob(v) != Nil
    ensures Look(Read(c, fields, row).values, "archived_at") != Nil == Look(SystemValues(row), "archived_at")
  {
    SystemKeyShadowed(c, fields, row, "archived_at");
  }

  // ---- Validation ----

  /** A field's rule returns the value to store, or nothing when it refuses. */
  type Rules = (Field, Value) -> Option<Value>

  predicate Absent(v: Value) {
    v == Nil || v == Str("")
  }

  /** The value to store for a present field; absence passes through untouched. */
  function Normal(rules: Rules, f: Field, v: Value): Option<Value> {
    if Absent(v) then Some(v) else rules(f, v)
  }

  /** A create checks every required field, an update only the fields it touches. */
  predicate FieldOk(rules: Rules, f: Field, values: map<string, Value>, partial: bool) {
    && (f.required && (f.name in values || !partial) ==> !Absent(Look(values, f.name)))
    && (f.name in values ==> Normal(rules, f, values[f.name]).Some?)
  }

  predicate Known(fields: seq<Field>, values: map<string, Value>) {
    forall name :: name in values ==> name == "id" || IsField(fields, name)
  }

  ghost predicate Conforms(fields: seq<Field>, rules: Rules, values: map<string, Value>, partial: bool) {
    Known(fields, values) && forall i :: 0 <= i < |fields| ==> FieldOk(rules, fields[i], values, partial)
  }

  /** `out` holds the same keys, each field's value normalized. */
  ghost predicate Normalized(fields: seq<Field>, rules: Rules, values: map<string, Value>, out: map<string, Value>) {
    && out.Keys == values.Keys
    && (forall name :: name in values && !IsField(fields, name) ==> out[name] == values[name])
    && (forall i :: 0 <= i < |fields| && fields[i].name in values ==>
          Some(out[fields[i].name]) == Normal(rules, fields[i], values[fields[i].name]))
  }

  /** Nothing, or an empty text. */
  predicate Blank(values: map<string, Value>, name: string) {
    name !in values || values[name] == Nil || values[name] == Str("")
  }

  /** A write is accepted exactly when every value names a field, or is the id, every required field has a
      value that is not blank, on an update only if it is touched, and every value that is not blank
      meets its field's rule. */
  lemma ConformsExactly(fields: seq<Field>, rules: Rules, values: map<string, Value>, partial: bool)
    ensures
      Conforms(fields, rules, values, partial) <==>
      && (forall name :: name in values ==> name == "id" || exists i :: 0 <= i < |fields| && fields[i].name == name)
      && (forall i :: 0 <= i < |fields| && fields[i].required && Blank(values, fields[i].name) ==>
            partial && fields[i].name !in values)
      && (forall i :: 0 <= i < |fields| && !Blank(values, fields[i].name) ==>
            rules(fields[i], values[fields[i].name]).Some?)
  {
    forall name ensures IsField(fields, name) <==> exists i :: 0 <= i < |fields| && fields[i].name == name {
    }
  }

  /** What is stored for each field: what its rule made of the value, a blank one untouched. */
  lemma NormalizedExactly(fields: seq<Field>, rules: Rules, values: map<string, Value>, partial: bool, out: map<string, Value>)
    requires Conforms(fields, rules, values, partial) && Normalized(fields, rules, values, out)
    ensures forall name :: name in out <==> name in values
    ensures forall i :: 0 <= i < |fields| && fields[i].name in values ==>
              var v := values[fields[i].name];
              out[fields[i].name] == if v == Nil || v == Str("") then v else rules(fields[i], v).value
    ensures "id" in values && !IsField(fields, "id") ==> out["id"] == values["id"]
  {
    forall i | 0 <= i < |fields| && fields[i].name in values
      ensures Normal(rules, fields[i], values[fields[i].name]).Some?
    {
      assert FieldOk(rules, fields[i], values, partial);
    }
  }

  method Validate(fields: seq<Field>, rules: Rules, values: map<string, Value>, partial: bool) returns (r: Option<map<string, Value>>)
    requires DistinctNames(fields)
    ensures r.Some? <==> Conforms(fields, rules, values, partial)
    ensures r.Some? ==> Normalized(fields, rules, values, r.value)
  {
    if !Known(fields, values) {
      return None;
    }
    var out := values;
    for k := 0 to |fields|
      invariant forall i :: 0 <= i < k ==> FieldOk(rules, fields[i], values, partial)
      invariant out.Keys == values.Keys
      invariant forall name :: name in values && !IsField(fields, name) ==> out[name] == values[name]
      invariant forall i :: 0 <= i < k && fields[i].name in values ==>
                  Some(out[fields[i].name]) == Normal(rules, fields[i], values[fields[i].name])
    {
      var f := fields[k];
      assert IsField(fields, f.name);
      if !FieldOk(rules, f, values, partial) {
        return None;
      }
      if f.name in values {
        out := out[f.name := Normal(rules, f, values[f.name]).value];
      }
    }
    return Some(out);
  }

  predicate LocalizedOnly(fields: seq<Field>, t: Translations) {
    forall name :: name in t ==> exists i :: 0 <= i < |fields| && fields[i].name == name && fields[i].localized
  }

  // ---- The engine ----

  lemma NamesNext(fields: seq<Field>, k: nat)
    requires k < |fields|
    ensures CoreNames(fields[..k + 1]) == CoreNames(fields[..k]) + if fields[k].fromOverlay then {} else {fields[k].name}
    ensures OverlayNames(fields[..k + 1]) == OverlayNames(fields[..k]) + if fields[k].fromOverlay then {fields[k].name} else {}
  {
    assert fields[..k + 1] == fields[..k] + [fields[k]];
    assert forall i :: 0 <= i < k ==> fields[..k + 1][i] == fields[..k][i];
    assert fields[..k + 1][k] == fields[k];
  }

  lemma ColumnsGrow(names: set<string>, name: string, values: map<string, Value>)
    ensures AllColumns(names + {name}, values) == AllColumns(names, values)[name := Look(values, name)]
  {
  }

  lemma PickedGrow(names: set<string>, name: string, values: map<string, Value>, was: map<string, Value>)
    ensures was + Picked(names + {name}, values) ==
            if name in values then (was + Picked(names, values))[name := values[name]] else was + Picked(names, values)
  {
  }

  lemma EntriesGrow(names: set<string>, name: string, values: map<string, Value>, texts: map<string, BlobEntry>)
    ensures texts + Entries(names + {name}, values) ==
            if name in values then (texts + Entries(names, values))[name := Plain(values[name])] else texts + Entries(names, values)
  {
  }

  /** Route each field of a record to its column or to the blob. */
  method RouteRecord(fields: seq<Field>, values: map<string, Value>, texts: map<string, BlobEntry>)
    returns (columns: map<string, Value>, custom: map<string, BlobEntry>)
    ensures columns == AllColumns(CoreNames(fields), values)
    ensures custom == texts + Entries(OverlayNames(fields), values)
  {
    columns, custom := map[], texts;
    ghost var core, overlay: set<string> := {}, {};
    for k := 0 to |fields|
      invariant core == CoreNames(fields[..k]) && overlay == OverlayNames(fields[..k])
      invariant columns == AllColumns(core, values)
      invariant custom == texts + Entries(overlay, values)
    {
      NamesNext(fields, k);
      var name := fields[k].name;
      if fields[k].fromOverlay {
        EntriesGrow(overlay, name, values, texts);
        overlay := overlay + {name};
        if name in values {
          custom := custom[name := Plain(values[name])];
        }
      } else {
        ColumnsGrow(core, name, values);
        core := core + {name};
        columns := columns[name := Look(values, name)];
      }
    }
    assert fields[..|fields|] == fields;
  }

  method BuildRow(fields: seq<Field>, rec: Record, id: Value, tenant: Value, now: Value) returns (row: Row)
    ensures row == NewRow(fields, rec, id, tenant, now)
  {
    var columns, custom := RouteRecord(fields, rec.values, WithTranslations(map[], rec.translations));
    return Row(id, tenant, now, now, None, columns, custom);
  }

  lemma TouchesGrow(names: set<string>, name: string, values: map<string, Value>)
    ensures TouchesAny(names + {name}, values) <==> TouchesAny(names, values) || name in values
  {
    if name in values { assert name in names + {name}; }
    if x :| x in names && x in values { assert x in names + {name}; }
  }

  /** Route only the touched fields. */
  method RouteChanges(fields: seq<Field>, values: map<string, Value>, was: map<string, Value>, texts: map<string, BlobEntry>)
    returns (columns: map<string, Value>, custom: map<string, BlobEntry>, touched: bool)
    ensures columns == was + Picked(CoreNames(fields), values)
    ensures custom == texts + Entries(OverlayNames(fields), values)
    ensures touched == TouchesAny(OverlayNames(fields), values)
  {
    columns, custom, touched := was, texts, false;
    ghost var core, overlay: set<string> := {}, {};
    for k := 0 to |fields|
      invariant core == CoreNames(fields[..k]) && overlay == OverlayNames(fields[..k])
      invariant columns == was + Picked(core, values)
      invariant custom == texts + Entries(overlay, values)
      invariant touched == TouchesAny(overlay, values)
    {
      NamesNext(fields, k);
      var name := fields[k].name;
      if fields[k].fromOverlay {
        EntriesGrow(overlay, name, values, texts);
        TouchesGrow(overlay, name, values);
        overlay := overlay + {name};
        if name in values {
          custom, touched := custom[name := Plain(values[name])], true;
        }
      } else {
        PickedGrow(core, name, values, was);
        core := core + {name};
        if name in values {
          columns := columns[name := values[name]];
        }
      }
    }
    assert fields[..|fields|] == fields;
  }

  /** The row after a change: set the touched columns, and rewrite the blob only if it was touched. */
  method BuildChange(c: Codec, fields: seq<Field>, row: Row, changes: Record, now: Value) returns (r: Row)
    requires Proper(fields) && WellFormed(row.blob)
    ensures r == ChangedRow(c, fields, row, changes, now) && WellFormed(r.blob)
  {
    ChangedBlobWellFormed(fields, Read(c, fields, row), changes);
    var seed := Seed(fields, Read(c, fields, row));
    var texts := if changes.translations.Some? then WithTranslations(seed, changes.translations) else seed;
    var columns, custom, touched := RouteChanges(fields, changes.values, row.columns, texts);
    return row.(columns := columns, updated := now,
                blob := if changes.translations.Some? || touched then custom else row.blob);
  }

  datatype Outcome = Done | Invalid | NotLocalized | IdTaken | NotFound

  /** The shared table of one object; ids are unique across tenants. */
  class Crud {
    const fields: seq<Field>
    const rules: Rules
    const codec: Codec
    var rows: map<string, Row>

    ghost predicate Valid()
      reads this
    {
      DistinctNames(fields) && Proper(fields) && Lawful(codec) && forall id :: id in rows ==> WellFormed(rows[id].blob)
    }

    constructor (fields: seq<Field>, rules: Rules, codec: Codec)
      requires DistinctNames(fields) && Proper(fields) && Lawful(codec)
      ensures Valid() && this.fields == fields && this.rules == rules && this.codec == codec && rows == map[]
    {
      this.fields, this.rules, this.codec := fields, rules, codec;
      rows := map[];
    }

    /** Validate a record and its translations. */
    method Prepare(rec: Record, partial: bool) returns (outcome: Outcome, stored: map<string, Value>)
      requires DistinctNames(fields)
      ensures outcome == if !Conforms(fields, rules, rec.values, partial) then Invalid
                         else if rec.translations.Some? && !LocalizedOnly(fields, rec.translations.value) then NotLocalized
                         else Done
      ensures outcome == Done && rec.translations.Some? ==>
                forall name :: name in rec.translations.value ==> exists i :: 0 <= i < |fields| && fields[i].name == name && fields[i].localized
      ensures outcome == NotLocalized ==>
                && rec.translations.Some?
                && exists name :: (name in rec.translations.value
                                   && forall i :: 0 <= i < |fields| && fields[i].name == name ==> !fields[i].localized)
      ensures outcome == Done ==> Normalized(fields, rules, rec.values, stored)
    {
      var values := Validate(fields, rules, rec.values, partial);
      if values.None? {
        return Invalid, map[];
      }
      if rec.translations.Some? && !LocalizedOnly(fields, rec.translations.value) {
        return NotLocalized, map[];
      }
      return Done, values.value;
    }

    /** Insert a record under `id`; the caller's id or a fresh one, already checked to be a UUIDv7. */
    method Create(tenant: string, id: string, rec: Record, now: Value) returns (outcome: Outcome, stored: map<string, Value>)
      requires Valid()
      modifies this`rows
      ensures Valid()
      ensures outcome != Done ==> rows == old(rows)
      ensures outcome == if !Conforms(fields, rules, rec.values, false) then Invalid
                         else if rec.translations.Some? && !LocalizedOnly(fields, rec.translations.value) then NotLocalized
                         else if id in old(rows) then IdTaken
                         else Done
      ensures outcome == Done ==>
                && Normalized(fields, rules, rec.values, stored)
                && rows == old(rows)[id := NewRow(fields, Record(stored, rec.translations), Str(id), Str(tenant), now)]
    {
      outcome, stored := Prepare(rec, false);
      if outcome != Done {
        return;
      }
      if id in rows {
        return IdTaken, stored;
      }
      var row := BuildRow(fields, Record(stored, rec.translations), Str(id), Str(tenant), now);
      NewRowWellFormed(fields, Record(stored, rec.translations), Str(id), Str(tenant), now);
      rows := rows[id := row];
    }

    /** One record by id, archived or not. */
    method Get(tenant: string, id: string) returns (r: Option<Record>)
      ensures r == if id in rows && rows[id].tenant == Str(tenant) then Some(Read(codec, fields, rows[id])) else None
    {
      if id in rows && rows[id].tenant == Str(tenant) {
        return Some(Read(codec, fields, rows[id]));
      }
      return None;
    }

    method Update(tenant: string, id: string, changes: Record, now: Value) returns (outcome: Outcome, stored: map<string, Value>)
      requires Valid()
      modifies this`rows
      ensures Valid()
      ensures outcome != Done ==> rows == old(rows)
      ensures outcome == if !Conforms(fields, rules, changes.values, true) then Invalid
                         else if changes.translations.Some? && !LocalizedOnly(fields, changes.translations.value) then NotLocalized
                         else if id !in old(rows) || old(rows)[id].tenant != Str(tenant) then NotFound
                         else Done
      ensures outcome == Done ==>
                && Normalized(fields, rules, changes.values, stored)
                && rows == old(rows)[id := ChangedRow(codec, fields, old(rows)[id], Record(stored, changes.translations), now)]
    {
      outcome, stored := Prepare(changes, true);
      if outcome != Done {
        return;
      }
      if id !in rows || rows[id].tenant != Str(tenant) {
        return NotFound, stored;
      }
      var row := BuildChange(codec, fields, rows[id], Record(stored, changes.translations), now);
      rows := rows[id := row];
    }

    /** Archive a record: its row stays, and only its archived and updated times change. */
    method SoftDelete(tenant: string, id: string, now: Value) returns (outcome: Outcome)
      requires Valid()
      modifies this`rows
      ensures Valid()
      ensures outcome == if id in old(rows) && old(rows)[id].tenant == Str(tenant) then Done else NotFound
      ensures rows == if outcome == Done then old(rows)[id := old(rows)[id].(archived := Some(now), updated := now)] else old(rows)
    {
      if id !in rows || rows[id].tenant != Str(tenant) {
        return NotFound;
      }
      rows := rows[id := rows[id].(archived := Some(now), updated := now)];
      return Done;
    }
  }
}
