/** Object schemas: the closed set of field types, and what makes a field definition valid. */
module Schema {

  datatype FieldType =
    | Txt | LongText | RichText | Whole | Decimal | Money | Currency | Date | Datetime | Boolean | Enum | Link
    | Rows | Json | File | Email | Phone | Address | Duration | Percent | Computed

  datatype Widget = NoWidget | Textarea | Radio | UnknownWidget

  datatype Field = Field(name: string, kind: FieldType, required: bool, index: bool, options: seq<string>,
                         widget: Widget, localized: bool, fromOverlay: bool)

  type Permissions = map<string, seq<string>>

  /** A core object; only its name, fields and permissions matter to merging and storage. */
  datatype Object_ = Object_(name: string, fields: seq<Field>, permissions: Permissions)

  predicate LowerLetter(c: char) {
    'a' <= c <= 'z'
  }

  /** Lower snake case, starting with a letter. */
  predicate SnakeCase(s: string) {
    s != "" && LowerLetter(s[0]) && forall i :: 0 <= i < |s| ==> LowerLetter(s[i]) || '0' <= s[i] <= '9' || s[i] == '_'
  }

  const TRANSLATIONS_KEY := "translations"
  const BLOB_KEY := "i18n"

  predicate Reserved(name: string) {
    name == TRANSLATIONS_KEY || name == BLOB_KEY
  }

  predicate Localizable(kind: FieldType) {
    kind.Txt? || kind.LongText? || kind.RichText?
  }

  predicate WidgetApplies(w: Widget, kind: FieldType) {
    match w
    case NoWidget => true
    case Textarea => Localizable(kind)
    case Radio => kind.Enum?
    case UnknownWidget => false
  }

  predicate IsSpace(c: char) {
    || '\U{9}' <= c <= '\U{d}' || c == ' ' || c == '\U{85}' || c == '\U{a0}' || c == '\U{1680}'
    || '\U{2000}' <= c <= '\U{200a}' || c == '\U{2028}' || c == '\U{2029}' || c == '\U{202f}' || c == '\U{205f}' || c == '\U{3000}'
  }

  predicate Padded(s: string) {
    s == "" || IsSpace(s[0]) || IsSpace(s[|s| - 1])
  }

  predicate OptionsValid(f: Field) {
    if !f.kind.Enum? then f.options == []
    else
      && f.options != []
      && (forall i :: 0 <= i < |f.options| ==> !Padded(f.options[i]))
      && (forall i, j :: 0 <= i < j < |f.options| ==> f.options[i] != f.options[j])
  }

  predicate FieldValid(f: Field) {
    && SnakeCase(f.name) && !Reserved(f.name)
    && (f.localized ==> Localizable(f.kind))
    && OptionsValid(f) && WidgetApplies(f.widget, f.kind)
  }

  predicate DistinctNames(fields: seq<Field>) {
    forall i, j :: 0 <= i < j < |fields| ==> fields[i].name != fields[j].name
  }

  predicate ObjectValid(o: Object_) {
    && o.name != "" && o.fields != []
    && (forall i :: 0 <= i < |o.fields| ==> FieldValid(o.fields[i]))
    && DistinctNames(o.fields)
  }

  /** Check the options: only an enum has any, none is empty or padded, and none is there twice. */
  method ValidateOptions(f: Field) returns (ok: bool)
    ensures ok <==> OptionsValid(f)
  {
    if f.kind != Enum {
      return |f.options| == 0;
    }
    if |f.options| == 0 {
      return false;
    }
    var seen: set<string> := {};
    for i := 0 to |f.options|
      invariant seen == set k | 0 <= k < i :: f.options[k]
      invariant forall k :: 0 <= k < i ==> !Padded(f.options[k])
      invariant forall j, k :: 0 <= j < k < i ==> f.options[j] != f.options[k]
    {
      var option := f.options[i];
      if option == "" || IsSpace(option[0]) || IsSpace(option[|option| - 1]) || option in seen {
        return false;
      }
      seen := seen + {option};
    }
    return true;
  }

  /** Check one definition, in the order the code does. */
  method ValidateField(f: Field) returns (ok: bool)
    ensures ok <==> FieldValid(f)
  {
    if f.name == "" || !('a' <= f.name[0] <= 'z') {
      return false;
    }
    for i := 1 to |f.name|
      invariant forall k :: 0 <= k < i ==> 'a' <= f.name[k] <= 'z' || '0' <= f.name[k] <= '9' || f.name[k] == '_'
    {
      var c := f.name[i];
      if !('a' <= c <= 'z' || '0' <= c <= '9' || c == '_') {
        return false;
      }
    }
    if f.name == "translations" || f.name == "i18n" || (f.localized && f.kind !in {Txt, LongText, RichText}) {
      return false;
    }
    var valid := ValidateOptions(f);
    return valid && match f.widget
                    case NoWidget => true
                    case Textarea => f.kind in {Txt, LongText, RichText}
                    case Radio => f.kind == Enum
                    case UnknownWidget => false;
  }

  /** A definition is valid exactly when it is named, has fields, and each is valid under a name of its own. */
  method ValidateObject(o: Object_) returns (ok: bool)
    ensures ok <==> ObjectValid(o)
  {
    if o.name == "" || |o.fields| == 0 {
      return false;
    }
    var seen: set<string> := {};
    for i := 0 to |o.fields|
      invariant seen == set k | 0 <= k < i :: o.fields[k].name
      invariant forall k :: 0 <= k < i ==> FieldValid(o.fields[k])
      invariant forall j, k :: 0 <= j < k < i ==> o.fields[j].name != o.fields[k].name
    {
      var valid := ValidateField(o.fields[i]);
      if !valid || o.fields[i].name in seen {
        return false;
      }
      seen := seen + {o.fields[i].name};
    }
    return true;
  }

  predicate HasField(fields: seq<Field>, name: string) {
    exists i :: 0 <= i < |fields| && fields[i].name == name
  }
}
