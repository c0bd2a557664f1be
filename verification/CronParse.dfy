/** Parsing the five fields of a cron expression into their value arrays. */
module CronParse {
  import opened Cron
  import Arith
  import opened Text
  import Int64
  import opened Wrappers

  datatype FieldRange = FieldRange(min: nat, max: nat)

  const MINUTES := FieldRange(0, 59)
  const HOURS := FieldRange(0, 23)
  const DAYS := FieldRange(1, 31)
  const MONTHS := FieldRange(1, 12)
  const WEEKDAYS := FieldRange(0, 6)

  /** strconv.Atoi: an optional sign, at least one digit, within a 64-bit int. */
  function Atoi(s: string): Option<int> {
    var signed := s != "" && (s[0] == '-' || s[0] == '+');
    var body := if signed then s[1..] else s;
    if body == "" || !AllDigits(body) then None
    else
      var magnitude: int := ValueOf(body);
      var v: int := if signed && s[0] == '-' then 0 - magnitude else magnitude;
      if -Int64.MAX - 1 <= v <= Int64.MAX then Some(v) else None
  }

  function Split(s: string, c: char): (parts: seq<string>)
    ensures |parts| >= 1
  {
    var i := IndexOf(s, c);
    if i == |s| then [s] else [s[..i]] + Split(s[i + 1..], c)
  }

  datatype Span = Span(lo: int, hi: int, step: int)

  /** The bounds of one list element, before any `/step`. */
  function Bounds(r: string, f: FieldRange): Option<(int, int)> {
    if r == "*" then Some((f.min, f.max))
    else if '-' in r then
      var dash := IndexOf(r, '-');
      match (Atoi(r[..dash]), if dash < |r| then Atoi(r[dash + 1..]) else None)
      case (Some(a), Some(b)) => if a > b then None else Some((a, b))
      case _ => None
    else match Atoi(r)
      case Some(v) => Some((v, v))
      case None => None
  }

  /** One list element: `*`, `N` or `a-b`, each with an optional `/step`; None when it is refused. */
  function SpanOf(part: string, f: FieldRange): Option<Span> {
    var slash := IndexOf(part, '/');
    var step := if slash == |part| then Some(1) else Atoi(part[slash + 1..]);
    if step.None? || step.value < 1 then None
    else match Bounds(part[..slash], f)
      case None => None
      case Some((lo, hi)) => if lo < f.min || hi > f.max then None else Some(Span(lo, hi, step.value))
  }

  /** `v` is one of lo, lo + step, lo + 2 * step, ... */
  predicate OnGrid(lo: int, step: int, v: int)
    requires step >= 1
    decreases v - lo
  {
    v == lo || (v > lo && OnGrid(lo, step, v - step))
  }

  predicate Denotes(s: Span, v: int)
    requires s.step >= 1
  {
    v <= s.hi && OnGrid(s.lo, s.step, v)
  }

  /** The loop variable of `for v := lo; v <= hi; v += step` passes the top of the int range. */
  predicate Overflows(s: Span) {
    s.lo + s.step > Int64.MAX
  }

  datatype Outcome = Ok | Invalid | Panics

  /** The first list element that is refused, or that overflows, decides. */
  function Verdict(parts: seq<string>, f: FieldRange): Outcome {
    if parts == [] then Ok
    else match SpanOf(parts[0], f)
      case None => Invalid
      case Some(s) => if Overflows(s) then Panics else Verdict(parts[1..], f)
  }

  /** Some list element names `v`. */
  ghost predicate Named(parts: seq<string>, f: FieldRange, v: int) {
    exists k :: 0 <= k < |parts| && NamedBy(parts[k], f, v)
  }

  predicate NamedBy(part: string, f: FieldRange, v: int) {
    SpanOf(part, f).Some? && Denotes(SpanOf(part, f).value, v)
  }

  /** Between two values of the running variable the span names nothing. */
  lemma {:induction false} StepOver(lo: int, step: int, v: int, u: int)
    requires step >= 1 && OnGrid(lo, step, v) && v < u < v + step
    ensures !OnGrid(lo, step, u)
    decreases v - lo
  {
    if v > lo { StepOver(lo, step, v - step, u - step); }
  }

  // ---- What written fields mean ----

  /** Numbers are decimal numerals, leading zeros allowed. */
  datatype Range = Star | One(n: string) | FromTo(a: string, b: string)

  datatype Element = Element(range: Range, step: Option<string>)

  predicate Numeral(s: string) {
    s != "" && AllDigits(s)
  }

  predicate Readable(e: Element) {
    && (match e.range case Star => true case One(n) => Numeral(n) case FromTo(a, b) => Numeral(a) && Numeral(b))
    && (e.step.Some? ==> Numeral(e.step.value))
  }

  function RangeText(r: Range): string {
    match r case Star => "*" case One(n) => n case FromTo(a, b) => a + "-" + b
  }

  function ElementText(e: Element): string {
    RangeText(e.range) + (if e.step.Some? then "/" + e.step.value else "")
  }

  /** The elements of a field, joined by commas. */
  function FieldText(list: seq<Element>): string
    requires list != []
  {
    if |list| == 1 then ElementText(list[0]) else ElementText(list[0]) + "," + FieldText(list[1..])
  }

  function First(e: Element, f: FieldRange): nat
    requires Readable(e)
  {
    match e.range case Star => f.min case One(n) => ValueOf(n) case FromTo(a, _) => ValueOf(a)
  }

  function Last(e: Element, f: FieldRange): nat
    requires Readable(e)
  {
    match e.range case Star => f.max case One(n) => ValueOf(n) case FromTo(_, b) => ValueOf(b)
  }

  function Stride(e: Element): nat
    requires Readable(e)
  {
    if e.step.Some? then ValueOf(e.step.value) else 1
  }

  /** The bounds are in order and in the field's range, and the step is a positive int. */
  predicate Legal(e: Element, f: FieldRange)
    requires Readable(e)
  {
    f.min <= First(e, f) <= Last(e, f) <= f.max && 1 <= Stride(e) <= Int64.MAX
  }

  /** From the first bound to the last in steps. */
  predicate Includes(e: Element, f: FieldRange, v: int)
    requires Readable(e) && Legal(e, f)
  {
    First(e, f) <= v <= Last(e, f) && (v - First(e, f)) % Stride(e) == 0
  }

  predicate Writes(list: seq<Element>, spec: string) {
    list != [] && (forall i :: 0 <= i < |list| ==> Readable(list[i])) && FieldText(list) == spec
  }

  /** Every element is legal, and its loop stays within the int range. */
  ghost predicate AllLegal(list: seq<Element>, f: FieldRange)
    requires forall i :: 0 <= i < |list| ==> Readable(list[i])
  {
    forall i :: 0 <= i < |list| ==> Legal(list[i], f) && First(list[i], f) + Stride(list[i]) <= Int64.MAX
  }

  /** The union of what the elements include. */
  ghost predicate Listed(list: seq<Element>, f: FieldRange, v: int)
    requires forall i :: 0 <= i < |list| ==> Readable(list[i])
  {
    exists i :: 0 <= i < |list| && Legal(list[i], f) && Includes(list[i], f, v)
  }

  lemma NumeralChars(s: string, c: char)
    requires Numeral(s) && !IsDigit(c)
    ensures c !in s
  {
  }

  lemma AtoiOf(s: string)
    requires Numeral(s)
    ensures Atoi(s) == if ValueOf(s) <= Int64.MAX then Some(ValueOf(s)) else None
  {
    assert IsDigit(s[0]);
  }

  /** A sign, or none, and a numeral. */
  predicate WritesInt(s: string, sign: string, v: int) {
    && sign in ["", "+", "-"] && sign <= s && Numeral(s[|sign|..])
    && v == if sign == "-" then 0 - ValueOf(s[|sign|..]) else ValueOf(s[|sign|..])
  }

  /** A number is read exactly as it is written, within 64 bits, and nothing else is. */
  lemma AtoiExactly(s: string, v: int)
    ensures Atoi(s) == Some(v) <==> Int64.Fits(v) && exists sign :: WritesInt(s, sign, v)
  {
    if Atoi(s) == Some(v) {
      var sign := if s != "" && s[0] == '-' then "-" else if s != "" && s[0] == '+' then "+" else "";
      assert s[0..] == s;
      assert WritesInt(s, sign, v);
    }
    if sign :| WritesInt(s, sign, v) {
      assert sign != "" ==> s[0] == sign[0];
      if sign == "" {
        assert s[0..] == s && IsDigit(s[0]);
      }
    }
  }

  lemma RangeChars(r: Range, c: char)
    requires Readable(Element(r, None)) && !IsDigit(c) && c != '*' && c != '-'
    ensures c !in RangeText(r)
  {
    match r
    case Star =>
    case One(n) => NumeralChars(n, c);
    case FromTo(a, b) => NumeralChars(a, c); NumeralChars(b, c);
  }

  lemma BoundsOf(r: Range, f: FieldRange)
    requires Readable(Element(r, None)) && f.max <= Int64.MAX
    ensures
      var e := Element(r, None);
      First(e, f) <= f.max && Last(e, f) <= f.max ==>
        Bounds(RangeText(r), f) == if First(e, f) <= Last(e, f) || r.Star? then Some((First(e, f) as int, Last(e, f) as int)) else None
    ensures
      var e := Element(r, None);
      Bounds(RangeText(r), f).Some? ==>
        Bounds(RangeText(r), f).value == (First(e, f) as int, Last(e, f) as int) && (First(e, f) <= Last(e, f) || r.Star?)
  {
    match r
    case Star =>
    case One(n) =>
      NumeralChars(n, '-');
      AtoiOf(n);
      assert IsDigit(n[0]) && n != "*";
    case FromTo(a, b) =>
      NumeralChars(a, '-');
      AtoiOf(a);
      AtoiOf(b);
      Cut(a, '-', b, RangeText(r));
      assert RangeText(r)[|a|] == '-' && RangeText(r) != "*";
  }

  /** Cutting a text at the first separator gives back what was before and after it. */
  lemma Cut(a: string, c: char, b: string, text: string)
    requires c !in a && text == a + [c] + b
    ensures IndexOf(text, c) == |a| < |text| && text[..|a|] == a && text[|a| + 1..] == b
  {
    FirstIndex(a, c, b);
  }

  lemma Uncut(a: string, c: char)
    requires c !in a
    ensures IndexOf(a, c) == |a| && a[..|a|] == a
  {
    NoIndex(a, c);
  }

  /** A written element is read as its bounds and step exactly when it is legal. */
  lemma SpanOfElement(e: Element, f: FieldRange)
    requires Readable(e) && f.min <= f.max <= Int64.MAX
    ensures SpanOf(ElementText(e), f) == if Legal(e, f) then Some(Span(First(e, f), Last(e, f), Stride(e))) else None
  {
    var range, text := RangeText(e.range), ElementText(e);
    RangeChars(e.range, '/');
    BoundsOf(e.range, f);
    if e.step.Some? {
      assert text == range + ['/'] + e.step.value;
      Cut(range, '/', e.step.value, text);
      AtoiOf(e.step.value);
    } else {
      assert text == range;
      Uncut(range, '/');
    }
  }

  lemma {:induction false} GridExactly(lo: int, step: int, v: int)
    requires step >= 1
    ensures OnGrid(lo, step, v) <==> lo <= v && (v - lo) % step == 0
    decreases v - lo
  {
    if v > lo {
      GridExactly(lo, step, v - step);
      if v - lo < step { SmallModulo(v - lo, step); } else { LessOne(v - lo, step); }
    }
  }

  lemma SmallModulo(x: nat, step: int)
    requires 0 < x < step
    ensures x % step != 0
  {
  }

  lemma LessOne(x: int, step: int)
    requires step >= 1
    ensures (x - step) % step == x % step
  {
    Arith.Division(x, step);
    Arith.Distributes(x / step, 1, step);
    Arith.DivisionUnique(x - step, x / step - 1, x % step, step);
  }

  lemma ElementNames(e: Element, f: FieldRange, v: int)
    requires Readable(e) && f.min <= f.max <= Int64.MAX
    ensures NamedBy(ElementText(e), f, v) <==> Legal(e, f) && Includes(e, f, v)
  {
    SpanOfElement(e, f);
    if Legal(e, f) { GridExactly(First(e, f), Stride(e), v); }
  }

  function Texts(list: seq<Element>): (r: seq<string>)
    ensures |r| == |list| && forall i :: 0 <= i < |r| ==> r[i] == ElementText(list[i])
  {
    seq(|list|, i requires 0 <= i < |list| => ElementText(list[i]))
  }

  lemma SplitFirst(first: string, rest: string, text: string)
    requires ',' !in first && text == first + [','] + rest
    ensures Split(text, ',') == [first] + Split(rest, ',')
  {
    Cut(first, ',', rest, text);
  }

  lemma SplitOnly(text: string)
    requires ',' !in text
    ensures Split(text, ',') == [text]
  {
    Uncut(text, ',');
  }

  lemma ElementChars(e: Element)
    requires Readable(e)
    ensures ',' !in ElementText(e)
  {
    RangeChars(e.range, ',');
    if e.step.Some? { NumeralChars(e.step.value, ','); }
  }

  lemma TextsTail(list: seq<Element>)
    requires list != []
    ensures Texts(list) == [ElementText(list[0])] + Texts(list[1..])
  {
  }

  lemma {:induction false} SplitField(list: seq<Element>, text: string)
    requires Writes(list, text)
    ensures Split(text, ',') == Texts(list)
    decreases |list|
  {
    ElementChars(list[0]);
    TextsTail(list);
    if |list| == 1 {
      SplitOnly(text);
    } else {
      var rest := FieldText(list[1..]);
      SplitField(list[1..], rest);
      SplitFirst(ElementText(list[0]), rest, text);
    }
  }

  /** An element whose step and first bound together pass the int range. */
  predicate Huge(e: Element, f: FieldRange)
    requires Readable(e)
  {
    Legal(e, f) && First(e, f) + Stride(e) > Int64.MAX
  }

  lemma WrittenElement(list: seq<Element>, f: FieldRange, i: nat)
    requires i < |list| && Readable(list[i]) && f.min <= f.max <= Int64.MAX
    ensures SpanOf(Texts(list)[i], f).Some? <==> Legal(list[i], f)
    ensures Bursts(Texts(list)[i], f) <==> Huge(list[i], f)
  {
    SpanOfElement(list[i], f);
  }

  lemma WrittenOk(list: seq<Element>, f: FieldRange)
    requires (forall i :: 0 <= i < |list| ==> Readable(list[i])) && f.min <= f.max <= Int64.MAX
    ensures Verdict(Texts(list), f) == Ok <==> AllLegal(list, f)
  {
    AcceptedExactly(Texts(list), f);
    forall i | 0 <= i < |list|
      ensures SpanOf(Texts(list)[i], f).Some? && !Bursts(Texts(list)[i], f)
              <==> Legal(list[i], f) && First(list[i], f) + Stride(list[i]) <= Int64.MAX
    {
      WrittenElement(list, f, i);
    }
  }

  ghost predicate HugeFirst(list: seq<Element>, f: FieldRange)
    requires forall i :: 0 <= i < |list| ==> Readable(list[i])
  {
    exists i :: 0 <= i < |list| && Huge(list[i], f) && forall j :: 0 <= j < i ==> Legal(list[j], f)
  }

  lemma WrittenPanics(list: seq<Element>, f: FieldRange)
    requires (forall i :: 0 <= i < |list| ==> Readable(list[i])) && f.min <= f.max <= Int64.MAX
    ensures Verdict(Texts(list), f) == Panics <==> HugeFirst(list, f)
  {
    HugeStepPanics(Texts(list), f);
    forall i | 0 <= i < |list|
      ensures SpanOf(Texts(list)[i], f).Some? <==> Legal(list[i], f)
      ensures Bursts(Texts(list)[i], f) <==> Huge(list[i], f)
    {
      WrittenElement(list, f, i);
    }
  }

  lemma WrittenNames(list: seq<Element>, f: FieldRange, v: int)
    requires (forall i :: 0 <= i < |list| ==> Readable(list[i])) && f.min <= f.max <= Int64.MAX
    ensures Named(Texts(list), f, v) <==> Listed(list, f, v)
  {
    forall i | 0 <= i < |list| ensures NamedBy(Texts(list)[i], f, v) <==> Legal(list[i], f) && Includes(list[i], f, v) {
      ElementNames(list[i], f, v);
    }
  }

  /** A written field is accepted exactly when all its elements are legal, and names exactly what they
      include. Of elements that fail, the first decides: refused, or crashing on a step that overflows. */
  lemma WrittenField(list: seq<Element>, spec: string, f: FieldRange)
    requires Writes(list, spec) && f.min <= f.max <= Int64.MAX
    ensures Verdict(Split(spec, ','), f) == Ok <==> AllLegal(list, f)
    ensures Verdict(Split(spec, ','), f) == Panics <==> HugeFirst(list, f)
    ensures forall v :: Named(Split(spec, ','), f, v) <==> Listed(list, f, v)
  {
    SplitField(list, spec);
    WrittenOk(list, f);
    WrittenPanics(list, f);
    forall v ensures Named(Texts(list), f, v) <==> Listed(list, f, v) { WrittenNames(list, f, v); }
  }

  lemma {:induction false} AcceptedExactly(parts: seq<string>, f: FieldRange)
    ensures Verdict(parts, f) == Ok <==> forall i :: 0 <= i < |parts| ==> SpanOf(parts[i], f).Some? && !Bursts(parts[i], f)
  {
    if parts != [] {
      AcceptedExactly(parts[1..], f);
      assert forall i :: 1 <= i < |parts| ==> parts[i] == parts[1..][i - 1];
      assert forall i :: 0 <= i < |parts| - 1 ==> parts[1..][i] == parts[i + 1];
    }
  }

  /** Mark the values of one span; the running variable is a 64-bit int. */
  method MarkSpan(s: Span, field: array<bool>) returns (r: Outcome)
    requires 0 <= s.lo <= s.hi < field.Length <= 64 && 1 <= s.step <= Int64.MAX
    modifies field
    ensures r == if Overflows(s) then Panics else Ok
    ensures r == Ok ==> forall v :: 0 <= v < field.Length ==> field[v] == (old(field[v]) || Denotes(s, v))
  {
    var v := s.lo;
    while v <= s.hi
      invariant s.lo <= v && OnGrid(s.lo, s.step, v)
      invariant v > s.lo ==> !Overflows(s)
      invariant forall u :: 0 <= u < field.Length ==> field[u] == (old(field[u]) || (u < v && Denotes(s, u)))
      decreases s.hi + s.step - v
    {
      field[v] := true;
      forall u | v < u < v + s.step ensures !Denotes(s, u) {
        StepOver(s.lo, s.step, v, u);
      }
      var next := Int64.Wrap(v + s.step);
      if next < 0 {
        assert v == s.lo;
        return Panics;
      }
      v := next;
    }
    return Ok;
  }

  /** Parse one field: every list element in turn, stopping at the first refusal. */
  method ParseField(spec: string, f: FieldRange, field: array<bool>) returns (r: Outcome)
    requires f.min <= f.max < field.Length <= 64
    modifies field
    ensures r == if spec == "" then Invalid else Verdict(Split(spec, ','), f)
    ensures r == Ok ==>
              forall v :: 0 <= v < field.Length ==> field[v] == (old(field[v]) || Named(Split(spec, ','), f, v))
    ensures forall list: seq<Element> :: Writes(list, spec) ==>
              && (r == Ok <==> AllLegal(list, f)) && (r == Panics <==> HugeFirst(list, f))
              && (r == Ok ==> forall v :: 0 <= v < field.Length ==> field[v] == (old(field[v]) || Listed(list, f, v)))
  {
    forall list: seq<Element> | Writes(list, spec)
      ensures spec != ""
      ensures Verdict(Split(spec, ','), f) == Ok <==> AllLegal(list, f)
      ensures Verdict(Split(spec, ','), f) == Panics <==> HugeFirst(list, f)
      ensures forall v :: Named(Split(spec, ','), f, v) <==> Listed(list, f, v)
    {
      WrittenField(list, spec, f);
      assert ElementText(list[0]) != "";
    }
    if spec == "" {
      return Invalid;
    }
    var parts := Split(spec, ',');
    for i := 0 to |parts|
      invariant Verdict(parts, f) == Verdict(parts[i..], f)
      invariant forall v :: 0 <= v < field.Length ==> field[v] == (old(field[v]) || Named(parts[..i], f, v))
    {
      var span := SpanOf(parts[i], f);
      assert parts[i..][0] == parts[i] && parts[i..][1..] == parts[i + 1..];
      if span.None? {
        return Invalid;
      }
      SpanShape(parts[i], f);
      label before:
      r := MarkSpan(span.value, field);
      if r == Panics {
        return Panics;
      }
      forall v | 0 <= v < field.Length
        ensures field[v] == (old(field[v]) || Named(parts[..i + 1], f, v))
      {
        NamedNext(parts, i, span.value, f, v);
        assert old@before(field[v]) == (old(field[v]) || Named(parts[..i], f, v));
      }
    }
    assert parts[..|parts|] == parts;
    return Ok;
  }

  lemma SpanShape(part: string, f: FieldRange)
    requires f.min <= f.max
    ensures SpanOf(part, f).Some? ==>
              var s := SpanOf(part, f).value; f.min <= s.lo <= s.hi <= f.max && 1 <= s.step <= Int64.MAX
  {
  }

  lemma NamedNext(parts: seq<string>, i: nat, span: Span, f: FieldRange, v: int)
    requires i < |parts| && span.step >= 1 && SpanOf(parts[i], f) == Some(span)
    ensures Named(parts[..i + 1], f, v) <==> Named(parts[..i], f, v) || Denotes(span, v)
  {
    assert parts[..i + 1] == parts[..i] + [parts[i]];
    NamedAppend(parts[..i], parts[i], f, v);
  }

  lemma NamedAppend(init: seq<string>, last: string, f: FieldRange, v: int)
    ensures Named(init + [last], f, v) <==> Named(init, f, v) || NamedBy(last, f, v)
  {
    var all := init + [last];
    if Named(init, f, v) {
      var k :| 0 <= k < |init| && NamedBy(init[k], f, v);
      assert NamedBy(all[k], f, v);
    }
    if NamedBy(last, f, v) {
      assert NamedBy(all[|init|], f, v);
    }
  }

  /** A field that parses names at least one value, all of them in range. */
  lemma ParsedFieldNames(spec: string, f: FieldRange) returns (v: nat)
    requires f.min <= f.max && Verdict(Split(spec, ','), f) == Ok
    ensures f.min <= v <= f.max && Named(Split(spec, ','), f, v)
  {
    var parts := Split(spec, ',');
    SpanShape(parts[0], f);
    v := SpanOf(parts[0], f).value.lo;
    assert NamedBy(parts[0], f, v);
  }

  lemma {:induction false} StepOne(lo: int, v: int)
    requires lo <= v
    ensures OnGrid(lo, 1, v)
    decreases v - lo
  {
    if v > lo { StepOne(lo, v - 1); }
  }

  lemma StarNamesAll(f: FieldRange, v: int)
    requires f.min <= v <= f.max
    ensures Named(Split("*", ','), f, v)
  {
    assert IndexOf("*", ',') == 1 == IndexOf("*", '/');
    assert Split("*", ',') == ["*"];
    assert "*"[..1] == "*";
    assert SpanOf("*", f) == Some(Span(f.min, f.max, 1));
    StepOne(f.min, v);
    assert NamedBy(["*"][0], f, v);
  }

  datatype CronResult = Parsing(s: Schedule) | Refused | Crashed

  ghost predicate Written(spec: string) {
    exists list: seq<Element> :: Writes(list, spec)
  }

  ghost predicate LegalField(spec: string, f: FieldRange) {
    forall list: seq<Element> :: Writes(list, spec) ==> AllLegal(list, f)
  }

  lemma LegalFieldExactly(spec: string, f: FieldRange)
    requires Written(spec) && f.min <= f.max <= Int64.MAX
    ensures Verdict(Split(spec, ','), f) == Ok <==> LegalField(spec, f)
  {
    forall list: seq<Element> | Writes(list, spec) ensures Verdict(Split(spec, ','), f) == Ok <==> AllLegal(list, f) {
      WrittenField(list, spec, f);
    }
  }

  lemma WrittenParts(parts: seq<string>)
    requires |parts| == 5 && forall i :: 0 <= i < 5 ==> Written(parts[i])
    ensures FirstFailure(parts) == Ok <==>
            LegalField(parts[0], MINUTES) && LegalField(parts[1], HOURS) && LegalField(parts[2], DAYS)
            && LegalField(parts[3], MONTHS) && LegalField(parts[4], WEEKDAYS)
  {
    LegalFieldExactly(parts[0], MINUTES);
    LegalFieldExactly(parts[1], HOURS);
    LegalFieldExactly(parts[2], DAYS);
    LegalFieldExactly(parts[3], MONTHS);
    LegalFieldExactly(parts[4], WEEKDAYS);
  }

  lemma FieldIsMeant(field: seq<bool>, spec: string, f: FieldRange)
    requires FieldIs(field, spec, f) && f.min <= f.max <= Int64.MAX
    ensures FieldMeans(field, spec, f)
  {
    forall list: seq<Element> | Writes(list, spec) ensures forall v :: 0 <= v < |field| ==> field[v] == Listed(list, f, v) {
      WrittenField(list, spec, f);
    }
  }

  /** However the field is written, it holds exactly the values its elements include. */
  ghost predicate FieldMeans(field: seq<bool>, spec: string, f: FieldRange) {
    forall list: seq<Element> :: Writes(list, spec) ==> forall v :: 0 <= v < |field| ==> field[v] == Listed(list, f, v)
  }

  /** What one field of the expression denotes. */
  ghost predicate FieldIs(field: seq<bool>, spec: string, f: FieldRange) {
    forall v :: 0 <= v < |field| ==> field[v] == Named(Split(spec, ','), f, v)
  }

  /** Parse the five whitespace-separated parts in order. */
  method ParseCron(parts: seq<string>) returns (r: CronResult)
    requires forall i :: 0 <= i < |parts| ==> parts[i] != ""
    ensures r.Parsing? ==>
              && |parts| == 5 && Parsed(r.s)
              && FieldIs(r.s.minute, parts[0], MINUTES) && FieldIs(r.s.hour, parts[1], HOURS)
              && FieldIs(r.s.dom, parts[2], DAYS) && FieldIs(r.s.month, parts[3], MONTHS)
              && FieldIs(r.s.dow, parts[4], WEEKDAYS)
              && r.s.domStar == (parts[2] == "*") && r.s.dowStar == (parts[4] == "*")
              && FieldMeans(r.s.minute, parts[0], MINUTES) && FieldMeans(r.s.hour, parts[1], HOURS)
              && FieldMeans(r.s.dom, parts[2], DAYS) && FieldMeans(r.s.month, parts[3], MONTHS)
              && FieldMeans(r.s.dow, parts[4], WEEKDAYS)
    ensures |parts| == 5 && (forall i :: 0 <= i < 5 ==> Written(parts[i])) ==>
              (r.Parsing? <==> LegalField(parts[0], MINUTES) && LegalField(parts[1], HOURS) && LegalField(parts[2], DAYS)
                               && LegalField(parts[3], MONTHS) && LegalField(parts[4], WEEKDAYS))
    ensures |parts| != 5 ==> r == Refused
    ensures |parts| == 5 ==> (r.Parsing? <==> FirstFailure(parts) == Ok) && (r.Crashed? <==> FirstFailure(parts) == Panics)
  {
    if |parts| != 5 {
      return Refused;
    }
    if forall i :: 0 <= i < 5 ==> Written(parts[i]) {
      WrittenParts(parts);
    }
    var minute, ok := ParseInto(parts[0], MINUTES, 60);
    if ok != Ok { return if ok == Panics then Crashed else Refused; }
    var hour, ok1 := ParseInto(parts[1], HOURS, 24);
    if ok1 != Ok { return if ok1 == Panics then Crashed else Refused; }
    var dom, ok2 := ParseInto(parts[2], DAYS, 32);
    if ok2 != Ok { return if ok2 == Panics then Crashed else Refused; }
    var month, ok3 := ParseInto(parts[3], MONTHS, 13);
    if ok3 != Ok { return if ok3 == Panics then Crashed else Refused; }
    var dow, ok4 := ParseInto(parts[4], WEEKDAYS, 7);
    if ok4 != Ok { return if ok4 == Panics then Crashed else Refused; }
    if parts[2] == "*" {
      forall v | 1 <= v <= 31 ensures dom[v] { StarNamesAll(DAYS, v); }
    }
    if parts[4] == "*" {
      forall v | 0 <= v <= 6 ensures dow[v] { StarNamesAll(WEEKDAYS, v); }
    }
    FieldIsMeant(minute, parts[0], MINUTES);
    FieldIsMeant(hour, parts[1], HOURS);
    FieldIsMeant(dom, parts[2], DAYS);
    FieldIsMeant(month, parts[3], MONTHS);
    FieldIsMeant(dow, parts[4], WEEKDAYS);
    return Parsing(Schedule(minute, hour, dom, month, dow, parts[2] == "*", parts[4] == "*"));
  }

  /** The outcome of the first field that does not parse. */
  function FirstFailure(parts: seq<string>): Outcome
    requires |parts| == 5
  {
    var a := Verdict(Split(parts[0], ','), MINUTES);
    if a != Ok then a else
    var b := Verdict(Split(parts[1], ','), HOURS);
    if b != Ok then b else
    var c := Verdict(Split(parts[2], ','), DAYS);
    if c != Ok then c else
    var d := Verdict(Split(parts[3], ','), MONTHS);
    if d != Ok then d else Verdict(Split(parts[4], ','), WEEKDAYS)
  }

  method ParseInto(spec: string, f: FieldRange, size: nat) returns (field: seq<bool>, r: Outcome)
    requires spec != "" && f.min <= f.max < size <= 64
    ensures r == Verdict(Split(spec, ','), f)
    ensures |field| == size
    ensures r == Ok ==> FieldIs(field, spec, f) && Some1(field, f.min)
  {
    var a := new bool[size](i => false);
    r := ParseField(spec, f, a);
    field := a[..];
    if r == Ok {
      ghost var v := ParsedFieldNames(spec, f);
      assert field[v];
    }
  }

  /** The element parses, and its loop variable passes the top of the int range. */
  predicate Bursts(part: string, f: FieldRange) {
    SpanOf(part, f).Some? && Overflows(SpanOf(part, f).value)
  }

  /** A step near the top of the int range wraps the loop variable, and the next index is negative:
      `1/9223372036854775807` in the day-of-month field crashes the parser instead of being refused. A
      field crashes it exactly when such an element comes before any that is refused. */
  lemma {:induction false} HugeStepPanics(parts: seq<string>, f: FieldRange)
    ensures
      Verdict(parts, f) == Panics <==>
      exists i :: 0 <= i < |parts| && Bursts(parts[i], f) && forall j :: 0 <= j < i ==> SpanOf(parts[j], f).Some?
  {
    if parts != [] {
      HugeStepPanics(parts[1..], f);
      if i :| 0 <= i < |parts| && Bursts(parts[i], f) && forall j :: 0 <= j < i ==> SpanOf(parts[j], f).Some? {
        if i > 0 && !Bursts(parts[0], f) {
          assert parts[1..][i - 1] == parts[i] && SpanOf(parts[0], f).Some?;
          assert forall j :: 0 <= j < i - 1 ==> SpanOf(parts[1..][j], f).Some?;
        }
      }
      if i :| 0 <= i < |parts| - 1 && Bursts(parts[1..][i], f) && forall j :: 0 <= j < i ==> SpanOf(parts[1..][j], f).Some? {
        assert parts[i + 1] == parts[1..][i];
        forall j | 0 < j < i + 1 ensures SpanOf(parts[j], f).Some? {
          assert parts[j] == parts[1..][j - 1];
        }
      }
    }
  }

  lemma Alone(e: Element, f: FieldRange, field: seq<bool>, spec: string)
    requires Readable(e) && Legal(e, f) && ElementText(e) == spec && FieldMeans(field, spec, f)
    ensures forall v :: 0 <= v < |field| ==> field[v] == Includes(e, f, v)
  {
    assert Writes([e], spec);
    forall v | 0 <= v < |field| ensures Listed([e], f, v) <==> Includes(e, f, v) {
      if Includes(e, f, v) { assert Includes([e][0], f, v); }
    }
  }

  lemma Reassociate(a: string, b: string, c: string)
    ensures a + (b + c) == a + b + c
  {
  }

  /** A number names itself. */
  lemma ShownNumber(f: FieldRange, a: nat, field: seq<bool>)
    requires f.min <= a <= f.max <= Int64.MAX && FieldMeans(field, Show(a), f)
    ensures forall v :: 0 <= v < |field| ==> (field[v] <==> v == a)
  {
    ShowReadsBack(a);
    var e := Element(One(Show(a)), None);
    assert ElementText(e) == Show(a);
    Alone(e, f, field, Show(a));
  }

  function RangeElement(a: nat, b: nat, k: nat): Element {
    Element(FromTo(Show(a), Show(b)), Some(Show(k)))
  }

  lemma RangeShown(f: FieldRange, a: nat, b: nat, k: nat)
    ensures Readable(RangeElement(a, b, k)) && ElementText(RangeElement(a, b, k)) == Show(a) + "-" + Show(b) + "/" + Show(k)
    ensures
      var e := RangeElement(a, b, k);
      First(e, f) == a && Last(e, f) == b && Stride(e) == k
  {
    ShowReadsBack(a);
    ShowReadsBack(b);
    ShowReadsBack(k);
    Reassociate(Show(a) + "-" + Show(b), "/", Show(k));
  }

  /** `a-b/k` names every k-th value from a to b. */
  lemma ShownRange(f: FieldRange, a: nat, b: nat, k: nat, field: seq<bool>, spec: string)
    requires f.min <= a <= b <= f.max <= Int64.MAX && 1 <= k <= Int64.MAX
    requires spec == Show(a) + "-" + Show(b) + "/" + Show(k) && FieldMeans(field, spec, f)
    ensures forall v :: 0 <= v < |field| ==> (field[v] <==> a <= v <= b && (v - a) % k == 0)
  {
    RangeShown(f, a, b, k);
    Alone(RangeElement(a, b, k), f, field, spec);
  }

  /** A star with a step names every k-th value of the whole range. */
  lemma ShownStar(f: FieldRange, k: nat, field: seq<bool>)
    requires f.min <= f.max <= Int64.MAX && 1 <= k <= Int64.MAX && FieldMeans(field, "*/" + Show(k), f)
    ensures forall v :: 0 <= v < |field| ==> (field[v] <==> f.min <= v <= f.max && (v - f.min) % k == 0)
  {
    ShowReadsBack(k);
    var e := Element(Star, Some(Show(k)));
    Reassociate("*", "/", Show(k));
    assert "*" + "/" == "*/";
    Alone(e, f, field, "*/" + Show(k));
    assert First(e, f) == f.min && Last(e, f) == f.max && Stride(e) == k;
  }

  lemma HugeStepExample()
    ensures Int64.Wrap(1 + Int64.MAX) < 0 && Overflows(Span(1, 1, Int64.MAX)) && Denotes(Span(1, 1, Int64.MAX), 1)
  {
  }
}
