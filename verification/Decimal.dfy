/** Printing an amount of minor units as a decimal string, and parsing one exactly. */
module Decimal {
  import opened Arith
  import opened Int64
  import opened Text
  import opened Wrappers

  // ---- Printing ----

  function Zeros(n: nat): (s: string)
    ensures |s| == n && AllDigits(s)
  {
    if n == 0 then "" else Zeros(n - 1) + "0"
  }

  /** `%d`. */
  function Plain(x: int): string {
    if x < 0 then "-" + Show(-x) else Show(x)
  }

  /** `%0*d`: zero-padded to a width that counts the sign. */
  function Padded(x: int, width: nat): string {
    var sign := if x < 0 then "-" else "";
    var digits := Show(Abs(x));
    sign + (if |sign| + |digits| < width then Zeros(width - |sign| - |digits|) else "") + digits
  }

  /** The amount with `digits` decimal places; every step is on 64-bit ints. */
  function DecimalString(amount: int, digits: nat): string
    requires digits <= 18
  {
    if digits == 0 then Plain(amount)
    else
      var a := if amount < 0 then Wrap(-amount) else amount;
      var s := Plain(Quo(a, Pow10(digits))) + "." + Padded(Rem(a, Pow10(digits)), digits);
      if amount < 0 then "-" + s else s
  }

  /** 10^n in 64-bit ints. */
  method Pow10Int(n: nat) returns (p: int)
    requires n <= 18
    ensures p == Pow10(n) && Fits(p)
  {
    p := 1;
    for i := 0 to n
      invariant p == Pow10(i)
    {
      Pow10Fits(i + 1);
      p := Wrap(p * 10);
    }
    Pow10Fits(n);
  }

  lemma Pow10Fits(n: nat)
    requires n <= 18
    ensures Pow10(n) <= 1_000_000_000_000_000_000
  {
    Pow10Monotone(n, 18);
    Pow10Eighteen();
  }

  lemma {:induction false} Pow10Monotone(m: nat, n: nat)
    requires m <= n
    ensures Pow10(m) <= Pow10(n)
  {
    if m < n { Pow10Monotone(m, n - 1); }
  }

  lemma Pow10Eighteen()
    ensures Pow10(18) == 1_000_000_000_000_000_000
  {
    assert Pow10(6) == 1_000_000;
    assert Pow10(12) == 1_000_000_000_000;
  }

  // ---- Parsing ----

  /** A plain decimal literal: an optional sign, digits, and an optional point. */
  datatype Literal = Literal(negative: bool, whole: string, frac: string)

  function ReadUnsigned(body: string, negative: bool): (r: Option<Literal>)
    ensures r.Some? ==> AllDigits(r.value.whole) && AllDigits(r.value.frac)
  {
    var dot := IndexOf(body, '.');
    var whole := body[..dot];
    var frac := if dot < |body| then body[dot + 1..] else "";
    if AllDigits(whole) && AllDigits(frac) && |whole| + |frac| > 0 then Some(Literal(negative, whole, frac)) else None
  }

  function ReadLiteral(s: string): (r: Option<Literal>)
    ensures r.Some? ==> AllDigits(r.value.whole) && AllDigits(r.value.frac)
  {
    if s != "" && (s[0] == '-' || s[0] == '+') then ReadUnsigned(s[1..], s[0] == '-') else ReadUnsigned(s, false)
  }

  /** The literal's value is `Mantissa / 10^|frac|`. */
  function Mantissa(l: Literal): int
    requires AllDigits(l.whole) && AllDigits(l.frac)
  {
    var magnitude: int := ValueOf(l.whole + l.frac);
    if l.negative then 0 - magnitude else magnitude
  }

  /** `amount` minor units of `digits` decimal places are exactly the literal's value. */
  predicate Denotes(l: Literal, digits: nat, amount: int)
    requires AllDigits(l.whole) && AllDigits(l.frac)
  {
    amount * Pow10(|l.frac|) == Mantissa(l) * Pow10(digits)
  }

  datatype Result = Parsed(amount: int) | TooPrecise | Overflow | NotPlain

  /** Scale the literal's value to minor units; it must be whole and fit an int64. */
  function Parse(s: string, digits: nat): Result {
    match ReadLiteral(s)
    case None => NotPlain
    case Some(l) =>
      var num, den := Mantissa(l) * Pow10(digits), Pow10(|l.frac|);
      if num % den != 0 then TooPrecise
      else if Fits(num / den) then Parsed(num / den) else Overflow
  }

  /** A plain literal is accepted exactly when it is a whole number of minor units within int64, and
      then as that number. */
  lemma ParseExact(s: string, digits: nat, amount: int)
    requires ReadLiteral(s).Some?
    ensures Parse(s, digits) == Parsed(amount) <==> Fits(amount) && Denotes(ReadLiteral(s).value, digits, amount)
    ensures Denotes(ReadLiteral(s).value, digits, amount) ==> Parse(s, digits) != TooPrecise
    ensures Parse(s, digits) == Overflow && Denotes(ReadLiteral(s).value, digits, amount) ==> !Fits(amount)
  {
    var l := ReadLiteral(s).value;
    var num, den := Mantissa(l) * Pow10(digits), Pow10(|l.frac|);
    Division(num, den);
    if Denotes(l, digits, amount) {
      DivisionUnique(num, amount, 0, den);
    }
  }

  /** It is too precise exactly when it is no whole number of minor units, and an overflow exactly when
      it is one outside int64. */
  lemma ParseRefuses(s: string, digits: nat)
    requires ReadLiteral(s).Some?
    ensures Parse(s, digits) == TooPrecise <==> forall a: int :: !Denotes(ReadLiteral(s).value, digits, a)
    ensures Parse(s, digits) == Overflow <==> exists a: int :: !Fits(a) && Denotes(ReadLiteral(s).value, digits, a)
  {
    var l := ReadLiteral(s).value;
    var num, den := Mantissa(l) * Pow10(digits), Pow10(|l.frac|);
    Division(num, den);
    forall a: int | Denotes(l, digits, a) ensures num % den == 0 && num / den == a {
      DivisionUnique(num, a, 0, den);
    }
    if num % den == 0 {
      assert Denotes(l, digits, num / den);
    }
  }

  /** The literal is written with this sign, and with or without a point. */
  predicate WrittenWith(s: string, l: Literal, sign: string, point: bool) {
    && sign in ["", "-", "+"] && l.negative == (sign == "-")
    && AllDigits(l.whole) && AllDigits(l.frac) && l.whole + l.frac != "" && (point || l.frac == "")
    && s == sign + (if point then l.whole + "." + l.frac else l.whole)
  }

  lemma UnsignedExactly(body: string, l: Literal, negative: bool, point: bool)
    requires AllDigits(l.whole) && AllDigits(l.frac) && l.whole + l.frac != "" && (point || l.frac == "")
    requires body == if point then l.whole + "." + l.frac else l.whole
    ensures ReadUnsigned(body, negative) == Some(Literal(negative, l.whole, l.frac))
  {
    if point {
      FirstIndex(l.whole, '.', l.frac);
      assert body == l.whole + ['.'] + l.frac;
      assert body[..|l.whole|] == l.whole && body[|l.whole| + 1..] == l.frac;
    } else {
      NoIndex(body, '.');
      assert body[..|body|] == body;
    }
  }

  lemma UnsignedIsWritten(body: string, l: Literal, negative: bool) returns (point: bool)
    requires ReadUnsigned(body, negative) == Some(l)
    ensures l.negative == negative && l.whole + l.frac != "" && (point || l.frac == "")
    ensures body == if point then l.whole + "." + l.frac else l.whole
  {
    var dot := IndexOf(body, '.');
    point := dot < |body|;
    if point {
      assert body == body[..dot] + "." + body[dot + 1..];
    } else {
      assert body[..dot] == body;
    }
  }

  lemma ReadIsWritten(s: string, l: Literal) returns (sign: string, point: bool)
    requires ReadLiteral(s) == Some(l)
    ensures WrittenWith(s, l, sign, point)
  {
    if s != "" && (s[0] == '-' || s[0] == '+') {
      sign := if s[0] == '-' then "-" else "+";
      point := UnsignedIsWritten(s[1..], l, s[0] == '-');
      assert s == sign + s[1..];
    } else {
      sign := "";
      point := UnsignedIsWritten(s, l, false);
    }
  }

  lemma WrittenIsRead(s: string, l: Literal, sign: string, point: bool)
    requires WrittenWith(s, l, sign, point)
    ensures ReadLiteral(s) == Some(l)
  {
    var body := if point then l.whole + "." + l.frac else l.whole;
    UnsignedExactly(body, l, sign == "-", point);
    if sign == "" {
      assert s == body;
      assert s[0] == if l.whole != "" then l.whole[0] else '.';
    } else {
      assert s[0] == sign[0] && s[1..] == body;
    }
  }

  /** What is read is exactly what is written: an optional sign, digits on at least one side of an
      optional point, and nothing else. */
  lemma LiteralExactly(s: string, l: Literal)
    ensures ReadLiteral(s) == Some(l) <==> exists sign, point :: WrittenWith(s, l, sign, point)
  {
    if ReadLiteral(s) == Some(l) { var _, _ := ReadIsWritten(s, l); }
    if sign, point :| WrittenWith(s, l, sign, point) { WrittenIsRead(s, l, sign, point); }
  }

  // ---- Print then parse ----

  lemma {:induction false} ValueOfZeros(n: nat)
    ensures ValueOf(Zeros(n)) == 0
  {
    if n > 0 {
      ValueOfZeros(n - 1);
      assert Zeros(n)[..n - 1] == Zeros(n - 1);
    }
  }

  lemma ZeroPrefix(k: nat, t: string)
    requires AllDigits(t)
    ensures AllDigits(Zeros(k) + t) && ValueOf(Zeros(k) + t) == ValueOf(t)
  {
    ValueOfZeros(k);
    ValueOfConcat(Zeros(k), t);
    Nothing(ValueOf(Zeros(k)), Pow10(|t|));
  }

  lemma Nothing(x: int, p: int)
    requires x == 0
    ensures x * p == 0
  {
  }

  lemma {:induction false} ShowLength(n: nat, width: nat)
    requires 1 <= width && n < Pow10(width)
    ensures |Show(n)| <= width
  {
    if n >= 10 {
      ShowLength(n / 10, width - 1);
    }
  }

  lemma PaddedForm(n: nat, width: nat)
    requires |Show(n)| <= width
    ensures Padded(n, width) == Zeros(width - |Show(n)|) + Show(n)
  {
    Unsigned(Zeros(width - |Show(n)|), Show(n));
    Unsigned("", Show(n));
  }

  lemma Unsigned(a: string, b: string)
    ensures "" + a + b == a + b
  {
    assert "" + a == a;
  }

  /** Zero padding fills the width and keeps the value. */
  lemma PaddedDigits(n: nat, width: nat)
    requires 1 <= width && n < Pow10(width)
    ensures AllDigits(Padded(n, width)) && |Padded(n, width)| == width && ValueOf(Padded(n, width)) == n
  {
    ShowLength(n, width);
    ShowReadsBack(n);
    ZeroPrefix(width - |Show(n)|, Show(n));
    PaddedForm(n, width);
  }

  lemma ReadBody(sign: string, body: string)
    requires sign in {"", "-"} && body != "" && IsDigit(body[0])
    ensures ReadLiteral(sign + body) == ReadUnsigned(body, sign == "-")
  {
    var s := sign + body;
    assert sign == "-" ==> s[0] == '-' && s[1..] == body;
    assert sign == "" ==> s == body;
  }

  /** What a printed magnitude reads back as. */
  lemma ReadScaled(sign: string, whole: string, frac: string)
    requires sign in {"", "-"} && AllDigits(whole) && AllDigits(frac) && whole != ""
    ensures ReadLiteral(sign + (whole + "." + frac)) == Some(Literal(sign == "-", whole, frac))
  {
    var body := whole + "." + frac;
    FirstIndex(whole, '.', frac);
    assert body[0] == whole[0];
    ReadBody(sign, body);
    assert body[..|whole|] == whole && body[|whole| + 1..] == frac;
  }

  lemma ReadWhole(sign: string, whole: string)
    requires sign in {"", "-"} && AllDigits(whole) && whole != ""
    ensures ReadLiteral(sign + whole) == Some(Literal(sign == "-", whole, ""))
  {
    NoIndex(whole, '.');
    ReadBody(sign, whole);
    assert whole[..|whole|] == whole;
  }

  /** Digits of the quotient followed by the padded remainder write the whole magnitude. */
  lemma PartsOf(q: nat, r: nat, digits: nat)
    requires 1 <= digits && r < Pow10(digits)
    ensures
      var whole, frac := Show(q), Padded(r, digits);
      AllDigits(frac) && |frac| == digits && AllDigits(whole + frac) && ValueOf(whole + frac) == q * Pow10(digits) + r
  {
    PaddedDigits(r, digits);
    ShowReadsBack(q);
    ValueOfConcat(Show(q), Padded(r, digits));
  }

  lemma PrintParseWhole(amount: int)
    requires Fits(amount)
    ensures Parse(DecimalString(amount, 0), 0) == Parsed(amount)
  {
    var magnitude := Show(Abs(amount));
    ReadWhole(if amount < 0 then "-" else "", magnitude);
    ShowReadsBack(Abs(amount));
    assert magnitude + "" == magnitude;
    assert DecimalString(amount, 0) == (if amount < 0 then "-" else "") + magnitude;
    ParseExact(DecimalString(amount, 0), 0, amount);
  }

  lemma PrintParseScaled(amount: int, digits: nat)
    requires MIN < amount <= MAX && 1 <= digits <= 18
    ensures Parse(DecimalString(amount, digits), digits) == Parsed(amount)
  {
    var q, r := PrintedForm(amount, digits);
    PartsOf(q, r, digits);
    var l := Literal(amount < 0, Show(q), Padded(r, digits));
    ReadScaled(if amount < 0 then "-" else "", Show(q), Padded(r, digits));
    Whole(l, digits, amount);
    ParseExact(DecimalString(amount, digits), digits, amount);
  }

  /** A literal with as many places as the currency denotes its mantissa. */
  lemma Whole(l: Literal, digits: nat, amount: int)
    requires AllDigits(l.whole) && AllDigits(l.frac) && |l.frac| == digits && Mantissa(l) == amount
    ensures Denotes(l, digits, amount)
  {
  }

  lemma PrintedForm(amount: int, digits: nat) returns (q: nat, r: nat)
    requires MIN < amount <= MAX && 1 <= digits <= 18
    ensures r < Pow10(digits)
    ensures amount == if amount < 0 then 0 - (q * Pow10(digits) + r) else q * Pow10(digits) + r
    ensures DecimalString(amount, digits) == (if amount < 0 then "-" else "") + (Show(q) + "." + Padded(r, digits))
  {
    q, r := SplitMagnitude(Abs(amount), Pow10(digits));
    var s := Show(q) + "." + Padded(r, digits);
    assert "" + s == s;
  }

  lemma SplitMagnitude(a: nat, p: int) returns (q: nat, r: nat)
    requires p > 0
    ensures q == Quo(a, p) && r == Rem(a, p) && r < p && a == q * p + r
  {
    Division(a, p);
    if a / p < 0 { AtMostNothing(a / p + 1, p); }
    q, r := a / p, a % p;
  }

  /** What is printed: a minus sign for a negative amount, the major units in shortest form, and a point
      and exactly as many places as the currency has, if it has any. */
  lemma PrintedExactly(amount: int, digits: nat) returns (whole: nat, frac: string)
    requires MIN < amount <= MAX && digits <= 18
    ensures AllDigits(frac) && |frac| == digits && Abs(amount) == whole * Pow10(digits) + ValueOf(frac)
    ensures
      var sign, shown := if amount < 0 then "-" else "", if digits == 0 then Show(whole) else Show(whole) + "." + frac;
      DecimalString(amount, digits) == sign + shown
  {
    if digits == 0 {
      whole, frac := Abs(amount), "";
      assert "" + Show(whole) == Show(whole);
    } else {
      var r;
      whole, r := PrintedForm(amount, digits);
      frac := Padded(r, digits);
      PaddedDigits(r, digits);
    }
  }

  lemma TwoSigns(rest: string)
    requires rest != ""
    ensures ReadLiteral("-" + ("-" + rest)).None?
  {
    var s := "-" + ("-" + rest);
    var body := s[1..];
    assert body == "-" + rest && body[0] == '-';
    var dot := IndexOf(body, '.');
    assert dot > 0;
    assert !IsDigit(body[..dot][0]);
  }

  lemma MinimumQuotient(p: int)
    requires 0 < p <= -MIN
    ensures Wrap(-MIN) == MIN && Quo(MIN, p) < 0
  {
    Division(-MIN, p);
    if -MIN / p <= 0 { AtMostNothing(-MIN / p, p); }
  }

  lemma SignFirst(sign: string, a: string, b: string, c: string)
    ensures sign + (a + b + c) == (sign + a) + b + c
  {
  }

  lemma MinimumPrinted(digits: nat) returns (rest: string)
    requires 1 <= digits <= 18
    ensures rest != "" && DecimalString(MIN, digits) == "-" + ("-" + rest)
  {
    var p := Pow10(digits);
    Pow10Fits(digits);
    MinimumQuotient(p);
    var shown := Show(-Quo(MIN, p));
    assert Plain(Quo(MIN, p)) == "-" + shown;
    rest := shown + "." + Padded(Rem(MIN, p), digits);
    SignFirst("-", shown, ".", Padded(Rem(MIN, p), digits));
  }

  /** The magnitude of the minimum int64 wraps to itself, so two signs are printed. */
  lemma MinimumUnreadable(digits: nat)
    requires 1 <= digits <= 18
    ensures Parse(DecimalString(MIN, digits), digits) == NotPlain
  {
    var rest := MinimumPrinted(digits);
    TwoSigns(rest);
  }

  lemma AtMostNothing(x: int, p: int)
    requires x <= 0 && p > 0
    ensures x * p <= 0
  {
  }

  /** Printing then parsing gives the amount back, except for the minimum int64 with decimal places. */
  lemma PrintParse(amount: int, digits: nat)
    requires Fits(amount) && digits <= 18
    ensures Parse(DecimalString(amount, digits), digits) == Parsed(amount) <==> !(amount == MIN && digits > 0)
  {
    if digits == 0 {
      PrintParseWhole(amount);
    } else if amount == MIN {
      MinimumUnreadable(digits);
    } else {
      PrintParseScaled(amount, digits);
    }
  }
}
