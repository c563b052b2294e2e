/** Spelling of real constants: which texts are accepted, and which decimal each one is. */
module AtariRealText {
  import opened Wrappers
  import opened AtariReal
  import C = ConstExpr

  datatype Failure = Failure(kind: ErrorKind, offset: nat)

  // ----- reading -----

  function FirstNonAscii(text: string): (n: nat)
    ensures n <= |text| && (forall i :: 0 <= i < n ==> text[i] as int < 128) && (n < |text| ==> text[n] as int >= 128)
  {
    if text == [] || text[0] as int >= 128 then 0 else 1 + FirstNonAscii(text[1..])
  }

  function SignLength(text: string): (n: nat)
    ensures n <= |text|
  {
    if text != [] && (text[0] == '+' || text[0] == '-') then 1 else 0
  }

  predicate Minus(text: string) { text != [] && text[0] == '-' }

  function Run(text: string): (n: nat)
    ensures n <= |text|
  {
    C.Span(text, C.IsDigit)
  }

  function DigitOf(c: char): digit { if C.IsDigit(c) then c as int - '0' as int else 0 }

  function DigitsOf(text: string): (ds: seq<digit>)
    ensures |ds| == |text|
  {
    seq(|text|, i requires 0 <= i < |text| => DigitOf(text[i]))
  }

  function FractionLength(text: string): (n: nat)
    ensures n <= |text|
  {
    if text != [] && text[0] == '.' then 1 + Run(text[1..]) else 0
  }

  /** Length and value of an exponent, or what is wrong with it and how far in. */
  function Exponent(text: string): (r: Result<(nat, int), Failure>)
    ensures r.Ok? ==> r.value.0 <= |text|
  {
    if text == [] || !(text[0] == 'E' || text[0] == 'e') then Ok((0, 0))
    else
      var rest := text[1..];
      var start := SignLength(rest);
      var n := Run(rest[start..]);
      if n == 0 then Err(Failure(MissingExponentDigits, 1 + start))
      else if n > 2 then Err(Failure(ExponentHasMoreThanTwoDigits, 1 + start + 2))
      else
        var v: int := Value(DigitsOf(rest[start..start + n]));
        Ok((1 + start + n, if Minus(rest) then -v else v))
  }

  /**
   * The rest of the work once the integer digits are known to lie in [start, point) and the fraction in [point, end).
   */
  function ParseAt(text: string, start: nat, point: nat, end: nat): Result<Decimal, Failure>
    requires start <= point <= end <= |text|
  {
    var fractional := if end == point then 0 else end - point - 1;
    if point - start + fractional == 0 then Err(Failure(MissingDigits, end))
    else
      var e := Exponent(text[end..]);
      if e.Err? then Err(e.error.(offset := end + e.error.offset))
      else if end + e.value.0 != |text| then Err(Failure(UnexpectedCharacter, end + e.value.0))
      else
        Ok(Decimal(Minus(text), DigitsOf(text[start..point]) + DigitsOf(text[end - fractional..end]), e.value.1 - fractional))
  }

  function Parse(text: string): Result<Decimal, Failure> {
    if FirstNonAscii(text) < |text| then Err(Failure(UnexpectedCharacter, FirstNonAscii(text)))
    else
      var start := SignLength(text);
      var point := start + Run(text[start..]);
      ParseAt(text, start, point, point + FractionLength(text[point..]))
  }

  method ConsumeDigits(text: string, from: nat) returns (position: nat)
    requires from <= |text|
    ensures position == from + Run(text[from..])
  {
    position := from;
    while position < |text| && C.IsDigit(text[position])
      invariant from <= position <= |text|
      invariant forall i :: from <= i < position ==> C.IsDigit(text[i])
    {
      position := position + 1;
    }
    C.SpanIs(text[from..], C.IsDigit, position - from);
  }

  method ParseExponent(text: string, from: nat) returns (r: Result<(nat, int), Failure>)
    requires from <= |text|
    ensures var e := Exponent(text[from..]);
      r == if e.Err? then Err(e.error.(offset := from + e.error.offset)) else Ok((from + e.value.0, e.value.1))
  {
    hide Run;
    var position := from;
    if position < |text| && (text[position] == 'E' || text[position] == 'e') {
      ghost var rest := text[from..][1..];
      position := position + 1;
      assert text[position..] == rest;
      var negative := position < |text| && text[position] == '-';
      if position < |text| && (text[position] == '+' || text[position] == '-') {
        position := position + 1;
      }
      var start := position;
      assert text[start..] == rest[SignLength(rest)..];
      position := ConsumeDigits(text, start);
      if position == start { return Err(Failure(MissingExponentDigits, position)); }
      if position - start > 2 { return Err(Failure(ExponentHasMoreThanTwoDigits, start + 2)); }
      assert text[start..position] == rest[SignLength(rest)..SignLength(rest) + Run(rest[SignLength(rest)..])];
      var value: int := Value(DigitsOf(text[start..position]));
      return Ok((position, if negative then -value else value));
    }
    r := Ok((position, 0));
  }

  method ParseText(text: string) returns (r: Result<Decimal, Failure>)
    ensures r == Parse(text)
  {
    hide Run, Exponent, FirstNonAscii, ParseAt;
    var odd := FirstNonAscii(text);
    if odd < |text| { return Err(Failure(UnexpectedCharacter, odd)); }
    var position := 0;
    var negative := false;
    if text != [] && text[0] == '+' {
      position := 1;
    } else if text != [] && text[0] == '-' {
      position := 1;
      negative := true;
    }
    var start := position;
    position := ConsumeDigits(text, position);
    var point, fractional := position, 0;
    if position < |text| && text[position] == '.' {
      position := position + 1;
      assert text[point..][1..] == text[position..];
      var fractionStart := position;
      position := ConsumeDigits(text, position);
      fractional := position - fractionStart;
    }
    assert position == point + FractionLength(text[point..]);
    assert Parse(text) == ParseAt(text, start, point, position);
    r := FinishDecimal(text, negative, start, point, position, fractional);
  }

  /** What follows the digits, and the decimal they make. */
  method FinishDecimal(text: string, negative: bool, start: nat, point: nat, end: nat, fractional: nat)
    returns (r: Result<Decimal, Failure>)
    requires start <= point <= end <= |text| && negative == Minus(text) && fractional == if end == point then 0 else end - point - 1
    ensures r == ParseAt(text, start, point, end)
  {
    hide Exponent;
    if point - start + fractional == 0 { return Err(Failure(MissingDigits, end)); }
    var e := ParseExponent(text, end);
    if e.Err? { return Err(e.error); }
    if e.value.0 != |text| { return Err(Failure(UnexpectedCharacter, e.value.0)); }
    r := Ok(Decimal(negative, DigitsOf(text[start..point]) + DigitsOf(text[end - fractional..end]),
        e.value.1 - fractional));
  }

  method FromDecimal(text: string) returns (r: Result<Packed, Failure>)
    ensures r == match Parse(text)
      case Err(f) => Err(f)
      case Ok(d) => (match Encoded(d) case Err(kind) => Err(Failure(kind, |text|)) case Ok(b) => Ok(b))
  {
    hide Parse, Encoded;
    var d := ParseText(text);
    if d.Err? { return Err(d.error); }
    var b := Encode(d.value);
    if b.Err? { return Err(Failure(b.error, |text|)); }
    r := Ok(b.value);
  }

  // ----- spelling -----

  datatype Sign = Unsigned | PlusSign | MinusSign

  datatype Power = Power(capital: bool, sign: Sign, digits: seq<digit>)

  datatype Form = Form(sign: Sign, integers: seq<digit>, fraction: Option<seq<digit>>, power: Option<Power>)

  function DigitChar(d: digit): (c: char)
    ensures C.IsDigit(c) && DigitOf(c) == d
  {
    ('0' as int + d as int) as char
  }

  function Write(ds: seq<digit>): (s: string)
    ensures |s| == |ds| && (forall i :: 0 <= i < |s| ==> C.IsDigit(s[i])) && DigitsOf(s) == ds
  {
    var s := seq(|ds|, i requires 0 <= i < |ds| => DigitChar(ds[i]));
    assert DigitsOf(s) == ds;
    s
  }

  function SignText(s: Sign): string {
    match s
    case Unsigned => ""
    case PlusSign => "+"
    case MinusSign => "-"
  }

  function FractionText(f: Option<seq<digit>>): string { if f.None? then "" else "." + Write(f.value) }

  function PowerText(p: Option<Power>): string {
    if p.None? then "" else (if p.value.capital then "E" else "e") + (SignText(p.value.sign) + Write(p.value.digits))
  }

  function Spell(f: Form): string {
    SignText(f.sign) + (Write(f.integers) + (FractionText(f.fraction) + PowerText(f.power)))
  }

  function FractionDigits(f: Form): seq<digit> { if f.fraction.None? then [] else f.fraction.value }

  predicate Legal(f: Form) {
    |f.integers| + |FractionDigits(f)| > 0 && (f.power.Some? ==> 1 <= |f.power.value.digits| <= 2)
  }

  /** The decimal a spelling stands for. */
  function Meaning(f: Form): Decimal {
    var e := if f.power.None? then 0 else Value(f.power.value.digits);
    var signed: int := if f.power.Some? && f.power.value.sign.MinusSign? then -e else e;
    Decimal(f.sign.MinusSign?, f.integers + FractionDigits(f), signed - |FractionDigits(f)|)
  }

  // ----- every spelling is read as what it stands for -----

  lemma RunOf(ds: seq<digit>, tail: string)
    requires tail == [] || !C.IsDigit(tail[0])
    ensures Run(Write(ds) + tail) == |ds| && (Write(ds) + tail)[..|ds|] == Write(ds)
      && (Write(ds) + tail)[|ds|..] == tail
  {
    hide Write;
    C.SpanIs(Write(ds) + tail, C.IsDigit, |ds|);
  }

  lemma SignOf(s: Sign, tail: string)
    requires tail == [] || (tail[0] != '+' && tail[0] != '-')
    ensures SignLength(SignText(s) + tail) == |SignText(s)| && (Minus(SignText(s) + tail) <==> s.MinusSign?)
    ensures (SignText(s) + tail)[|SignText(s)|..] == tail
  {
    match s
    case Unsigned => assert "" + tail == tail;
    case PlusSign =>
    case MinusSign =>
  }

  lemma PowerReads(p: Option<Power>)
    requires p.Some? ==> 1 <= |p.value.digits| <= 2
    ensures var e := if p.None? then 0 else Value(p.value.digits);
      var signed: int := if p.Some? && p.value.sign.MinusSign? then -e else e;
      Exponent(PowerText(p)) == Ok((|PowerText(p)|, signed))
  {
    hide Write, Run, Value;
    if p.Some? {
      var s, w := SignText(p.value.sign), Write(p.value.digits);
      assert PowerText(p)[1..] == s + w;
      SignOf(p.value.sign, w);
      assert w + "" == w;
      RunOf(p.value.digits, "");
      assert w[0..|w|] == w;
      assert (s + w)[|s|..|s| + |w|] == w;
    }
  }

  lemma FractionReads(fraction: Option<seq<digit>>, tail: string)
    requires tail == [] || (!C.IsDigit(tail[0]) && tail[0] != '.')
    ensures FractionLength(FractionText(fraction) + tail) == |FractionText(fraction)|
    ensures (FractionText(fraction) + tail)[|FractionText(fraction)|..] == tail
  {
    hide Write, Run;
    if fraction.None? {
      assert "" + tail == tail;
    } else {
      var w := Write(fraction.value);
      assert (("." + w) + tail)[1..] == w + tail;
      RunOf(fraction.value, tail);
    }
  }

  predicate AllAscii(s: string) { FirstNonAscii(s) == |s| }

  lemma {:induction false} AsciiAppend(a: string, b: string)
    requires AllAscii(a) && AllAscii(b)
    ensures AllAscii(a + b)
  {
    if a == "" {
      assert a + b == b;
    } else {
      assert (a + b)[1..] == a[1..] + b;
      AsciiAppend(a[1..], b);
    }
  }

  lemma {:induction false} AsciiDigits(s: string)
    requires forall i :: 0 <= i < |s| ==> C.IsDigit(s[i])
    ensures AllAscii(s)
  {
    if s != "" { AsciiDigits(s[1..]); }
  }

  lemma AsciiSign(s: Sign)
    ensures AllAscii(SignText(s))
  {
  }

  lemma AsciiFraction(f: Option<seq<digit>>)
    ensures AllAscii(FractionText(f))
  {
    hide Write;
    if f.Some? {
      AsciiDigits(Write(f.value));
      AsciiAppend(".", Write(f.value));
    }
  }

  lemma AsciiPower(p: Option<Power>)
    ensures AllAscii(PowerText(p))
  {
    hide Write;
    if p.Some? {
      AsciiSign(p.value.sign);
      AsciiDigits(Write(p.value.digits));
      AsciiAppend(SignText(p.value.sign), Write(p.value.digits));
      AsciiAppend(if p.value.capital then "E" else "e", SignText(p.value.sign) + Write(p.value.digits));
    }
  }

  lemma Ascii(f: Form)
    ensures FirstNonAscii(Spell(f)) == |Spell(f)|
  {
    hide Write, SignText, FractionText, PowerText, FirstNonAscii;
    AsciiSign(f.sign);
    AsciiDigits(Write(f.integers));
    AsciiFraction(f.fraction);
    AsciiPower(f.power);
    AsciiAppend(FractionText(f.fraction), PowerText(f.power));
    AsciiAppend(Write(f.integers), FractionText(f.fraction) + PowerText(f.power));
    AsciiAppend(SignText(f.sign), Write(f.integers) + (FractionText(f.fraction) + PowerText(f.power)));
  }

  lemma SpellSplits(f: Form)
    ensures var text := Spell(f);
      var a, b, c := |SignText(f.sign)|, |f.integers|, |FractionText(f.fraction)|;
      && SignLength(text) == a && Run(text[a..]) == b && FractionLength(text[a + b..]) == c
      && (Minus(text) <==> f.sign.MinusSign?)
      && text[a..a + b] == Write(f.integers) && text[a + b..a + b + c] == FractionText(f.fraction)
          && text[a + b + c..] == PowerText(f.power)
  {
    hide Write, Run, FractionLength, SignLength, Minus, SignText, FractionText, PowerText;
    var fr, pw := FractionText(f.fraction), PowerText(f.power);
    Starts(f);
    SignOf(f.sign, Write(f.integers) + (fr + pw));
    RunOf(f.integers, fr + pw);
    FractionReads(f.fraction, pw);
    Slices(SignText(f.sign), Write(f.integers), fr, pw);
  }

  predicate StartsOutside(s: string, no: set<char>) { s == [] || (!C.IsDigit(s[0]) && s[0] !in no) }

  /** No part of a spelling starts with what would belong to the part before it. */
  lemma Starts(f: Form)
    ensures var fr, pw := FractionText(f.fraction), PowerText(f.power);
      && StartsOutside(pw, {'.'}) && StartsOutside(fr + pw, {})
      && var body := Write(f.integers) + (fr + pw); (body == [] || (body[0] != '+' && body[0] != '-'))
  {
    hide Write;
    var fr, pw := FractionText(f.fraction), PowerText(f.power);
    if f.integers != [] { assert C.IsDigit(Write(f.integers)[0]); }
  }

  /** A legal spelling is accepted and read as its meaning. */
  lemma SpelledIsParsed(f: Form)
    requires Legal(f)
    ensures Parse(Spell(f)) == Ok(Meaning(f))
  {
    hide Write, Run, Exponent, FirstNonAscii, FractionLength, Value, DigitsOf, SignLength, SignText, PowerText,
         Minus, Spell;
    var text := Spell(f);
    Ascii(f);
    SpellSplits(f);
    PowerReads(f.power);
    var start := |SignText(f.sign)|;
    var point := start + |f.integers|;
    var end := point + |FractionText(f.fraction)|;
    if f.fraction.None? {
      NoDigits0(text[end..end]);
    } else {
      assert text[point..end][1..] == text[point + 1..end];
    }
  }

  lemma NoDigits0(text: string)
    requires text == []
    ensures DigitsOf(text) == []
  {
  }

  lemma Slices(a: string, b: string, c: string, d: string)
    ensures var text := a + (b + (c + d));
      && text[|a|..] == b + (c + d) && text[|a|..|a| + |b|] == b
      && text[|a| + |b|..] == c + d && text[|a| + |b|..|a| + |b| + |c|] == c
      && text[|a| + |b| + |c|..] == d && |text| == |a| + |b| + |c| + |d|
  {
  }

  // ----- and nothing else is accepted -----

  lemma WrittenBack(s: string)
    requires forall i :: 0 <= i < |s| ==> C.IsDigit(s[i])
    ensures Write(DigitsOf(s)) == s
  {
    var w := Write(DigitsOf(s));
    forall i | 0 <= i < |s|
      ensures w[i] == s[i]
    {
      assert DigitsOf(w)[i] == DigitsOf(s)[i];
      assert C.IsDigit(w[i]) && C.IsDigit(s[i]);
    }
  }

  lemma RunIsDigits(text: string)
    ensures Write(DigitsOf(text[..Run(text)])) == text[..Run(text)]
  {
    WrittenBack(text[..Run(text)]);
  }

  function SignRead(text: string): Sign {
    if text == [] then Unsigned else if text[0] == '+' then PlusSign else if text[0] == '-' then MinusSign else Unsigned
  }

  lemma SignBack(text: string)
    ensures SignText(SignRead(text)) == text[..SignLength(text)] && (SignRead(text).MinusSign? <==> Minus(text))
  {
  }

  lemma PowerBack(text: string) returns (p: Option<Power>)
    requires Exponent(text).Ok? && Exponent(text).value.0 == |text|
    ensures PowerText(p) == text && (p.Some? ==> 1 <= |p.value.digits| <= 2)
    ensures var e: int := if p.None? then 0 else Value(p.value.digits);
      Exponent(text).value.1 == if p.Some? && p.value.sign.MinusSign? then -e else e
  {
    hide Write, Value, Run;
    if text == [] {
      p := None;
    } else {
      var rest := text[1..];
      var start := SignLength(rest);
      var digits := rest[start..];
      SignBack(rest);
      RunIsDigits(digits);
      assert Run(digits) == |digits|;
      assert digits[..|digits|] == digits && rest[start..start + |digits|] == digits;
      p := Some(Power(text[0] == 'E', SignRead(rest), DigitsOf(digits)));
      assert rest == rest[..start] + digits;
      assert text == [text[0]] + rest;
    }
  }

  lemma FractionBack(text: string) returns (fraction: Option<seq<digit>>)
    ensures var n := FractionLength(text);
      && FractionText(fraction) == text[..n] && (fraction.None? <==> n == 0)
      && (fraction.Some? ==> fraction.value == DigitsOf(text[1..n]))
  {
    hide Write, Run;
    var n := FractionLength(text);
    if n == 0 {
      fraction := None;
    } else {
      var rest := text[1..];
      RunIsDigits(rest);
      assert text[1..n] == rest[..n - 1];
      fraction := Some(DigitsOf(text[1..n]));
      assert text[..n] == "." + text[1..n];
    }
  }

  lemma FourParts(text: string, start: nat, point: nat, end: nat)
    requires start <= point <= end <= |text|
    ensures text == text[..start] + (text[start..point] + (text[point..end] + text[end..]))
    ensures text[start..][..point - start] == text[start..point] && text[point..][..end - point] == text[point..end]
    ensures end > point ==> text[point..][1..end - point] == text[point + 1..end]
  {
    assert text[point..] == text[point..end] + text[end..];
    assert text[start..] == text[start..point] + text[point..];
    assert text == text[..start] + text[start..];
  }

  /** Whatever is accepted is a legal spelling, of the decimal it was read as. */
  lemma ParsedIsSpelled(text: string) returns (f: Form)
    requires Parse(text).Ok?
    ensures Legal(f) && Spell(f) == text && Meaning(f) == Parse(text).value
  {
    hide Write, Run, Exponent, FractionLength, Value, FirstNonAscii, SignLength, Minus, SignText, FractionText,
         PowerText, SignRead, DigitsOf;
    var start := SignLength(text);
    var point := start + Run(text[start..]);
    var end := point + FractionLength(text[point..]);
    FourParts(text, start, point, end);
    SignBack(text);
    RunIsDigits(text[start..]);
    var fraction := FractionBack(text[point..]);
    var power := PowerBack(text[end..]);
    f := Form(SignRead(text), DigitsOf(text[start..point]), fraction, power);
    if fraction.None? { NoDigits0(text[end..end]); }
  }
}
