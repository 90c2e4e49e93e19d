/**
 * Decoding of the numeric fields of a progress line (`_to_int`, `_to_float`).
 * A float literal is modelled by its decimal grammar: an optional sign, then
 * digits with an optional fraction, or a fraction alone; its value is an
 * exact decimal number.
 */
module Decode {
  import opened Wrappers
  import opened Text
  import opened Numerals
  import opened Decimals

  /** A decimal literal cut into its sign, integer digits, point and fraction digits. */
  datatype Literal = Literal(sign: string, whole: string, dot: bool, frac: string)

  /** The text a literal is written as. */
  function Spell(p: Literal): string {
    p.sign + p.whole + (if p.dot then ['.'] + p.frac else [])
  }

  predicate WellFormed(p: Literal) {
    (p.sign == "" || p.sign == "+" || p.sign == "-") &&
    AllDigits(p.whole) && AllDigits(p.frac) && |p.whole| + |p.frac| > 0 && (!p.dot ==> p.frac == [])
  }

  function SignLen(s: string): (n: nat)
    ensures n <= |s|
  {
    if |s| > 0 && (s[0] == '+' || s[0] == '-') then 1 else 0
  }

  /** Cuts the unsigned part of a literal at its first point. */
  function CutBody(sign: string, body: string): (p: Literal)
    ensures p.sign == sign && Spell(p) == sign + body
  {
    var k := IndexOf(body, '.');
    if k < |body| then
      SpellAtPoint(sign, body, k);
      Literal(sign, body[..k], true, body[k + 1..])
    else
      assert sign + body + [] == sign + body;
      Literal(sign, body, false, [])
  }

  lemma SpellAtPoint(sign: string, body: string, k: nat)
    requires k < |body| && body[k] == '.'
    ensures Spell(Literal(sign, body[..k], true, body[k + 1..])) == sign + body
  {
    var whole, frac := body[..k], body[k + 1..];
    assert body == whole + (['.'] + frac);
    assert sign + whole + (['.'] + frac) == sign + (whole + (['.'] + frac));
  }

  /** Cuts any text at its sign and its first point; `Spell` puts it back together. */
  function Cut(s: string): (p: Literal)
    ensures Spell(p) == s
  {
    var n := SignLen(s);
    assert s == s[..n] + s[n..];
    CutBody(s[..n], s[n..])
  }

  /** The number a well-formed literal denotes: whole + frac / 10^|frac|, signed. */
  function Value(p: Literal): Decimal
    requires WellFormed(p)
  {
    var mag := DigitsValue(p.whole) * Pow10(|p.frac|) + DigitsValue(p.frac);
    Normalize(Decimal(if p.sign == "-" then -mag else mag, |p.frac|))
  }

  /**
   * `float(s)` restricted to decimal literals; anything else is `None`. An
   * accepted text has no whitespace at either end and is read as a value in
   * its shortest form, so that "1.50" and "1.5" are the same number.
   */
  function ParseDecimal(s: string): (r: Option<Decimal>)
    ensures r.Some? ==> Normal(r.value)
    ensures r.Some? ==> s != [] && !IsSpace(s[0]) && (IsDigit(s[|s| - 1]) || s[|s| - 1] == '.')
  {
    var p := Cut(s);
    if WellFormed(p) then
      SpellEnds(p);
      Some(Value(p))
    else None
  }

  /** The text of a well-formed literal starts with a sign, a digit or a point and ends in a digit or a point. */
  lemma SpellEnds(p: Literal)
    requires WellFormed(p)
    ensures var s := Spell(p);
      s != [] && !IsSpace(s[0]) && (IsDigit(s[|s| - 1]) || s[|s| - 1] == '.')
  {
    var s := Spell(p);
    var tail := if p.dot then ['.'] + p.frac else [];
    assert s == (p.sign + p.whole) + tail;
    if tail == [] {
      assert s == p.sign + p.whole;
      assert s[|s| - 1] == p.whole[|p.whole| - 1];
    } else {
      assert s[|s| - 1] == tail[|tail| - 1];
    }
    if p.sign != [] {
      assert s[0] == p.sign[0];
    } else if p.whole != [] {
      assert s[0] == p.whole[0];
    } else {
      assert s[0] == '.';
    }
  }

  lemma CutBodySpell(p: Literal)
    requires WellFormed(p)
    ensures CutBody(p.sign, p.whole + (if p.dot then ['.'] + p.frac else [])) == p
  {
    assert '.' !in p.whole;
    if p.dot {
      IndexOfAppend(p.whole, '.', p.frac);
      assert p.whole + ['.'] + p.frac == p.whole + (['.'] + p.frac);
      var body := p.whole + (['.'] + p.frac);
      assert body[..|p.whole|] == p.whole;
      assert body[|p.whole| + 1..] == p.frac;
    } else {
      assert p.whole + [] == p.whole;
    }
  }

  /** Cutting the text of a well-formed literal gives the literal back. */
  lemma CutSpell(p: Literal)
    requires WellFormed(p)
    ensures Cut(Spell(p)) == p
  {
    var s := Spell(p);
    var rest := p.whole + (if p.dot then ['.'] + p.frac else []);
    assert s == p.sign + rest;
    assert rest != [] ==> rest[0] == '.' || IsDigit(rest[0]);
    if p.sign == "" {
      assert s == rest;
      assert SignLen(s) == 0;
    } else {
      assert SignLen(s) == 1;
      assert s[..1] == p.sign;
      assert s[1..] == rest;
    }
    CutBodySpell(p);
  }

  /** Every well-formed decimal literal is accepted, with the value it denotes. */
  lemma ParseDecimalSpell(p: Literal)
    requires WellFormed(p)
    ensures ParseDecimal(Spell(p)) == Some(Value(p))
  {
    CutSpell(p);
  }

  /** Conversely, whatever is accepted is the text of a well-formed literal. */
  lemma SpellOfParseDecimal(s: string) returns (p: Literal)
    requires ParseDecimal(s).Some?
    ensures WellFormed(p) && s == Spell(p) && ParseDecimal(s) == Some(Value(p))
  {
    p := Cut(s);
  }

  /** The text of a literal is made of its sign, digits and point only. */
  lemma SpellChars(p: Literal)
    requires WellFormed(p)
    ensures forall c :: c in Spell(p) ==> IsDigit(c) || c == '+' || c == '-' || c == '.'
  {
  }

  predicate IsAbsentToken(v: string) {
    v == "" || v == "NA" || v == "None"
  }

  /** A text ending in a digit or a point is none of the absent-tokens. */
  lemma NotAbsentToken(s: string)
    requires s != [] && (IsDigit(s[|s| - 1]) || s[|s| - 1] == '.')
    ensures !IsAbsentToken(s)
  {
    assert "NA"[1] == 'A' && "None"[3] == 'e';
  }

  /** `_to_float`: a stripped field that is blank, "NA", "None" or unparsable is absent. */
  function ToFloat(value: string): (r: Option<Decimal>)
    ensures IsAbsentToken(Strip(value)) ==> r == None
    ensures r == ParseDecimal(Strip(value))
  {
    var v := Strip(value);
    if IsAbsentToken(v) then
      assert ParseDecimal(v).None? by {
        if ParseDecimal(v).Some? { NotAbsentToken(v); }
      }
      None
    else ParseDecimal(v)
  }

  /** `_to_int`: the same field decoding, truncated toward zero like `int(float(v))`. */
  function ToInt(value: string): (r: Option<int>)
    ensures r.Some? <==> ToFloat(value).Some?
    ensures r.Some? ==> r.value == Trunc(ToFloat(value).value)
  {
    var v := Strip(value);
    if IsAbsentToken(v) then None
    else match ParseDecimal(v)
      case None => None
      case Some(x) => Some(Trunc(x))
  }

  /** `str(n)` is the spelling of a sign-and-digits literal. */
  lemma IntToStringSpell(n: int) returns (p: Literal)
    ensures WellFormed(p) && IntToString(n) == Spell(p) && Value(p) == Decimal(n, 0)
  {
    var m: nat := if n < 0 then -n else n;
    p := Literal(if n < 0 then "-" else "", NatToString(m), false, "");
    DigitsOfNat(m);
    assert Spell(p) == p.sign + p.whole + [];
  }

  /** The text of every well-formed literal decodes to the value it denotes, and to its truncation as an integer. */
  lemma ToFloatOfSpell(p: Literal)
    requires WellFormed(p)
    ensures ToFloat(Spell(p)) == Some(Value(p))
    ensures ToInt(Spell(p)) == Some(Trunc(Value(p)))
  {
    ParseDecimalSpell(p);
    DecodeAccepted(Spell(p));
  }

  /** A text `float` accepts as it stands is decoded to its value by both conversions. */
  lemma DecodeAccepted(s: string)
    requires ParseDecimal(s).Some?
    ensures ToFloat(s) == ParseDecimal(s)
    ensures ToInt(s) == Some(Trunc(ParseDecimal(s).value))
  {
    StripIdentity(s);
  }

  /** `str(n)` of an integer decodes back to `n` as a float. */
  lemma ToFloatOfInt(n: int)
    ensures ToFloat(IntToString(n)) == Some(Decimal(n, 0))
  {
    var p := IntToStringSpell(n);
    ToFloatOfSpell(p);
  }

  /** `str(n)` of an integer decodes back to `n`. */
  lemma ToIntOfInt(n: int)
    ensures ToInt(IntToString(n)) == Some(n)
  {
    ToFloatOfInt(n);
    TruncWhole(n);
  }

  /** The placeholders the engine prints for a missing number decode to absent. */
  lemma ToIntOfNA()
    ensures ToInt("NA") == None && ToFloat("NA") == None
    ensures ToInt("None") == None && ToFloat("None") == None
  {
    StripIdentity("NA");
    StripIdentity("None");
  }
}
