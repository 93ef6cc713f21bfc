/**
  The atom classifier: a word token becomes an integer if it reads as one,
  otherwise a float if it reads as one, otherwise a symbol holding the token
  text unchanged.

  Integers carry their value. Floats carry their token text; no floating-point
  value is computed. `AtomText` prints an atom back to a token, and the
  round-trip lemmas connect it with `Classify`.
*/
module Atoms {
  import opened Lexer

  datatype Atom = Integer(value: int) | Float(text: string) | Symbol(name: string)

  predicate IsDigit(c: char) {
    '0' <= c <= '9'
  }

  predicate AllDigits(s: string) {
    forall i :: 0 <= i < |s| ==> IsDigit(s[i])
  }

  predicate IsSign(c: char) {
    c == '+' || c == '-'
  }

  /** `t` without its leading sign, if it has one. */
  function DropSign(t: string): (u: string)
    ensures |u| <= |t|
  {
    if |t| > 0 && IsSign(t[0]) then t[1..] else t
  }

  /** An optional sign followed by one or more decimal digits. */
  predicate IsIntLiteral(t: string) {
    var u := DropSign(t);
    |u| > 0 && AllDigits(u)
  }

  /** Position of the first character satisfying `p`, or `|s|` if none does. */
  function IndexOf(s: string, p: char -> bool): (i: nat)
    ensures i <= |s|
    ensures forall j :: 0 <= j < i ==> !p(s[j])
    ensures i < |s| ==> p(s[i])
  {
    if |s| == 0 || p(s[0]) then 0 else 1 + IndexOf(s[1..], p)
  }

  /** Digits with an optional decimal point, and at least one digit: `12`,
      `12.`, `.5`, `1.5`. */
  predicate IsMantissa(m: string) {
    var d := IndexOf(m, c => c == '.');
    if d == |m| then |m| > 0 && AllDigits(m)
    else |m| > 1 && AllDigits(m[..d]) && AllDigits(m[d + 1..])
  }

  /** An optional sign, a mantissa, and an optional exponent `e`/`E` followed by
      an integer literal. */
  predicate IsFloatLiteral(t: string) {
    var u := DropSign(t);
    var e := IndexOf(u, c => c == 'e' || c == 'E');
    IsMantissa(u[..e]) && (e == |u| || IsIntLiteral(u[e + 1..]))
  }

  function DigitValue(c: char): nat
    requires IsDigit(c)
  {
    (c as int) - ('0' as int)
  }

  function DigitChar(n: nat): (c: char)
    requires n < 10
    ensures IsDigit(c) && DigitValue(c) == n
  {
    ('0' as int + n) as char
  }

  /** The value of a string of decimal digits (leading zeros allowed). */
  function DigitsValue(d: string): nat
    requires AllDigits(d)
  {
    if |d| == 0 then 0 else 10 * DigitsValue(d[..|d| - 1]) + DigitValue(d[|d| - 1])
  }

  /** The value of an integer literal. */
  function IntValue(t: string): int
    requires IsIntLiteral(t)
  {
    if t[0] == '-' then -(DigitsValue(t[1..]) as int) else DigitsValue(DropSign(t))
  }

  /** Integer first, then float, then symbol. Floats and symbols keep the
      token text, and a word always classifies to a canonical atom. */
  function Classify(t: string): (r: Atom)
    ensures r.Integer? || AtomText(r) == t
    ensures IsWord(t) ==> Canonical(r)
  {
    if IsIntLiteral(t) then Integer(IntValue(t))
    else if IsFloatLiteral(t) then Float(t)
    else Symbol(t)
  }

  // ---------------------------------------------------------------------------
  // Printing atoms back to text

  /** Decimal digits of `n`, without leading zeros. */
  function NatText(n: nat): (s: string)
    ensures |s| > 0 && AllDigits(s)
  {
    if n < 10 then [DigitChar(n)] else NatText(n / 10) + [DigitChar(n % 10)]
  }

  function IntText(v: int): string {
    if v < 0 then "-" + NatText(-v) else NatText(v)
  }

  /** The token text of an atom. */
  function AtomText(a: Atom): string {
    match a
    case Integer(v) => IntText(v)
    case Float(t) => t
    case Symbol(n) => n
  }

  /** The atoms `Classify` can produce from a word token. */
  predicate Canonical(a: Atom) {
    match a
    case Integer(_) => true
    case Float(t) => IsWord(t) && IsFloatLiteral(t) && !IsIntLiteral(t)
    case Symbol(n) => IsWord(n) && !IsIntLiteral(n) && !IsFloatLiteral(n)
  }

  // ---------------------------------------------------------------------------
  // Lemmas

  /** Reading back the digits of `n` gives `n`. */
  lemma {:induction false} NatTextValue(n: nat)
    ensures DigitsValue(NatText(n)) == n
    decreases n
  {
    if n >= 10 {
      var s := NatText(n);
      NatTextValue(n / 10);
      assert s[..|s| - 1] == NatText(n / 10);
      assert s[|s| - 1] == DigitChar(n % 10);
    }
  }

  /** `IntText` prints an integer literal whose value is the integer. */
  lemma IntTextValue(v: int)
    ensures IsIntLiteral(IntText(v))
    ensures IntValue(IntText(v)) == v
  {
    if v < 0 {
      NatTextValue(-v);
      assert ("-" + NatText(-v))[1..] == NatText(-v);
    } else {
      NatTextValue(v);
      assert IsDigit(NatText(v)[0]);
    }
  }

  // ---------------------------------------------------------------------------
  // Integer tokens, described through the printer

  /** `z` zero digits. */
  function Zeros(z: nat): (s: string)
    ensures |s| == z && AllDigits(s)
  {
    seq(z, _ => '0')
  }

  /** A decimal numeral without redundant leading zeros. */
  predicate IsNumeral(d: string) {
    |d| > 0 && AllDigits(d) && (d[0] != '0' || |d| == 1)
  }

  lemma {:induction false} ZerosValue(z: nat)
    ensures DigitsValue(Zeros(z)) == 0
    decreases z
  {
    if z > 0 {
      assert Zeros(z)[..z - 1] == Zeros(z - 1);
      ZerosValue(z - 1);
    }
  }

  /** Leading zeros do not change the value of a digit string. */
  lemma {:induction false} LeadingZerosValue(z: nat, d: string)
    requires AllDigits(d)
    ensures AllDigits(Zeros(z) + d)
    ensures DigitsValue(Zeros(z) + d) == DigitsValue(d)
    decreases |d|
  {
    var s := Zeros(z) + d;
    assert forall i :: 0 <= i < |s| ==> IsDigit(s[i]) by {
      forall i | 0 <= i < |s| ensures IsDigit(s[i]) {
        if i >= z { assert s[i] == d[i - z]; }
      }
    }
    if |d| == 0 {
      assert s == Zeros(z);
      ZerosValue(z);
    } else {
      assert s[..|s| - 1] == Zeros(z) + d[..|d| - 1];
      assert s[|s| - 1] == d[|d| - 1];
      LeadingZerosValue(z, d[..|d| - 1]);
    }
  }

  /** A digit string that does not start with `0` has a positive value. */
  lemma {:induction false} LeadingDigitValue(d: string)
    requires |d| > 0 && AllDigits(d) && d[0] != '0'
    ensures DigitsValue(d) >= 1
    decreases |d|
  {
    if |d| > 1 {
      LeadingDigitValue(d[..|d| - 1]);
    }
  }

  /** Printing the value of a numeral gives the numeral back. */
  lemma {:induction false} NumeralText(d: string)
    requires IsNumeral(d)
    ensures NatText(DigitsValue(d)) == d
    decreases |d|
  {
    var v := DigitsValue(d);
    if |d| == 1 {
      assert DigitChar(DigitValue(d[0])) == d[0];
    } else {
      var p := d[..|d| - 1];
      LeadingDigitValue(p);
      NumeralText(p);
      assert v / 10 == DigitsValue(p) && v % 10 == DigitValue(d[|d| - 1]);
      assert DigitChar(DigitValue(d[|d| - 1])) == d[|d| - 1];
      assert d == p + [d[|d| - 1]];
    }
  }

  /** Every non-empty digit string is some zeros followed by a numeral. */
  lemma {:induction false} StripZeros(d: string) returns (z: nat)
    requires |d| > 0 && AllDigits(d)
    ensures z < |d| && d == Zeros(z) + d[z..] && IsNumeral(d[z..])
    decreases |d|
  {
    if d[0] == '0' && |d| > 1 {
      var y := StripZeros(d[1..]);
      z := y + 1;
      assert d[z..] == d[1..][y..];
      assert Zeros(z) == "0" + Zeros(y);
      assert d == [d[0]] + d[1..];
    } else {
      z := 0;
      assert d == Zeros(0) + d;
    }
  }

  /** Zeros followed by the numeral of `n` are digits worth `n`. */
  lemma UnsignedParts(z: nat, n: nat)
    ensures |Zeros(z) + NatText(n)| > 0 && AllDigits(Zeros(z) + NatText(n))
    ensures DigitsValue(Zeros(z) + NatText(n)) == n
  {
    LeadingZerosValue(z, NatText(n));
    NatTextValue(n);
  }

  /** A sign (or none) before a non-empty digit string makes an integer
      literal, negative under `-`. */
  lemma SignedLiteral(s: string, u: string)
    requires s == "" || s == "+" || s == "-"
    requires |u| > 0 && AllDigits(u)
    ensures IsIntLiteral(s + u)
    ensures IntValue(s + u) == if s == "-" then -(DigitsValue(u) as int) else DigitsValue(u)
  {
    var t := s + u;
    assert !IsSign(u[0]);
    if s == "" {
      assert t == u && t[0] != '-';
    } else {
      assert t[0] == s[0] && t[1..] == u;
    }
  }

  /** An optional sign, some zeros and a numeral make an integer literal. */
  lemma PartsIntLiteral(s: string, z: nat, n: nat)
    requires s == "" || s == "+" || s == "-"
    ensures IsIntLiteral(s + Zeros(z) + NatText(n))
    ensures IntValue(s + Zeros(z) + NatText(n)) == if s == "-" then -(n as int) else n
  {
    var u := Zeros(z) + NatText(n);
    UnsignedParts(z, n);
    SignedLiteral(s, u);
    SpellingAssoc(s, Zeros(z), NatText(n));
  }

  lemma SpellingAssoc(s: string, a: string, b: string)
    ensures s + a + b == s + (a + b)
  {
  }

  /** An optional sign, any number of zeros and the decimal numeral of `n`
      classify as the integer `n`, negated under a minus sign. */
  lemma ClassifyInteger(s: string, z: nat, n: nat)
    requires s == "" || s == "+" || s == "-"
    ensures Classify(s + Zeros(z) + NatText(n)) == Integer(if s == "-" then -(n as int) else n)
  {
    PartsIntLiteral(s, z, n);
  }

  /** An integer literal is its sign (or none) followed by its digits. */
  lemma SplitSign(t: string) returns (s: string)
    requires IsIntLiteral(t)
    ensures s == "" || s == "+" || s == "-"
    ensures t == s + DropSign(t)
    ensures IntValue(t) == if s == "-" then -(DigitsValue(DropSign(t)) as int) else DigitsValue(DropSign(t))
  {
    if IsSign(t[0]) {
      s := [t[0]];
      assert t == s + t[1..];
    } else {
      s := "";
      assert t == s + t;
    }
  }

  /** An integer literal is an optional sign, some zeros and a numeral. */
  lemma IntLiteralParts(t: string) returns (s: string, z: nat, n: nat)
    requires IsIntLiteral(t)
    ensures s == "" || s == "+" || s == "-"
    ensures t == s + Zeros(z) + NatText(n)
    ensures IntValue(t) == if s == "-" then -(n as int) else n
  {
    s := SplitSign(t);
    var u := DropSign(t);
    z, n := DigitsParts(u);
    assert s + u == s + Zeros(z) + NatText(n);
  }

  /** A non-empty digit string is some zeros and the numeral of its value. */
  lemma DigitsParts(u: string) returns (z: nat, n: nat)
    requires |u| > 0 && AllDigits(u)
    ensures u == Zeros(z) + NatText(n) && DigitsValue(u) == n
  {
    z := StripZeros(u);
    var r := u[z..];
    n := DigitsValue(r);
    NumeralText(r);
    LeadingZerosValue(z, r);
  }

  /** Conversely, every token that classifies as an integer is an optional
      sign, some zeros and the decimal numeral of its absolute value. */
  lemma ClassifyIntegerParts(t: string) returns (s: string, z: nat, n: nat)
    requires Classify(t).Integer?
    ensures s == "" || s == "+" || s == "-"
    ensures t == s + Zeros(z) + NatText(n)
    ensures Classify(t).value == if s == "-" then -(n as int) else n
  {
    assert IsIntLiteral(t);
    s, z, n := IntLiteralParts(t);
  }

  /** The text of an integer is a word: digits and possibly a minus sign. */
  lemma IntTextIsWord(v: int)
    ensures IsWord(IntText(v))
  {
    var s := IntText(v);
    forall i | 0 <= i < |s|
      ensures IsWordChar(s[i])
    {
      if v < 0 && i > 0 {
        assert s[i] == NatText(-v)[i - 1];
      }
    }
  }

  /** Every mantissa holds at least one digit. */
  lemma MantissaHasDigit(m: string) returns (k: nat)
    requires IsMantissa(m)
    ensures k < |m| && IsDigit(m[k])
  {
    var d := IndexOf(m, c => c == '.');
    if d == |m| {
      k := 0;
    } else if d > 0 {
      assert m[..d][0] == m[0];
      k := 0;
    } else {
      assert m[d + 1..][0] == m[d + 1];
      k := d + 1;
    }
  }

  /** Every number literal holds a digit, so a token without digits, such as
      `pi`, `*` or `begin`, is always a symbol. */
  lemma ClassifyNoDigits(t: string)
    requires forall i :: 0 <= i < |t| ==> !IsDigit(t[i])
    ensures Classify(t) == Symbol(t)
  {
    var u := DropSign(t);
    var off := if |t| > 0 && IsSign(t[0]) then 1 else 0;
    assert forall j :: 0 <= j < |u| ==> u[j] == t[j + off];
    if IsFloatLiteral(t) {
      var e := IndexOf(u, c => c == 'e' || c == 'E');
      var k := MantissaHasDigit(u[..e]);
    }
  }

  /** Digits, a decimal point and more digits (either side may be empty, but
      not both) make a float: `3.14`, `10.`, `.5`. */
  lemma ClassifyDecimalPoint(w: string, f: string)
    requires AllDigits(w) && AllDigits(f) && |w| + |f| > 0
    ensures Classify(w + "." + f) == Float(w + "." + f)
  {
    var t := w + "." + f;
    assert t[|w|] == '.';
    assert forall j :: 0 <= j < |t| ==> t[j] == '.' || IsDigit(t[j]);
    assert DropSign(t) == t;
    var e := IndexOf(t, c => c == 'e' || c == 'E');
    assert e == |t|;
    assert t[..e] == t;
    var d := IndexOf(t, c => c == '.');
    assert d == |w|;
    assert t[..d] == w;
    assert t[d + 1..] == f;
  }

  /** Classifying a word token always yields a canonical atom. */
  lemma ClassifyCanonical(t: string)
    requires IsWord(t)
    ensures Canonical(Classify(t))
  {
  }

  /** Printing a canonical atom gives a word that classifies back to the atom. */
  lemma AtomRoundTrip(a: Atom)
    requires Canonical(a)
    ensures IsWord(AtomText(a))
    ensures Classify(AtomText(a)) == a
  {
    if a.Integer? {
      IntTextValue(a.value);
      IntTextIsWord(a.value);
    }
  }

  /** Re-classifying the printed form of a classified word gives the same atom. */
  lemma ClassifyStable(t: string)
    requires IsWord(t)
    ensures Classify(AtomText(Classify(t))) == Classify(t)
  {
    ClassifyCanonical(t);
    AtomRoundTrip(Classify(t));
  }

  // ---------------------------------------------------------------------------
  // The classifier as written

  /** What evaluating a piece of lis.py produces: a value, or the name
      whose lookup failed. */
  datatype Evaluated<T> = Value(value: T) | UnboundName(name: string)

  /** The names lis.py binds at module level. `Symbol` is not one of
      them: it is never defined or imported. */
  const ModuleNames: set<string> := {"tokenize", "program", "parse", "read_from_tokens", "atom"}

  /** `atom` as written: the fallback constructs a `Symbol`, which is looked
      up among the module's names. */
  function AtomAsWritten(t: string): Evaluated<Atom> {
    if IsIntLiteral(t) then Value(Integer(IntValue(t)))
    else if IsFloatLiteral(t) then Value(Float(t))
    else if "Symbol" in ModuleNames then Value(Symbol(t))
    else UnboundName("Symbol")
  }

  /** As written, `atom` agrees with `Classify` on numbers and fails with an
      unbound `Symbol` on every other token. */
  lemma AtomAsWrittenFails(t: string)
    ensures Classify(t).Symbol? ==> AtomAsWritten(t) == UnboundName("Symbol")
    ensures !Classify(t).Symbol? ==> AtomAsWritten(t) == Value(Classify(t))
  {
    assert "Symbol" !in ModuleNames;
  }

  /** The symbol `pi` of the demonstration program is one such token. */
  lemma AtomAsWrittenPi()
    ensures AtomAsWritten("pi") == UnboundName("Symbol")
    ensures Classify("pi") == Symbol("pi")
  {
    ClassifyNoDigits("pi");
    AtomAsWrittenFails("pi");
  }
}
