/** The pattern the value field's validator enforces,
    `^[+-]?(\d+[.,]?\d*|\d*[.,]?\d+)([eE][+-]?\d+)?$`, read as a full match:
    a declarative reading of the pattern, a deterministic automaton for it,
    and the proof that the two accept the same strings. */
module ValuePattern {

  predicate IsDigit(c: char) {
    '0' <= c <= '9'
  }

  predicate IsSign(c: char) {
    c == '+' || c == '-'
  }

  predicate IsSeparator(c: char) {
    c == '.' || c == ','
  }

  predicate IsExpMark(c: char) {
    c == 'e' || c == 'E'
  }

  // ---------------------------------------------------------------------
  // Declarative reading. The two mantissa alternatives together say: digits
  // and at most one separator, with at least one digit somewhere.

  function SepCount(m: string): nat {
    if m == [] then 0 else (if IsSeparator(m[0]) then 1 else 0) + SepCount(m[1..])
  }

  predicate HasDigit(m: string) {
    exists k :: 0 <= k < |m| && IsDigit(m[k])
  }

  predicate MantissaChars(m: string) {
    forall k :: 0 <= k < |m| ==> IsDigit(m[k]) || IsSeparator(m[k])
  }

  predicate IsMantissa(m: string) {
    MantissaChars(m) && SepCount(m) <= 1 && HasDigit(m)
  }

  predicate AllDigits(d: string) {
    forall k :: 0 <= k < |d| ==> IsDigit(d[k])
  }

  /** `\d+` */
  predicate IsDigits(d: string) {
    |d| > 0 && AllDigits(d)
  }

  /** `[+-]?\d+`, what follows the exponent mark. */
  predicate IsExponentTail(t: string) {
    IsDigits(t) || (|t| > 0 && IsSign(t[0]) && IsDigits(t[1..]))
  }

  /** `([eE][+-]?\d+)?` */
  predicate IsExponent(e: string) {
    e == [] || (IsExpMark(e[0]) && IsExponentTail(e[1..]))
  }

  /** Where the exponent starts: the first 'e' or 'E', or the end. A
      mantissa holds neither, so this is the only place a match can split. */
  function ExpStart(b: string): (k: nat)
    ensures k <= |b|
    ensures forall j :: 0 <= j < k ==> !IsExpMark(b[j])
    ensures k < |b| ==> IsExpMark(b[k])
  {
    if b == [] then 0 else if IsExpMark(b[0]) then 0 else 1 + ExpStart(b[1..])
  }

  /** Mantissa and exponent, without the sign. */
  predicate IsUnsignedValue(b: string) {
    var k := ExpStart(b);
    IsMantissa(b[..k]) && IsExponent(b[k..])
  }

  /** The whole pattern: an optional sign, a mantissa, an optional exponent. */
  predicate MatchesPattern(s: string) {
    if |s| > 0 && IsSign(s[0]) then IsUnsignedValue(s[1..]) else IsUnsignedValue(s)
  }

  // ---------------------------------------------------------------------
  // The automaton.

  datatype State =
    | Start                                 // nothing read
    | Signed                                // the sign
    | Mantissa(digit: bool, sep: bool)      // mantissa so far: seen a digit? a separator?
    | ExpMark                               // ... then 'e' or 'E'
    | ExpSign                               // ... then a sign
    | ExpDigits                             // ... then at least one digit
    | Reject

  function Step(st: State, c: char): State {
    match st
    case Start =>
      if IsSign(c) then Signed
      else if IsDigit(c) then Mantissa(true, false)
      else if IsSeparator(c) then Mantissa(false, true)
      else Reject
    case Signed =>
      if IsDigit(c) then Mantissa(true, false)
      else if IsSeparator(c) then Mantissa(false, true)
      else Reject
    case Mantissa(d, sp) =>
      if IsDigit(c) then Mantissa(true, sp)
      else if IsSeparator(c) then (if sp then Reject else Mantissa(d, true))
      else if IsExpMark(c) then (if d then ExpMark else Reject)
      else Reject
    case ExpMark =>
      if IsSign(c) then ExpSign else if IsDigit(c) then ExpDigits else Reject
    case ExpSign =>
      if IsDigit(c) then ExpDigits else Reject
    case ExpDigits =>
      if IsDigit(c) then ExpDigits else Reject
    case Reject => Reject
  }

  predicate IsAccepting(st: State) {
    (st.Mantissa? && st.digit) || st == ExpDigits
  }

  function Run(st: State, s: string): State
    decreases |s|
  {
    if s == [] then st else Run(Step(st, s[0]), s[1..])
  }

  /** The strings the automaton accepts from each state. */
  predicate Language(st: State, r: string) {
    match st
    case Start => MatchesPattern(r)
    case Signed => IsUnsignedValue(r)
    case Mantissa(d, sp) =>
      var k := ExpStart(r);
      && MantissaChars(r[..k])
      && SepCount(r[..k]) + (if sp then 1 else 0) <= 1
      && (d || HasDigit(r[..k]))
      && IsExponent(r[k..])
    case ExpMark => IsExponentTail(r)
    case ExpSign => IsDigits(r)
    case ExpDigits => AllDigits(r)
    case Reject => false
  }

  lemma ExpStartCons(c: char, t: string)
    requires !IsExpMark(c)
    ensures ExpStart([c] + t) == 1 + ExpStart(t)
    ensures ([c] + t)[..ExpStart([c] + t)] == [c] + t[..ExpStart(t)]
    ensures ([c] + t)[ExpStart([c] + t)..] == t[ExpStart(t)..]
  {
    assert ([c] + t)[1..] == t;
  }

  lemma MantissaPartsCons(c: char, m: string)
    ensures SepCount([c] + m) == (if IsSeparator(c) then 1 else 0) + SepCount(m)
    ensures MantissaChars([c] + m) <==> (IsDigit(c) || IsSeparator(c)) && MantissaChars(m)
    ensures HasDigit([c] + m) <==> IsDigit(c) || HasDigit(m)
  {
    var cm := [c] + m;
    assert cm[1..] == m;
    assert forall k :: 0 <= k < |m| ==> cm[k + 1] == m[k];
    if HasDigit(cm) && !IsDigit(c) {
      var k :| 0 <= k < |cm| && IsDigit(cm[k]);
      assert k > 0 && IsDigit(m[k - 1]);
    }
    if MantissaChars(m) && (IsDigit(c) || IsSeparator(c)) {
      forall k | 0 <= k < |cm| ensures IsDigit(cm[k]) || IsSeparator(cm[k]) {
        if k > 0 { assert cm[k] == m[k - 1]; }
      }
    }
  }

  /** A mantissa state reading one more character. */
  lemma MantissaDerivative(d: bool, sp: bool, c: char, t: string)
    ensures Language(Mantissa(d, sp), [c] + t) <==> Language(Step(Mantissa(d, sp), c), t)
  {
    var r := [c] + t;
    if IsExpMark(c) {
      assert ExpStart(r) == 0;
      assert r[1..] == t;
      assert !HasDigit([]);
    } else {
      ExpStartCons(c, t);
      MantissaPartsCons(c, t[..ExpStart(t)]);
    }
  }

  lemma DigitsCons(c: char, t: string)
    ensures AllDigits([c] + t) <==> IsDigit(c) && AllDigits(t)
  {
    var r := [c] + t;
    if AllDigits(r) {
      assert IsDigit(r[0]);
      forall k | 0 <= k < |t| ensures IsDigit(t[k]) {
        assert t[k] == r[k + 1];
      }
    }
    if IsDigit(c) && AllDigits(t) {
      forall k | 0 <= k < |r| ensures IsDigit(r[k]) {
        if k > 0 { assert r[k] == t[k - 1]; }
      }
    }
  }

  /** Reading `c` moves to the state whose language is what is left of the
      current state's language after `c`. */
  lemma StepIsDerivative(st: State, c: char, t: string)
    ensures Language(st, [c] + t) <==> Language(Step(st, c), t)
  {
    var r := [c] + t;
    assert r[1..] == t;
    match st
    case Start =>
      if IsSign(c) {
      } else {
        assert Language(Start, r) == Language(Mantissa(false, false), r);
        MantissaDerivative(false, false, c, t);
      }
    case Signed =>
      assert Language(Signed, r) == Language(Mantissa(false, false), r);
      MantissaDerivative(false, false, c, t);
    case Mantissa(d, sp) =>
      MantissaDerivative(d, sp, c, t);
    case ExpMark =>
      DigitsCons(c, t);
    case ExpSign =>
      DigitsCons(c, t);
    case ExpDigits =>
      DigitsCons(c, t);
    case Reject =>
  }

  /** Running the automaton from any state accepts exactly that state's
      language. */
  lemma {:induction false} RunAcceptsLanguage(st: State, r: string)
    ensures IsAccepting(Run(st, r)) <==> Language(st, r)
    decreases |r|
  {
    if r == [] {
      assert !HasDigit([]);
    } else {
      assert r == [r[0]] + r[1..];
      StepIsDerivative(st, r[0], r[1..]);
      RunAcceptsLanguage(Step(st, r[0]), r[1..]);
    }
  }

  /** The validator's check: scans the text once, left to right. */
  method Matches(s: string) returns (ok: bool)
    ensures ok <==> MatchesPattern(s)
  {
    var st := Start;
    var i := 0;
    while i < |s|
      invariant 0 <= i <= |s|
      invariant Run(st, s[i..]) == Run(Start, s)
    {
      assert s[i..][1..] == s[i + 1..];
      st := Step(st, s[i]);
      i := i + 1;
    }
    ok := IsAccepting(st);
    RunAcceptsLanguage(Start, s);
  }

  // ---------------------------------------------------------------------
  // What an accepted text looks like.

  /** The characters the pattern can mention at all. */
  predicate InAlphabet(c: char) {
    IsDigit(c) || IsSign(c) || IsSeparator(c) || IsExpMark(c)
  }

  lemma {:induction false} RejectAbsorbs(s: string)
    ensures Run(Reject, s) == Reject
    decreases |s|
  {
    if s != [] {
      RejectAbsorbs(s[1..]);
    }
  }

  /** A run that ends accepting has read only alphabet characters. */
  lemma {:induction false} AcceptedRunAlphabet(st: State, s: string)
    requires IsAccepting(Run(st, s))
    ensures forall k :: 0 <= k < |s| ==> InAlphabet(s[k])
    decreases |s|
  {
    if s != [] {
      if !InAlphabet(s[0]) {
        assert Step(st, s[0]) == Reject;
        RejectAbsorbs(s[1..]);
      }
      AcceptedRunAlphabet(Step(st, s[0]), s[1..]);
      forall k | 1 <= k < |s| ensures InAlphabet(s[k]) {
        assert s[k] == s[1..][k - 1];
      }
    }
  }

  /** An accepted text is not empty, is made of alphabet characters only,
      and a one-character text is a digit (so never a lone sign). */
  lemma AcceptedShape(s: string)
    requires MatchesPattern(s)
    ensures |s| > 0
    ensures forall k :: 0 <= k < |s| ==> InAlphabet(s[k])
    ensures |s| == 1 ==> IsDigit(s[0])
  {
    RunAcceptsLanguage(Start, s);
    AcceptedRunAlphabet(Start, s);
    if |s| == 1 {
      assert s[1..] == [];
    }
  }

  /** A comma decimal with a signed exponent is taken. */
  lemma AcceptsCommaExponent()
    ensures MatchesPattern("1,5e-3")
  {
    RunAcceptsLanguage(Start, "1,5e-3");
  }

  /** A plain comma decimal is taken. */
  lemma AcceptsCommaDecimal()
    ensures MatchesPattern("1,5")
  {
    RunAcceptsLanguage(Start, "1,5");
  }

  /** A lone sign is refused. */
  lemma RefusesLoneSign()
    ensures !MatchesPattern("+") && !MatchesPattern("-")
  {
    RunAcceptsLanguage(Start, "+");
    RunAcceptsLanguage(Start, "-");
  }

  /** Two separators are refused, whichever characters they are. */
  lemma RefusesTwoSeparators()
    ensures !MatchesPattern("1.2,3")
  {
    RunAcceptsLanguage(Start, "1.2,3");
  }
}
