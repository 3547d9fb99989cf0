/** `convert_to_html_unit`: the chain of five `str.replace` calls that turns
    a unit label with superscript digits into rich text for a Qt label. */
module HtmlUnit {
  import opened Text

  const Sup2: char := '²'
  const Sup3: char := '³'
  const Sup4: char := '⁴'
  const MiddleDot: char := '·'
  const DotOperator: char := '⋅'

  /** The five replacements, in source order. */
  function Step1(s: string): string { ReplaceAll(s, [Sup2], "<sup>2</sup>") }
  function Step2(s: string): string { ReplaceAll(s, [Sup3], "<sup>3</sup>") }
  function Step3(s: string): string { ReplaceAll(s, [Sup4], "<sup>4</sup>") }
  function Step4(s: string): string { ReplaceAll(s, [MiddleDot], [DotOperator]) }
  function Step5(s: string): string { ReplaceAll(s, ['K', Sup4], "K<sup>4</sup>") }

  /** The label as the method returns it. */
  function ToHtml(unit: string): string {
    Step5(Step4(Step3(Step2(Step1(unit)))))
  }

  /** The reference definition: each character on its own, the three
      superscript digits becoming `<sup>` markup, the middle dot becoming the
      dot operator, and every other character kept as it is. */
  function Subst(c: char): (r: string)
    ensures Sup2 !in r && Sup3 !in r && Sup4 !in r && MiddleDot !in r
    ensures c !in {Sup2, Sup3, Sup4, MiddleDot} ==> r == [c]
  {
    if c == Sup2 then "<sup>2</sup>"
    else if c == Sup3 then "<sup>3</sup>"
    else if c == Sup4 then "<sup>4</sup>"
    else if c == MiddleDot then [DotOperator]
    else [c]
  }

  /** The per-character rewriting of a whole label, left to right. */
  function SubstAll(s: string): (r: string)
    ensures Sup2 !in r && Sup3 !in r && Sup4 !in r && MiddleDot !in r
    ensures (forall k :: 0 <= k < |s| ==> s[k] !in {Sup2, Sup3, Sup4, MiddleDot}) ==> r == s
  {
    if s == [] then [] else Subst(s[0]) + SubstAll(s[1..])
  }

  /** The first four replacements act character by character. */
  lemma FirstFourOnOneChar(c: char)
    ensures Step4(Step3(Step2(Step1([c])))) == Subst(c)
  {
    ReplaceCharSingle(c, Sup2, "<sup>2</sup>");
    if c == Sup2 {
      LaterStepsKeep(Step1([c]), 2);
    } else {
      ReplaceCharSingle(c, Sup3, "<sup>3</sup>");
      if c == Sup3 {
        LaterStepsKeep(Step2([c]), 3);
      } else {
        ReplaceCharSingle(c, Sup4, "<sup>4</sup>");
        if c == Sup4 {
          LaterStepsKeep(Step3([c]), 4);
        } else {
          ReplaceCharSingle(c, MiddleDot, [DotOperator]);
        }
      }
    }
  }

  /** Markup free of the characters the later steps look for passes them
      unchanged: `done` is the last step already applied. */
  lemma LaterStepsKeep(m: string, done: nat)
    requires 2 <= done <= 4
    requires MiddleDot !in m && (done < 4 ==> Sup4 !in m) && (done < 3 ==> Sup3 !in m)
    ensures done == 2 ==> Step4(Step3(Step2(m))) == m
    ensures done == 3 ==> Step4(Step3(m)) == m
    ensures done == 4 ==> Step4(m) == m
  {
    if done < 3 {
      ReplaceAbsent(m, [Sup3], "<sup>3</sup>", Sup3);
    }
    if done < 4 {
      ReplaceAbsent(m, [Sup4], "<sup>4</sup>", Sup4);
    }
    ReplaceAbsent(m, [MiddleDot], [DotOperator], MiddleDot);
  }

  /** ... and so distribute over concatenation. */
  lemma FirstFourConcat(a: string, b: string)
    ensures Step4(Step3(Step2(Step1(a + b)))) == Step4(Step3(Step2(Step1(a)))) + Step4(Step3(Step2(Step1(b))))
  {
    ReplaceCharConcat(a, b, Sup2, "<sup>2</sup>");
    ReplaceCharConcat(Step1(a), Step1(b), Sup3, "<sup>3</sup>");
    ReplaceCharConcat(Step2(Step1(a)), Step2(Step1(b)), Sup4, "<sup>4</sup>");
    ReplaceCharConcat(Step3(Step2(Step1(a))), Step3(Step2(Step1(b))), MiddleDot, [DotOperator]);
  }

  /** The first four replacements compute the reference rewriting. */
  lemma {:induction false} FirstFourIsSubstAll(s: string)
    ensures Step4(Step3(Step2(Step1(s)))) == SubstAll(s)
    decreases |s|
  {
    if s != [] {
      assert s == [s[0]] + s[1..];
      FirstFourConcat([s[0]], s[1..]);
      FirstFourOnOneChar(s[0]);
      FirstFourIsSubstAll(s[1..]);
    }
  }

  /** The last replacement, of "K⁴", can never match: every '⁴' is gone by
      then, so it leaves its input unchanged. */
  lemma LastReplacementIsDead(unit: string)
    ensures Step5(Step4(Step3(Step2(Step1(unit))))) == Step4(Step3(Step2(Step1(unit))))
  {
    var t := Step4(Step3(Step2(Step1(unit))));
    FirstFourIsSubstAll(unit);
    ReplaceAbsent(t, ['K', Sup4], "K<sup>4</sup>", Sup4);
  }

  /** The whole chain is the per-character rewriting: no superscript digit
      and no middle dot survive, and every other character of the label is
      kept, in order. */
  lemma ToHtmlIsSubstAll(unit: string)
    ensures ToHtml(unit) == SubstAll(unit)
    ensures Sup2 !in ToHtml(unit) && Sup3 !in ToHtml(unit) && Sup4 !in ToHtml(unit)
    ensures MiddleDot !in ToHtml(unit)
  {
    LastReplacementIsDead(unit);
    FirstFourIsSubstAll(unit);
  }

  /** Rewriting an already rewritten label changes nothing. */
  lemma ToHtmlIdempotent(unit: string)
    ensures ToHtml(ToHtml(unit)) == ToHtml(unit)
  {
    var h := ToHtml(unit);
    ToHtmlIsSubstAll(unit);
    ToHtmlIsSubstAll(h);
    assert forall k :: 0 <= k < |h| ==> h[k] !in {Sup2, Sup3, Sup4, MiddleDot};
  }

  lemma {:induction false} SubstAllConcat(a: string, b: string)
    ensures SubstAll(a + b) == SubstAll(a) + SubstAll(b)
    decreases |a|
  {
    if a != [] {
      assert (a + b)[1..] == a[1..] + b;
      SubstAllConcat(a[1..], b);
    } else {
      assert a + b == b;
    }
  }

  lemma SubstAllOne(c: char)
    ensures SubstAll([c]) == Subst(c)
  {
    assert [c][1..] == [];
  }

  /** A plain prefix followed by one character rewrites only that character. */
  lemma PlainThenChar(p: string, c: char)
    requires forall k :: 0 <= k < |p| ==> p[k] !in {Sup2, Sup3, Sup4, MiddleDot}
    ensures ToHtml(p + [c]) == p + Subst(c)
  {
    ToHtmlIsSubstAll(p + [c]);
    SubstAllConcat(p, [c]);
    SubstAllOne(c);
  }

  /** A label of the unit table, rewritten. */
  lemma ToHtmlPressureLabel(u: string)
    requires u == "N/mm²"
    ensures ToHtml(u) == "N/mm<sup>2</sup>"
  {
    var p := u[..4];
    assert u == p + [Sup2];
    PlainThenChar(p, Sup2);
  }
}
