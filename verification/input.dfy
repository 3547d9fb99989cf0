/** Turning the value field's text into the text handed to the float
    parser. There are two conversion handlers on the one window, and each
    prepares the text its own way. The one in main.py strips the text, swaps
    the locale's decimal separator for '.', and refuses an empty text or a
    lone sign; the window class's own handler (gui_converter.py) strips,
    refuses an empty text and swaps ',' for '.'. */
module Input {
  import opened Optional
  import opened Text
  import ValuePattern

  /** A stripped text main.py's handler refuses as "empty or incomplete":
      nothing, or a lone sign (unless the sign is the separator, which the
      swap has already turned into '.'). */
  predicate BlankOrLoneSign(st: string, sep: char) {
    |st| == 0 || (|st| == 1 && ValuePattern.IsSign(st[0]) && st[0] != sep)
  }

  /** `text` with every `sep` replaced by '.', position by position. */
  predicate IsDotted(text: string, sep: char, t: string) {
    && |t| == |text|
    && forall k :: 0 <= k < |text| ==> t[k] == (if text[k] == sep then '.' else text[k])
  }

  /** main.py's preparation; None is its "empty or incomplete" rejection. */
  function PrepareMain(text: string, sep: char): (r: Option<string>)
    ensures r.None? <==> BlankOrLoneSign(Strip(text), sep)
    ensures r.Some? ==> IsDotted(Strip(text), sep, r.value)
  {
    var st := Strip(text);
    ReplaceCharByChar(st, sep, '.');
    var t := ReplaceAll(st, [sep], ['.']);
    if t == [] || t == "+" || t == "-" then None else Some(t)
  }

  /** The window class's preparation: only an all-space text is refused
      here; a lone sign is left to the float parser. */
  function PrepareGui(text: string): (r: Option<string>)
    ensures r.None? <==> forall k :: 0 <= k < |text| ==> IsSpace(text[k])
    ensures r.Some? ==> IsDotted(Strip(text), ',', r.value)
  {
    var st := Strip(text);
    ReplaceCharByChar(st, ',', '.');
    if st == [] then None else Some(ReplaceAll(st, [','], ['.']))
  }

  /** With ',' as the locale separator the two handlers hand the same text
      to the parser, except that main.py's refuses a lone sign itself. */
  lemma PreparationsAgreeOnComma(text: string)
    ensures PrepareMain(text, ',').Some? ==> PrepareGui(text) == PrepareMain(text, ',')
    ensures PrepareGui(text).Some? && PrepareMain(text, ',').None? ==>
      PrepareGui(text).value in ["+", "-"]
  {
    var st := Strip(text);
    var m := PrepareMain(text, ',');
    var g := PrepareGui(text);
    if m.Some? {
      assert g.Some?;
      assert g.value == m.value;
    }
    if g.Some? && m.None? {
      assert |st| == 1 && ValuePattern.IsSign(st[0]);
      assert g.value == [st[0]];
    }
  }

  /** Whatever the validator lets into the field passes main.py's check,
      whichever separator the locale uses. */
  lemma AcceptedTextIsPrepared(text: string, sep: char)
    requires ValuePattern.MatchesPattern(text)
    ensures PrepareMain(text, sep).Some?
    ensures IsDotted(text, sep, PrepareMain(text, sep).value)
  {
    ValuePattern.AcceptedShape(text);
    assert !IsSpace(text[0]) by { assert ValuePattern.InAlphabet(text[0]); }
    assert !IsSpace(text[|text| - 1]) by { assert ValuePattern.InAlphabet(text[|text| - 1]); }
    StripUnchanged(text);
  }

  /** What main.py's preparation hands on is the stripped text, dotted; a
      text the validator accepts is handed on, itself dotted. */
  lemma PreparedTextIsDotted(text: string, sep: char)
    ensures PrepareMain(text, sep).Some? ==> IsDotted(Strip(text), sep, PrepareMain(text, sep).value)
    ensures ValuePattern.MatchesPattern(text) ==>
      PrepareMain(text, sep).Some? && IsDotted(text, sep, PrepareMain(text, sep).value)
  {
    if ValuePattern.MatchesPattern(text) {
      AcceptedTextIsPrepared(text, sep);
    }
  }

  /** A comma between two other characters, neither a space nor a
      separator: the window class dots the comma, and main.py with '.' as
      the separator leaves the text as it is. */
  lemma CommaBetween(a: char, b: char)
    requires !IsSpace(a) && !IsSpace(b)
    requires a != ',' && a != '.' && b != ',' && b != '.'
    ensures PrepareGui([a, ',', b]) == Some([a, '.', b])
    ensures PrepareMain([a, ',', b], '.') == Some([a, ',', b])
  {
    var s := [a, ',', b];
    StripUnchanged(s);
    var g := PrepareGui(s).value;
    assert IsDotted(s, ',', g);
    assert g == [a, '.', b] by {
      assert g[0] == a && g[1] == '.' && g[2] == b;
    }
    var m := PrepareMain(s, '.').value;
    assert IsDotted(s, '.', m);
    assert m == s by {
      assert m[0] == a && m[1] == ',' && m[2] == b;
    }
  }
}
