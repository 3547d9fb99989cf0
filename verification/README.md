# GUI-Converter, modelled in Dafny

GUI-Converter is a desktop unit converter. The user picks a physical
property ("Force", "Pressure", "Young’s Modulus", …), types a value and picks
the unit system it is in. The three systems are 0 = "m,kg,s,K",
1 = "mm,N,s,K" and 2 = "cm,g,s,K". The window then shows the value in all
three systems. A result row can be copied into a history list, which can be
cleared or saved as text.

There is one window, the `UnitConverterUI` class of gui_converter.py. It
can be started on its own, or through main.py, which builds the same window
and connects a second conversion handler to its value field and source
system. Started that way, every edit runs both handlers on the one results
table. There is no convert button: both handlers run when the text or the
source system changes.

This project models the logic behind that window:

- `Categories`: the eleven property names and how a name picks a category.
- `Conversion`: `placeholder_convert`, the per-category chain of directed
  conversions, written out as the source has it. It is checked against an
  independent reference definition: one scale vector per category.
- `Tables`: the `UNIT_LABELS` and `CATEGORY_UNITS` dictionaries in both
  files, and the two lookups `get_output_unit` and `get_default_unit`.
- `HtmlUnit`: `convert_to_html_unit`, the chain of five string
  replacements. It is checked against a character-by-character reference
  rewriting. main.py carries an identical copy of the function
  (main.py:25-32 and gui_converter.py:46-53), so the one model covers both.
- `Trim`: the clean-up of the fixed-point result text. This is the
  window-class variant and the variant in main.py's handler, with its zero case.
- `Input`: how each of the two conversion handlers turns the value field
  into the text handed to the float parser, and which texts it refuses.
- `ValuePattern`: the value field's validator pattern. It has a declarative
  reading and a one-pass automaton, and they are proved equal.
- `Handler`: what each conversion handler does to the result rows, and
  what the table shows when main.py runs both on one edit.
- `History`: adding, removing, clearing and saving history lines.
- `Text` and `Optional`: Python's `str.strip`, `str.rstrip`, `str.replace`
  and `str.split(sep, 1)`, and an option type.

Quantities are Dafny `real`s. The converter's arithmetic is therefore exact
here, where the program uses binary floats. Three things are parameters of
the model rather than part of it:

- the float parser (`toFloat`);
- the locale's decimal separator, taken to be one character;
- the locale's fixed-point rendering of a number.

## Model

| member | source | states |
|---|---|---|
| Categories.Parse | GUI_Converter/main.py:38-188 | a name selects the category that carries exactly that name, and an unknown name selects none |
| Categories.ParseName | GUI_Converter/main.py:38-188 | every category's name selects that category, so no two blocks of the chain share a name |
| Conversion.Convert | GUI_Converter/main.py:35-203 | the quantity is returned unchanged for an unknown category, for a pair on the diagonal and for an index outside 0..2 |
| Conversion.DirectedIsRescaling | GUI_Converter/main.py:38-202 | each of the 66 directed branches multiplies by the scale of the target system over the scale of the source system; an out-of-grid pair is the identity |
| Conversion.ConvertIsRescaling | GUI_Converter/main.py:35-203 | for every category and any two valid systems, the conversion is multiplication by the reference factor |
| Conversion.DirectedTransitive | GUI_Converter/main.py:38-202 | within every block of the chain, following i→j with j→k gives the same result as i→k |
| Conversion.DirectedInverse | GUI_Converter/main.py:38-202 | within every block of the chain, the i→j branch divides by the value the j→i branch gives one unit, and that value is never zero |
| Conversion.ConvertRoundTrip | GUI_Converter/main.py:35-203 | converting i→j and then j→i gives back the original quantity, for every name and every pair of indices |
| Conversion.ConvertTransitive | GUI_Converter/main.py:35-203 | converting i→j and then j→k equals converting i→k directly |
| Conversion.ConvertByInverseFactor | GUI_Converter/main.py:35-203 | the i→j factor is the reciprocal of the j→i factor, and that factor is never zero |
| Conversion.ConvertKeepsSign | GUI_Converter/main.py:35-203 | a conversion keeps the sign of the quantity and maps zero to zero |
| Conversion.ExpansionIsIdentity | GUI_Converter/main.py:173-187 | every Expansion conversion returns the quantity unchanged |
| Conversion.ConvertAnchors | GUI_Converter/main.py:38-55 | 1e6 Pa is 1 N/mm² (Pressure 0→1), and 1 N is 1e5 dyn (Force 0→2) |
| Tables.KeysAreCategoryNames | GUI_Converter/gui_converter.py:17-29 | the keys of `UNIT_LABELS` are exactly the eleven names the conversion chain knows |
| Tables.SameKeys | GUI_Converter/main.py:206-232 | all four dictionaries (two per file) have the same key set |
| Tables.ThreePerEntry | GUI_Converter/gui_converter.py:17-43 | every entry of every table holds exactly three strings, one per unit system |
| Tables.CopiesCompared | GUI_Converter/main.py:206-232 | the two `UNIT_LABELS` copies are equal; the two `CATEGORY_UNITS` copies differ only at "Expansion", where the window class has "1/K" three times |
| Tables.OutputUnit | GUI_Converter/gui_converter.py:329-331 | a known property and a row 0..2 give that row's label; the result is "?" exactly when the property is unknown or the row is out of range |
| Tables.DefaultUnit | GUI_Converter/gui_converter.py:333-334 | a known property gives its first label; the result is "Unit" exactly when the property is unknown |
| Tables.DefaultIsFirstOutputUnit | GUI_Converter/gui_converter.py:329-334 | a known property's default unit is its row-0 output unit; an unknown one gives "Unit" and "?" |
| HtmlUnit.ToHtmlIsSubstAll | GUI_Converter/gui_converter.py:46-53 | the replacement chain equals the per-character rewriting: no ², ³, ⁴ or · is left, and every other character is kept in order |
| HtmlUnit.LastReplacementIsDead | GUI_Converter/gui_converter.py:52 | the "K⁴" replacement never changes anything, because every ⁴ is gone by then |
| HtmlUnit.ToHtmlIdempotent | GUI_Converter/gui_converter.py:46-53 | rewriting an already rewritten label changes nothing |
| HtmlUnit.ToHtmlPressureLabel | GUI_Converter/gui_converter.py:48 | "N/mm²" becomes "N/mm<sup>2</sup>" |
| Trim.TrimFraction | GUI_Converter/gui_converter.py:283-294 | text without a separator is kept; otherwise only a tail is cut, made of '0's and possibly the first separator; the integer part is never cut; the separator stays only before a nonzero last digit |
| Trim.TrimFractionIdempotent | GUI_Converter/gui_converter.py:283-294 | trimmed text has nothing left to trim |
| Trim.TrimKeepsSignificant | GUI_Converter/gui_converter.py:283-294 | for an integer part without a separator, then the separator, decimals ending in a nonzero digit and any number of zeros, the trim removes exactly those zeros |
| Trim.TrimDropsZeroFraction | GUI_Converter/gui_converter.py:283-294 | when the decimals are all zeros, the trim leaves only the integer part, without the separator |
| Trim.AllZeroFractionCollapses | GUI_Converter/gui_converter.py:283-294 | "0,000000000000" trims to "0" |
| Trim.TrailingZerosDropped | GUI_Converter/gui_converter.py:283-294 | "1234.500000000000" trims to "1234.5" |
| Trim.FormatFixed | GUI_Converter/main.py:299-325 | an exact zero prints as "0"; any other value prints as the window-class trim of its rendering, so the `len(parts) > 1` else branch is dead |
| ValuePattern.RunAcceptsLanguage | GUI_Converter/gui_converter.py:116 | from every state, the automaton accepts exactly the strings that state's part of the pattern describes |
| ValuePattern.Matches | GUI_Converter/gui_converter.py:116 | the one-pass scan returns true exactly when the text matches the pattern |
| ValuePattern.AcceptedShape | GUI_Converter/gui_converter.py:116 | an accepted text is nonempty, uses only digits, signs, separators and e/E, and is a digit when it is one character long |
| ValuePattern.AcceptsCommaExponent | GUI_Converter/gui_converter.py:116 | "1,5e-3" is accepted |
| ValuePattern.RefusesLoneSign | GUI_Converter/gui_converter.py:116 | "+" and "-" are refused |
| ValuePattern.RefusesTwoSeparators | GUI_Converter/gui_converter.py:116 | "1.2,3" is refused |
| Input.PrepareMain | GUI_Converter/main.py:258-260 | the text is refused exactly when it strips to nothing or to a lone sign that is not the separator; otherwise the stripped text is returned with each separator turned into '.' |
| Input.PrepareGui | GUI_Converter/gui_converter.py:247-262 | the text is refused exactly when it is all whitespace; otherwise the stripped text is returned with each ',' turned into '.' |
| Input.PreparationsAgreeOnComma | GUI_Converter/main.py:258-260 | with ',' as the separator, the two handlers hand the parser the same text, except for a lone sign, which only main.py's handler refuses itself |
| Input.AcceptedTextIsPrepared | GUI_Converter/main.py:258-260 | whatever the validator pattern accepts passes the handler's check unchanged, apart from the separator swap, for any separator |
| Handler.ParseQuantity | GUI_Converter/main.py:256-268 | a text that strips to nothing, or to a lone sign other than the separator, gives no quantity whatever the parser; any other text gives what the parser makes of the stripped text with each separator turned into '.'; for a text the validator accepts, that is the text itself, dotted |
| Handler.OnConvert | GUI_Converter/main.py:252-281 | an unparsable value clears the cells; an empty category leaves the table alone; otherwise there are three rows for a known category and none for an unknown one, and the source system's row holds the typed quantity |
| Handler.ShownValuesConvertBack | GUI_Converter/main.py:273-281 | every value shown converts back to the typed quantity |
| Handler.PerformConversion | GUI_Converter/gui_converter.py:246-277 | the table is cleared exactly when the value or property is empty or the parser refuses the value; otherwise every row gets a value, the source row holds the quantity, and every row's value converts back to the quantity |
| Handler.HandlersAgreeOnComma | GUI_Converter/gui_converter.py:246-277 | with ',' as the separator, a parser that refuses a lone sign and a known category, both handlers produce the same rows on a three-row table |
| Handler.OnEdit | GUI_Converter/main.py:338-339 | started through main.py, an edit clears the values exactly when main.py's handler refuses the text or no property is chosen; otherwise the rows are main.py's, three for a known category, each converting back to the quantity |
| Handler.DotLocaleClearsCommaValue | GUI_Converter/main.py:258-269 | with '.' as the locale separator, "1,5" passes the validator and the window class's handler converts it, yet after both handlers run the values are cleared |
| History.FormatEntry | GUI_Converter/gui_converter.py:395-399 | a history line starts with the property name followed by a space, a vertical bar and a space, and ends with ")" |
| History.EntryNamesItsProperty | GUI_Converter/gui_converter.py:395-399 | the property name can be read back from a line as the text before its first vertical bar |
| History.Candidate | GUI_Converter/gui_converter.py:373-399 | there is a line to add exactly when something is selected, the first selected row exists with all three cells, and its value is not blank; that line is built from the row, the typed text and the two unit lookups |
| History.AddToHistory | GUI_Converter/gui_converter.py:373-406 | existing lines are never changed; at most one line is added, exactly when there is a line to add that is not already listed; a list without duplicates stays without duplicates |
| History.AddTwiceAddsOnce | GUI_Converter/gui_converter.py:401-406 | adding the same selection again changes nothing |
| History.UnselectedKeepsOrder | GUI_Converter/gui_converter.py:336-341 | after removal, the remaining lines are exactly the unselected ones, in their original order |
| History.RemovalOfDistinctLines | GUI_Converter/gui_converter.py:336-341 | when no line is repeated, a line survives exactly when it was not selected, and no line is repeated afterwards |
| History.RemoveSelected | GUI_Converter/gui_converter.py:336-341 | the removal produces the unselected lines, and an empty selection changes nothing |
| History.Clear | GUI_Converter/gui_converter.py:434-435 | clearing leaves no lines |
| History.SaveContent | GUI_Converter/gui_converter.py:412-429 | nothing is written exactly when the history is empty; otherwise the text written ends in a newline, since every entry, the last included, is followed by one |
| History.LinesRoundTrip | GUI_Converter/gui_converter.py:428-429 | the lines written, read back line by line, give exactly the history, provided no line contains a newline |
| History.SavedFileReadsBack | GUI_Converter/gui_converter.py:426-429 | a saved file read back line by line is the header, "Source Property: " plus the property, a blank line, and then the history (the final newline is stated by `History.SaveContent`) |
| History.ClearedHistorySavesNothing | GUI_Converter/gui_converter.py:412-435 | after clearing, saving writes nothing |

## Left out

- The Qt widgets, signals, event filter and stylesheet. Only the logic that
  decides what the widgets show is modelled.
- Binary floating point. `round(result, 12)`, float rounding error and
  `-0.0` are not modelled. Quantities are exact reals, so the factor
  properties hold exactly here. In the program they hold only
  approximately, and only while every value involved is a finite float
  that neither overflows nor underflows. Outside that range they fail
  outright, and the model says nothing about it:
  - overflow to inf: "1e300" converted Density 1 to 0 (a factor of 1e9)
    is inf, and converting back gives inf again, so the round trip and
    the shown-values-convert-back property do not hold;
  - underflow to 0.0: "1e-320" converted Density 0 to 1 is 0.0, so "only
    zero maps to zero" does not hold;
  - inf and nan quantities: Python's `float` reads "1e400" as inf and
    also accepts "inf" and "nan", none of which the parser parameter,
    returning a real, can give.
- The locale. The fixed-point rendering (`QLocale.toString`, with its
  thousands separators) is an input of `Trim.FormatFixed`. The decimal
  separator is one character.
- The scientific-notation cell (`.4e` and `.12e` formatting). In the
  history it is an opaque string.
- The float parser. It is a parameter. For `Handler.HandlersAgreeOnComma`
  it is only assumed to refuse "+" and "-", and for
  `Handler.DotLocaleClearsCommaValue` to read "1.5" and refuse "1,5", as
  Python's `float` does.
- File dialogs, writing the file and the error message boxes. `save_history`
  is modelled by the text it writes.
- The deferred `from main import placeholder_convert` and its
  `ImportError` branch, as well as a missing value cell in the window
  class's result loop (an uncaught error there).
- Handler.OnEdit: the outcome does not record the row count. When main.py's
  handler clears the values after the window class's handler filled them,
  the table keeps the window class's rows, emptied; the model only says the
  values are cleared. The order of the two handlers is the order in which
  the connections are made (gui_converter.py:232-233 in the constructor,
  then main.py:338-339), which Qt keeps.
- Handler.OnConvert: the cell texts are not part of the outcome. main.py's
  handler passes each value through `round` and the locale before
  `Trim.FormatFixed`, and both of those are float or locale behaviour.
- ValuePattern.Matches: it decides the pattern as a full match, which is
  what the validator calls Acceptable. The validator's Intermediate state,
  which lets a prefix such as "+" or "1e" stand while typing, is not
  modelled. Nor is the regex `$` matching before a final newline, since a
  line edit holds no newline. `\d` is read as the ASCII digits.
- History.RemoveSelected: it computes the net effect of the removal loop,
  which looks up each selected item's current row and takes it out. The
  model takes the selection as a set of original positions, not as item
  objects.
- History.Candidate: only the first selected row is used, as in the
  source. The "nothing selected" check comes from the selection model,
  which here is a list of row indices.
- `Text.ReplaceAll` requires a nonempty pattern. Every replacement in the
  source uses a nonempty pattern, and Python's behaviour for an empty
  pattern is not modelled.
- The "Expansion" entry of `CATEGORY_UNITS` differs between the two files.
  Each copy is modelled as written, and `Tables.CopiesCompared` states the
  difference. The conversion handler sizes its table from its own copy.
