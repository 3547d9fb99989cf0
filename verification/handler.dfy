/** What the conversion handlers do to the results table when the value text
    or the source system changes. The window class connects its own
    `perform_conversion` to both signals; main.py builds the same window and
    connects its `on_convert_clicked` to them as well, so started through
    main.py every edit runs both, one after the other, on the one table.
    The float parser is a parameter (`toFloat`), and so is the
    source-system index the combo box reports. The text a cell shows is
    `Trim.FormatFixed` of the rounded value, and rounding is float
    behaviour, so an outcome carries the converted numbers only. */
module Handler {
  import opened Optional
  import opened Text
  import opened Categories
  import opened Conversion
  import opened Tables
  import opened Input
  import ValuePattern

  datatype Outcome =
    | ClearValues              // the value and scientific cells are emptied
    | NoChange                 // the table is left as it was
    | Rows(values: seq<real>)  // one converted value per result row

  /** The quantity main.py's handler reads, or None where it raises its
      ValueError (a refused text, or a text the parser refuses). */
  function ParseQuantity(text: string, sep: char, toFloat: string -> Option<real>): (r: Option<real>)
    ensures BlankOrLoneSign(Strip(text), sep) ==> r.None?
    ensures !BlankOrLoneSign(Strip(text), sep) ==>
      exists t :: IsDotted(Strip(text), sep, t) && r == toFloat(t)
    ensures ValuePattern.MatchesPattern(text) ==>
      exists t :: IsDotted(text, sep, t) && r == toFloat(t)
  {
    PreparedTextIsDotted(text, sep);
    match PrepareMain(text, sep)
    case None => None
    case Some(t) => toFloat(t)
  }

  /** Converting there and back along every row of an `n`-row table. */
  lemma RowsConvertBack(category: string, src: int, qty: real, n: nat)
    ensures forall k :: 0 <= k < n ==> Convert(category, k, src, Convert(category, src, k, qty)) == qty
  {
    forall k | 0 <= k < n ensures Convert(category, k, src, Convert(category, src, k, qty)) == qty {
      ConvertRoundTrip(category, src, k, qty);
    }
  }

  /** main.py's handler: one row per unit system of the category, each the
      quantity converted from the source system to that row's. */
  function OnConvert(text: string, sep: char, toFloat: string -> Option<real>,
                     category: string, src: int): (r: Outcome)
    ensures ParseQuantity(text, sep, toFloat).None? <==> r == ClearValues
    ensures r == NoChange <==> ParseQuantity(text, sep, toFloat).Some? && category == ""
    ensures r.Rows? ==> |r.values| == (if category in CategoryUnitsMain then 3 else 0)
    ensures r.Rows? && IsSystem(src) && category in CategoryUnitsMain ==>
      r.values[src] == ParseQuantity(text, sep, toFloat).value
  {
    ThreePerEntry();
    match ParseQuantity(text, sep, toFloat)
    case None => ClearValues
    case Some(qty) =>
      if category == "" then NoChange
      else
        var n := if category in CategoryUnitsMain then |CategoryUnitsMain[category]| else 0;
        Rows(seq(n, k => Convert(category, src, k, qty)))
  }

  /** Every value main.py's handler shows converts back to the typed
      quantity. */
  lemma ShownValuesConvertBack(text: string, sep: char, toFloat: string -> Option<real>,
                               category: string, src: int)
    requires OnConvert(text, sep, toFloat, category, src).Rows?
    ensures var vs := OnConvert(text, sep, toFloat, category, src).values;
      forall k :: 0 <= k < |vs| ==> Convert(category, k, src, vs[k]) == ParseQuantity(text, sep, toFloat).value
  {
    var qty := ParseQuantity(text, sep, toFloat).value;
    var vs := OnConvert(text, sep, toFloat, category, src).values;
    assert forall k :: 0 <= k < |vs| ==> vs[k] == Convert(category, src, k, qty);
    RowsConvertBack(category, src, qty, |vs|);
  }

  /** The window class's handler over a table of `rowCount` rows. An empty
      property clears the table before any parsing; every value it shows
      converts back to the typed quantity. */
  function PerformConversion(text: string, property: string, toFloat: string -> Option<real>,
                             src: int, rowCount: nat): (r: Outcome)
    ensures r != NoChange
    ensures r == ClearValues <==> property == "" || PrepareGui(text).None? || toFloat(PrepareGui(text).value).None?
    ensures r.Rows? ==> |r.values| == rowCount
    ensures r.Rows? && IsSystem(src) && src < rowCount ==> r.values[src] == toFloat(PrepareGui(text).value).value
    ensures r.Rows? ==> forall k :: 0 <= k < |r.values| ==>
      Convert(property, k, src, r.values[k]) == toFloat(PrepareGui(text).value).value
  {
    match PrepareGui(text)
    case None => ClearValues
    case Some(t) =>
      if property == "" then ClearValues
      else
        match toFloat(t)
        case None => ClearValues
        case Some(qty) =>
          RowsConvertBack(property, src, qty, rowCount);
          Rows(seq(rowCount, k => Convert(property, src, k, qty)))
  }

  /** With ',' as the separator, a parser that refuses a lone sign (as
      Python's float does) and a known category, both handlers produce the
      same outcome on a three-row table. */
  lemma HandlersAgreeOnComma(text: string, toFloat: string -> Option<real>, property: string, src: int)
    requires toFloat("+").None? && toFloat("-").None?
    requires property in CategoryUnitsMain
    ensures OnConvert(text, ',', toFloat, property, src) == PerformConversion(text, property, toFloat, src, 3)
  {
    PreparationsAgreeOnComma(text);
    ThreePerEntry();
    assert |CategoryUnitsMain[property]| == 3;
    SameKeys();
    KeyIsListed(property);
    var m := PrepareMain(text, ',');
    var g := PrepareGui(text);
    if m.Some? {
      assert g == m;
    } else if g.Some? {
      assert toFloat(g.value).None?;
    }
  }

  /** Started through main.py, one edit runs the window class's handler and
      then main.py's, in the order the two connections are made. What the
      table shows afterwards is main.py's outcome, unless that one leaves
      the table alone, in which case the first handler's stands. */
  function OnEdit(text: string, sep: char, toFloat: string -> Option<real>,
                  property: string, src: int, rowCount: nat): (r: Outcome)
    ensures r != NoChange
    ensures r == ClearValues <==> ParseQuantity(text, sep, toFloat).None? || property == ""
    ensures r.Rows? ==> |r.values| == (if property in CategoryUnitsMain then 3 else 0)
    ensures r.Rows? ==> forall k :: 0 <= k < |r.values| ==>
      Convert(property, k, src, r.values[k]) == ParseQuantity(text, sep, toFloat).value
  {
    var first := PerformConversion(text, property, toFloat, src, rowCount);
    match OnConvert(text, sep, toFloat, property, src)
    case NoChange => first
    case ClearValues => ClearValues
    case Rows(values) =>
      ShownValuesConvertBack(text, sep, toFloat, property, src);
      Rows(values)
  }

  /** With '.' as the locale separator, the validator lets "1,5" in and the
      window class's handler shows it converted, but main.py's handler,
      running second, hands "1,5" to a parser that refuses it and clears
      the values again. */
  lemma DotLocaleClearsCommaValue(toFloat: string -> Option<real>, property: string, src: int, rowCount: nat)
    requires toFloat("1.5").Some? && toFloat("1,5").None?
    requires property != ""
    ensures ValuePattern.MatchesPattern("1,5")
    ensures PerformConversion("1,5", property, toFloat, src, rowCount).Rows?
    ensures OnEdit("1,5", '.', toFloat, property, src, rowCount) == ClearValues
  {
    ValuePattern.AcceptsCommaDecimal();
    CommaBetween('1', '5');
  }
}
