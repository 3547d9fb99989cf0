/** The conversion history list of the window: adding the
    selected result row as a formatted line, removing the selected lines,
    clearing, and the text written when the history is saved. The history is
    the sequence of line texts, top to bottom. */
module History {
  import opened Optional
  import opened Text
  import opened Tables

  /** One row of the results table as the history code reads it: the unit
      system name (column 0), the shown value (column 1) and the scientific
      notation (column 2). A missing cell item is None. */
  datatype TableRow = TableRow(system: Option<string>, value: Option<string>, scientific: Option<string>)

  predicate NoDuplicates(h: seq<string>) {
    forall i, j :: 0 <= i < j < |h| ==> h[i] != h[j]
  }

  /** The line a history entry is made of. */
  function FormatEntry(property: string, sourceValue: string, sourceUnit: string, system: string,
                       converted: string, outputUnit: string, scientific: string): (e: string)
    ensures |e| > |property| + 3 && e[..|property| + 3] == property + " | "
    ensures e[|e| - 1] == ')'
  {
    property + " | " + sourceValue + " " + sourceUnit + " | "
    + "[" + system + "] " + converted + " " + outputUnit + " | "
    + " (" + scientific + ")"
  }

  /** The property name is recovered from a line as the text before its
      first '|', less the one space, when the name holds no '|'. */
  lemma EntryNamesItsProperty(property: string, sourceValue: string, sourceUnit: string, system: string,
                              converted: string, outputUnit: string, scientific: string)
    requires '|' !in property
    ensures var e := FormatEntry(property, sourceValue, sourceUnit, system, converted, outputUnit, scientific);
      SplitOnce(e, '|')[0] == property + " "
  {
    var e := FormatEntry(property, sourceValue, sourceUnit, system, converted, outputUnit, scientific);
    assert e[|property| + 1] == '|';
    assert '|' !in e[..|property| + 1] by {
      assert e[..|property| + 1] == property + " ";
    }
    var parts := SplitOnce(e, '|');
    assert |parts[0]| == IndexOf(e, '|') by {
      assert e[..|parts[0]|] == parts[0];
    }
  }

  /** The line the selected row would add, or None where the window returns
      without adding: nothing selected, a missing cell (the window catches
      the error and shows a message), or a blank converted value. Only the
      first selected row counts. */
  function Candidate(table: seq<TableRow>, selected: seq<nat>, property: string, sourceText: string): (r: Option<string>)
    ensures r.Some? <==>
      && |selected| > 0 && selected[0] < |table|
      && table[selected[0]].system.Some? && table[selected[0]].value.Some?
      && table[selected[0]].scientific.Some?
      && Strip(table[selected[0]].value.value) != []
    ensures r.Some? ==> var row := table[selected[0]];
      r.value == FormatEntry(property, sourceText, DefaultUnit(property), row.system.value,
                             row.value.value, OutputUnit(property, selected[0]), row.scientific.value)
  {
    if selected == [] || selected[0] >= |table| then None
    else
      var row := table[selected[0]];
      if row.system.None? || row.value.None? then None
      else if Strip(row.value.value) == [] then None
      else if row.scientific.None? then None
      else
        Some(FormatEntry(property, sourceText, DefaultUnit(property), row.system.value,
                         row.value.value, OutputUnit(property, selected[0]), row.scientific.value))
  }

  /** `add_to_history`: append the candidate line unless there is none or
      the list already holds it. */
  function AddToHistory(h: seq<string>, table: seq<TableRow>, selected: seq<nat>,
                        property: string, sourceText: string): (r: seq<string>)
    ensures |h| <= |r| <= |h| + 1 && r[..|h|] == h
    ensures |r| == |h| + 1 <==>
      Candidate(table, selected, property, sourceText).Some? && Candidate(table, selected, property, sourceText).value !in h
    ensures |r| == |h| + 1 ==> r[|h|] == Candidate(table, selected, property, sourceText).value
    ensures NoDuplicates(h) ==> NoDuplicates(r)
  {
    match Candidate(table, selected, property, sourceText)
    case None => h
    case Some(e) => if e in h then h else h + [e]
  }

  /** Adding the same selection twice adds at most one line. */
  lemma AddTwiceAddsOnce(h: seq<string>, table: seq<TableRow>, selected: seq<nat>,
                         property: string, sourceText: string)
    ensures var once := AddToHistory(h, table, selected, property, sourceText);
      AddToHistory(once, table, selected, property, sourceText) == once
  {
    var once := AddToHistory(h, table, selected, property, sourceText);
    match Candidate(table, selected, property, sourceText)
    case None =>
    case Some(e) =>
      assert e in once by {
        if e !in h { assert once[|h|] == e; }
      }
  }

  // ---------------------------------------------------------------------
  // Removing the selected lines.

  /** The lines of `h` whose positions are not in `sel`, in order. */
  function Unselected(h: seq<string>, sel: set<nat>): (r: seq<string>)
    ensures |r| <= |h|
  {
    if h == [] then []
    else Unselected(h[..|h| - 1], sel) + (if |h| - 1 in sel then [] else [h[|h| - 1]])
  }

  /** `a` is `b` with some elements left out, order kept. */
  predicate IsSubsequence(a: seq<string>, b: seq<string>)
    decreases |b|
  {
    || a == []
    || (&& b != []
        && ((a[|a| - 1] == b[|b| - 1] && IsSubsequence(a[..|a| - 1], b[..|b| - 1]))
            || IsSubsequence(a, b[..|b| - 1])))
  }

  lemma SubsequenceExtend(a: seq<string>, b: seq<string>, x: string)
    requires IsSubsequence(a, b)
    ensures IsSubsequence(a, b + [x])
    ensures IsSubsequence(a + [x], b + [x])
  {
    assert (b + [x])[..|b|] == b;
    assert (a + [x])[..|a|] == a;
  }

  /** The kept lines are exactly the unselected ones, and in their order. */
  lemma {:induction false} UnselectedKeepsOrder(h: seq<string>, sel: set<nat>)
    ensures IsSubsequence(Unselected(h, sel), h)
    ensures forall x :: x in Unselected(h, sel) <==> exists i :: 0 <= i < |h| && i !in sel && h[i] == x
    decreases |h|
  {
    if h != [] {
      var init := h[..|h| - 1];
      var last := h[|h| - 1];
      assert h == init + [last];
      UnselectedKeepsOrder(init, sel);
      SubsequenceExtend(Unselected(init, sel), init, last);
      if |h| - 1 in sel {
        assert Unselected(h, sel) == Unselected(init, sel);
      } else {
        assert Unselected(h, sel) == Unselected(init, sel) + [last];
      }
      forall x | x in Unselected(h, sel) ensures exists i :: 0 <= i < |h| && i !in sel && h[i] == x {
        if x in Unselected(init, sel) {
          var i :| 0 <= i < |init| && i !in sel && init[i] == x;
          assert h[i] == x;
        } else {
          assert |h| - 1 !in sel && h[|h| - 1] == x;
        }
      }
      forall x | exists i :: 0 <= i < |h| && i !in sel && h[i] == x ensures x in Unselected(h, sel) {
        var i :| 0 <= i < |h| && i !in sel && h[i] == x;
        if i < |h| - 1 {
          assert init[i] == x;
        }
      }
    }
  }

  /** With no repeated lines, a line survives exactly when its position was
      not selected, and no line is repeated afterwards. */
  lemma RemovalOfDistinctLines(h: seq<string>, sel: set<nat>)
    requires NoDuplicates(h)
    ensures forall i :: 0 <= i < |h| ==> (h[i] in Unselected(h, sel) <==> i !in sel)
    ensures NoDuplicates(Unselected(h, sel))
  {
    UnselectedKeepsOrder(h, sel);
    SubsequenceNoDuplicates(Unselected(h, sel), h);
  }

  lemma {:induction false} SubsequenceNoDuplicates(a: seq<string>, b: seq<string>)
    requires IsSubsequence(a, b) && NoDuplicates(b)
    ensures NoDuplicates(a)
    decreases |b|
  {
    if a != [] {
      var b' := b[..|b| - 1];
      var a' := a[..|a| - 1];
      if a[|a| - 1] == b[|b| - 1] && IsSubsequence(a', b') {
        SubsequenceNoDuplicates(a', b');
        SubsequenceMembers(a', b');
        assert a == a' + [b[|b| - 1]];
        assert b[|b| - 1] !in b';
      } else {
        SubsequenceNoDuplicates(a, b');
      }
    }
  }

  lemma {:induction false} SubsequenceMembers(a: seq<string>, b: seq<string>)
    requires IsSubsequence(a, b)
    ensures forall x :: x in a ==> x in b
    decreases |b|
  {
    if a != [] {
      var b' := b[..|b| - 1];
      var a' := a[..|a| - 1];
      assert b == b' + [b[|b| - 1]];
      if a[|a| - 1] == b[|b| - 1] && IsSubsequence(a', b') {
        SubsequenceMembers(a', b');
        assert a == a' + [a[|a| - 1]];
      } else {
        SubsequenceMembers(a, b');
      }
    }
  }

  /** `remove_selected_history_item`: takes every selected line out of the
      list; the others keep their order. */
  method RemoveSelected(h: seq<string>, sel: set<nat>) returns (r: seq<string>)
    ensures r == Unselected(h, sel)
    ensures sel == {} ==> r == h
  {
    r := [];
    var i := 0;
    while i < |h|
      invariant 0 <= i <= |h|
      invariant r == Unselected(h[..i], sel)
      invariant sel == {} ==> r == h[..i]
    {
      assert h[..i + 1][..i] == h[..i];
      if i !in sel {
        r := r + [h[i]];
      }
      i := i + 1;
    }
    assert h[..|h|] == h;
  }

  /** `clear_history`. */
  function Clear(h: seq<string>): (r: seq<string>)
    ensures |r| == 0
  {
    []
  }

  // ---------------------------------------------------------------------
  // Saving.

  const SaveHeader: string := "--- Conversion History ---"

  /** Each line followed by a newline. */
  function Lines(h: seq<string>): (r: string)
    ensures h == [] <==> r == []
    ensures h != [] ==> r[|r| - 1] == '\n'
  {
    if h == [] then [] else h[0] + "\n" + Lines(h[1..])
  }

  /** `save_history`: nothing is written for an empty history; otherwise a
      header, the current property and a blank line, then each entry on its
      own line. */
  function SaveContent(h: seq<string>, property: string): (r: Option<string>)
    ensures r.None? <==> h == []
    ensures r.Some? ==> |r.value| > 0 && r.value[|r.value| - 1] == '\n'
  {
    if h == [] then None
    else Some(SaveHeader + "\n" + ("Source Property: " + property) + "\n" + "\n" + Lines(h))
  }

  /** Reading a text back as newline-terminated lines. */
  function SplitLines(s: string): seq<string>
    decreases |s|
  {
    if '\n' !in s then (if s == [] then [] else [s])
    else
      var i := IndexOf(s, '\n');
      [s[..i]] + SplitLines(s[i + 1..])
  }

  lemma SplitFirstLine(line: string, rest: string)
    requires '\n' !in line
    ensures SplitLines(line + "\n" + rest) == [line] + SplitLines(rest)
  {
    var s := line + "\n" + rest;
    assert s[|line|] == '\n';
    assert s[..|line|] == line;
    assert IndexOf(s, '\n') == |line|;
    assert s[|line| + 1..] == rest;
  }

  lemma {:induction false} LinesRoundTrip(h: seq<string>)
    requires forall k :: 0 <= k < |h| ==> '\n' !in h[k]
    ensures SplitLines(Lines(h)) == h
    decreases |h|
  {
    if h != [] {
      LinesRoundTrip(h[1..]);
      SplitFirstLine(h[0], Lines(h[1..]));
      assert h[0] + "\n" + Lines(h[1..]) == Lines(h);
    }
  }

  lemma PropertyLineHasNoNewline(property: string)
    requires '\n' !in property
    ensures '\n' !in "Source Property: " + property
  {
    var p := "Source Property: " + property;
    forall k | 0 <= k < |p| ensures p[k] != '\n' {
      if k >= 17 { assert p[k] == property[k - 17]; }
    }
  }

  lemma SaveContentShape(h: seq<string>, property: string)
    requires h != []
    ensures SaveContent(h, property).value ==
      SaveHeader + "\n" + (("Source Property: " + property) + "\n" + ("\n" + Lines(h)))
  {
    var p := "Source Property: " + property;
    var b := Lines(h);
    assert SaveHeader + "\n" + p + "\n" + "\n" + b == SaveHeader + "\n" + (p + "\n" + ("\n" + b));
  }

  lemma ReadBackLayout(header: string, p: string, h: seq<string>)
    requires '\n' !in header && '\n' !in p
    requires forall k :: 0 <= k < |h| ==> '\n' !in h[k]
    ensures SplitLines(header + "\n" + (p + "\n" + ("\n" + Lines(h)))) == [header, p, ""] + h
  {
    var s3 := "\n" + Lines(h);
    BlankThenLines(h);
    TwoLinesFirst(header, p, s3);
    ThreeThenRest(header, p, "", h);
  }

  lemma BlankThenLines(h: seq<string>)
    requires forall k :: 0 <= k < |h| ==> '\n' !in h[k]
    ensures SplitLines("\n" + Lines(h)) == [""] + h
  {
    LinesRoundTrip(h);
    BlankFirstLine(Lines(h));
  }

  lemma TwoLinesFirst(header: string, p: string, rest: string)
    requires '\n' !in header && '\n' !in p
    ensures SplitLines(header + "\n" + (p + "\n" + rest)) == [header] + ([p] + SplitLines(rest))
  {
    SplitFirstLine(p, rest);
    SplitFirstLine(header, p + "\n" + rest);
  }

  lemma ThreeThenRest(a: string, b: string, c: string, h: seq<string>)
    ensures [a] + ([b] + ([c] + h)) == [a, b, c] + h
  {
  }

  lemma BlankFirstLine(rest: string)
    ensures SplitLines("\n" + rest) == [""] + SplitLines(rest)
  {
    var s := "\n" + rest;
    assert s[0] == '\n';
    assert IndexOf(s, '\n') == 0;
    assert s[1..] == rest;
  }

  /** A saved file read back line by line gives the header, the property
      line, a blank line and then exactly the history. With the final
      newline `SaveContent` promises, no other text reads back so. */
  lemma SavedFileReadsBack(h: seq<string>, property: string)
    requires h != []
    requires '\n' !in property
    requires forall k :: 0 <= k < |h| ==> '\n' !in h[k]
    ensures SplitLines(SaveContent(h, property).value) ==
      [SaveHeader, "Source Property: " + property, ""] + h
  {
    PropertyLineHasNoNewline(property);
    SaveContentShape(h, property);
    ReadBackLayout(SaveHeader, "Source Property: " + property, h);
  }

  /** After clearing there is nothing to save. */
  lemma ClearedHistorySavesNothing(h: seq<string>, property: string)
    ensures SaveContent(Clear(h), property).None?
  {
  }
}
