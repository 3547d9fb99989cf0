/** The few Python `str` operations the converter relies on, over
    `string == seq<char>`: whitespace stripping, `rstrip(chars)`,
    `split(sep, 1)`, `replace(old, new)` and newline splitting. */
module Text {

  /** Python's `str.isspace()` for a single character: the ASCII controls
      TAB..CR, the information separators 0x1C..0x1F, SPACE and the Unicode
      space characters. */
  predicate IsSpace(c: char) {
    || c == ' '
    || ('\t' <= c <= '\r')
    || ('\U{001C}' <= c <= '\U{001F}')
    || c == '\U{0085}' || c == '\U{00A0}' || c == '\U{1680}'
    || ('\U{2000}' <= c <= '\U{200A}')
    || c == '\U{2028}' || c == '\U{2029}' || c == '\U{202F}'
    || c == '\U{205F}' || c == '\U{3000}'
  }

  /** `s.lstrip()` generalised to a set of dropped characters: the longest
      suffix of `s` that does not start with a dropped character. */
  function LStrip(s: string, drop: char -> bool): (r: string)
    ensures |r| <= |s| && r == s[|s| - |r|..]
    ensures forall k :: 0 <= k < |s| - |r| ==> drop(s[k])
    ensures |r| > 0 ==> !drop(r[0])
    decreases |s|
  {
    if |s| > 0 && drop(s[0]) then
      var r := LStrip(s[1..], drop);
      assert s[1..][|s| - 1 - |r|..] == s[|s| - |r|..];
      assert forall k :: 1 <= k < |s| - |r| ==> s[k] == s[1..][k - 1];
      r
    else s
  }

  /** `s.rstrip(chars)`: the longest prefix of `s` that does not end in a
      dropped character. */
  function RStrip(s: string, drop: char -> bool): (r: string)
    ensures |r| <= |s| && r == s[..|r|]
    ensures forall k :: |r| <= k < |s| ==> drop(s[k])
    ensures |r| > 0 ==> !drop(r[|r| - 1])
    decreases |s|
  {
    if |s| > 0 && drop(s[|s| - 1]) then RStrip(s[..|s| - 1], drop) else s
  }

  /** `r` is what is left of `s` once its first `i` characters and
      everything after the following `|r|` are dropped, all of them
      characters `drop` holds for. */
  predicate TrimmedAt(s: string, r: string, i: int, drop: char -> bool) {
    && 0 <= i <= |s| - |r| && s[i..][..|r|] == r
    && (forall k :: 0 <= k < i ==> drop(s[k]))
    && (forall k :: i + |r| <= k < |s| ==> drop(s[k]))
  }

  /** `s.strip(chars)`: both ends stripped of the characters `drop` holds
      for. */
  function StripBy(s: string, drop: char -> bool): (r: string)
    ensures exists i :: TrimmedAt(s, r, i, drop)
    ensures r != [] ==> !drop(r[0]) && !drop(r[|r| - 1])
    ensures (forall k :: 0 <= k < |s| ==> drop(s[k])) <==> r == []
  {
    var l := LStrip(s, drop);
    var r := RStrip(l, drop);
    LStripThenRStrip(s, drop, l, r);
    TrimmedToNothing(s, r, |s| - |l|, drop);
    r
  }

  /** Python's argument-less `s.strip()`. */
  function Strip(s: string): (r: string)
    ensures exists i :: TrimmedAt(s, r, i, IsSpace)
    ensures r != [] ==> !IsSpace(r[0]) && !IsSpace(r[|r| - 1])
    ensures (forall k :: 0 <= k < |s| ==> IsSpace(s[k])) <==> r == []
  {
    StripBy(s, IsSpace)
  }

  /** Dropping characters from the left end and then from the right drops
      characters from either end only. */
  lemma LStripThenRStrip(s: string, drop: char -> bool, l: string, r: string)
    requires |l| <= |s| && l == s[|s| - |l|..]
    requires forall k :: 0 <= k < |s| - |l| ==> drop(s[k])
    requires |r| <= |l| && r == l[..|r|]
    requires forall k :: |r| <= k < |l| ==> drop(l[k])
    ensures TrimmedAt(s, r, |s| - |l|, drop)
  {
    var i := |s| - |l|;
    assert s[i..][..|r|] == r;
    forall k | i + |r| <= k < |s| ensures drop(s[k]) {
      assert s[k] == l[k - i];
    }
  }

  /** A trim that keeps its first character leaves nothing exactly when
      every character is dropped. */
  lemma TrimmedToNothing(s: string, r: string, i: int, drop: char -> bool)
    requires TrimmedAt(s, r, i, drop)
    requires r != [] ==> !drop(r[0])
    ensures (forall k :: 0 <= k < |s| ==> drop(s[k])) <==> r == []
  {
    if r != [] {
      assert s[i] == r[0];
    }
  }

  /** Index of the first occurrence of `c` in `s`. */
  function IndexOf(s: string, c: char): (i: nat)
    requires c in s
    ensures i < |s| && s[i] == c && c !in s[..i]
  {
    if s[0] == c then 0 else 1 + IndexOf(s[1..], c)
  }

  /** Python's `s.split(sep, 1)` for a one-character separator: one part when
      `sep` does not occur, otherwise the text before its first occurrence
      and the (unsplit) text after it. */
  function SplitOnce(s: string, sep: char): (parts: seq<string>)
    ensures sep !in s ==> parts == [s]
    ensures sep in s ==> |parts| == 2 && s == parts[0] + [sep] + parts[1] && sep !in parts[0]
  {
    if sep in s then
      var i := IndexOf(s, sep);
      assert s == s[..i] + [sep] + s[i + 1..];
      [s[..i], s[i + 1..]]
    else [s]
  }

  /** Python's `s.replace(pat, rep)`: every leftmost non-overlapping
      occurrence of `pat`, scanning left to right, becomes `rep`. */
  function ReplaceAll(s: string, pat: string, rep: string): string
    requires |pat| > 0
    decreases |s|
  {
    if |s| < |pat| then s
    else if s[..|pat|] == pat then rep + ReplaceAll(s[|pat|..], pat, rep)
    else [s[0]] + ReplaceAll(s[1..], pat, rep)
  }

  /** A replacement whose pattern holds a character absent from `s` changes
      nothing. */
  lemma {:induction false} ReplaceAbsent(s: string, pat: string, rep: string, c: char)
    requires |pat| > 0 && c in pat && c !in s
    ensures ReplaceAll(s, pat, rep) == s
    decreases |s|
  {
    if |s| >= |pat| {
      assert s[..|pat|] != pat by {
        var k :| 0 <= k < |pat| && pat[k] == c;
        assert s[k] == c ==> c in s;
      }
      assert c !in s[1..] by { assert forall k :: 0 <= k < |s| - 1 ==> s[1..][k] == s[k + 1]; }
      ReplaceAbsent(s[1..], pat, rep, c);
      assert s == [s[0]] + s[1..];
    }
  }

  /** A character in neither the text nor the replacement is not in the result. */
  lemma {:induction false} ReplaceKeepsAbsent(s: string, pat: string, rep: string, x: char)
    requires |pat| > 0 && x !in s && x !in rep
    ensures x !in ReplaceAll(s, pat, rep)
    decreases |s|
  {
    if |s| >= |pat| {
      if s[..|pat|] == pat {
        assert x !in s[|pat|..] by { assert forall k :: 0 <= k < |s| - |pat| ==> s[|pat|..][k] == s[k + |pat|]; }
        ReplaceKeepsAbsent(s[|pat|..], pat, rep, x);
      } else {
        assert x !in s[1..] by { assert forall k :: 0 <= k < |s| - 1 ==> s[1..][k] == s[k + 1]; }
        ReplaceKeepsAbsent(s[1..], pat, rep, x);
      }
    }
  }

  /** Replacing a one-character pattern works character by character. */
  lemma ReplaceCharCons(x: char, t: string, c: char, rep: string)
    ensures ReplaceAll([x] + t, [c], rep) == (if x == c then rep else [x]) + ReplaceAll(t, [c], rep)
  {
    assert ([x] + t)[1..] == t;
    assert ([x] + t)[..1] == [x];
  }

  lemma ReplaceCharSingle(x: char, c: char, rep: string)
    ensures ReplaceAll([x], [c], rep) == if x == c then rep else [x]
  {
    ReplaceCharCons(x, [], c, rep);
    assert [x] + [] == [x];
  }

  /** ... and so distributes over concatenation. */
  lemma {:induction false} ReplaceCharConcat(a: string, b: string, c: char, rep: string)
    ensures ReplaceAll(a + b, [c], rep) == ReplaceAll(a, [c], rep) + ReplaceAll(b, [c], rep)
    decreases |a|
  {
    if a == [] {
      assert a + b == b;
    } else {
      assert a + b == [a[0]] + (a[1..] + b);
      assert a == [a[0]] + a[1..];
      ReplaceCharCons(a[0], a[1..] + b, c, rep);
      ReplaceCharCons(a[0], a[1..], c, rep);
      ReplaceCharConcat(a[1..], b, c, rep);
    }
  }

  /** A one-character replacement removes every occurrence of that character
      when the replacement does not contain it. */
  lemma {:induction false} ReplaceCharRemoves(s: string, c: char, rep: string)
    requires c !in rep
    ensures c !in ReplaceAll(s, [c], rep)
    decreases |s|
  {
    if s != [] {
      assert s == [s[0]] + s[1..];
      ReplaceCharCons(s[0], s[1..], c, rep);
      ReplaceCharRemoves(s[1..], c, rep);
    }
  }

  /** Replacing one character by one character maps the text position by
      position. */
  lemma {:induction false} ReplaceCharByChar(s: string, c: char, d: char)
    ensures |ReplaceAll(s, [c], [d])| == |s|
    ensures forall k :: 0 <= k < |s| ==> ReplaceAll(s, [c], [d])[k] == (if s[k] == c then d else s[k])
    decreases |s|
  {
    if s != [] {
      assert s == [s[0]] + s[1..];
      ReplaceCharCons(s[0], s[1..], c, [d]);
      ReplaceCharByChar(s[1..], c, d);
    }
  }

  /** A text with no space at either end is its own strip. */
  lemma StripUnchanged(s: string)
    requires s != [] && !IsSpace(s[0]) && !IsSpace(s[|s| - 1])
    ensures Strip(s) == s
  {
  }
}
