/** Text measurement and greedy line breaking of the README header (tools/render_readme_header.py). */
module HeaderWrap {

  /** Python's `str.isupper` and `str.isdigit` on single characters. */
  datatype CharClasses = CharClasses(isUpper: char -> bool, isDigit: char -> bool)

  /** Advance width of one character, in hundredths of an em. */
  function EmWidths(classes: CharClasses): char -> nat
  {
    (c: char) =>
      if c == ' ' then 30 else if c == '·' then 34 else if c == '-' then 42
      else if c == '.' then 32 else if c == ',' then 32 else if c == '+' then 64 else if c == '→' then 100
      else if c in "MWmw@%" then 92
      else if c in "iljtfrI|!:;'" then 36
      else if classes.isUpper(c) then 74
      else if classes.isDigit(c) then 64
      else 60
  }

  /** The width table by code point. */
  lemma WidthByCode(c: char, classes: CharClasses)
    ensures var n := c as int;
            EmWidths(classes)(c) ==
              if n == 32 then 30 else if n == 183 then 34 else if n == 45 then 42 else if n == 44 || n == 46 then 32
              else if n == 43 then 64 else if n == 8594 then 100
              else if n in {37, 64, 77, 87, 109, 119} then 92
              else if n in {33, 39, 58, 59, 73, 102, 105, 106, 108, 114, 116, 124} then 36
              else if classes.isUpper(c) then 74 else if classes.isDigit(c) then 64 else 60
  {
    var wide, narrow := "MWmw@%", "iljtfrI|!:;'";
    assert wide[0] == 'M' && wide[1] == 'W' && wide[2] == 'm' && wide[3] == 'w' && wide[4] == '@' && wide[5] == '%';
    assert narrow[0] == 'i' && narrow[1] == 'l' && narrow[2] == 'j' && narrow[3] == 't' && narrow[4] == 'f' && narrow[5] == 'r';
    assert narrow[6] == 'I' && narrow[7] == '|' && narrow[8] == '!' && narrow[9] == ':' && narrow[10] == ';' && narrow[11] == '\'';
  }

  function EmSum(text: string, em: char -> nat): nat
  {
    if text == [] then 0 else EmSum(text[..|text| - 1], em) + em(text[|text| - 1])
  }

  /** Width of a line in a face whose character widths are `em`; the renderer uses `EmWidths`. */
  function TextWidth(text: string, fontSize: real, letterSpacing: real, em: char -> nat): real
  {
    EmSum(text, em) as real / 100.0 * fontSize + letterSpacing * |text| as real
  }

  predicate Fits(text: string, width: real, fontSize: real, em: char -> nat)
  {
    TextWidth(text, fontSize, 0.0, em) <= width
  }

  /** `_EM_WIDTHS` and the branches behind it. */
  method CharWidth(c: char, classes: CharClasses) returns (em: nat)
    ensures em == EmWidths(classes)(c)
  {
    var table := map[' ' := 30, '·' := 34, '-' := 42, '.' := 32, ',' := 32, '+' := 64, '→' := 100];
    if c in table {
      em := table[c];
    } else if c in "MWmw@%" {
      em := 92;
    } else if c in "iljtfrI|!:;'" {
      em := 36;
    } else if classes.isUpper(c) {
      em := 74;
    } else if classes.isDigit(c) {
      em := 64;
    } else {
      em := 60;
    }
  }

  lemma EmSumNext(text: string, i: nat, em: char -> nat)
    requires i < |text|
    ensures EmSum(text[..i + 1], em) == EmSum(text[..i], em) + em(text[i])
  {
    assert text[..i + 1][..i] == text[..i];
  }

  /** `estimate_text_width` */
  method EstimateTextWidth(text: string, fontSize: real, letterSpacing: real, classes: CharClasses) returns (width: real)
    ensures width == TextWidth(text, fontSize, letterSpacing, EmWidths(classes))
  {
    var total := SumWidths(text, classes);
    width := total as real / 100.0 * fontSize + letterSpacing * |text| as real;
  }

  method SumWidths(text: string, classes: CharClasses) returns (total: nat)
    ensures total == EmSum(text, EmWidths(classes))
  {
    ghost var widths := EmWidths(classes);
    total := 0;
    for i := 0 to |text|
      invariant total == EmSum(text[..i], widths)
    {
      var em := CharWidth(text[i], classes);
      EmSumNext(text, i, widths);
      total := total + em;
    }
    assert text[..|text|] == text;
  }

  lemma {:induction false} EmSumBounds(text: string, classes: CharClasses)
    ensures 30 * |text| <= EmSum(text, EmWidths(classes)) <= 100 * |text|
  {
    if text != [] { EmSumBounds(text[..|text| - 1], classes); }
  }

  /** A width in hundredths of an em, drawn at a font size. */
  function Drawn(hundredths: nat, fontSize: real): real { hundredths as real / 100.0 * fontSize }

  /** Letter spacing adds its amount once per character. */
  lemma SpacingAdds(text: string, fontSize: real, letterSpacing: real, em: char -> nat)
    ensures TextWidth(text, fontSize, letterSpacing, em) == Drawn(EmSum(text, em), fontSize) + letterSpacing * |text| as real
  {
  }

  /** Every character takes between 0.3 and 1 em, so a text that is short enough fits whatever its letters, and one that is
      too long never does. */
  lemma WidthBounds(text: string, width: real, fontSize: real, classes: CharClasses)
    requires fontSize >= 0.0
    ensures Drawn(100 * |text|, fontSize) <= width ==> Fits(text, width, fontSize, EmWidths(classes))
    ensures Drawn(30 * |text|, fontSize) > width ==> !Fits(text, width, fontSize, EmWidths(classes))
  {
    EmSumBounds(text, classes);
    DrawnBounds(text, 30 * |text|, 100 * |text|, width, fontSize, EmWidths(classes));
  }

  lemma DrawnBounds(text: string, lo: nat, hi: nat, width: real, fontSize: real, em: char -> nat)
    requires fontSize >= 0.0 && lo <= EmSum(text, em) <= hi
    ensures Drawn(hi, fontSize) <= width ==> Fits(text, width, fontSize, em)
    ensures Drawn(lo, fontSize) > width ==> !Fits(text, width, fontSize, em)
  {
    var x := EmSum(text, em);
    FitsIff(text, width, fontSize, em);
    DrawnMonotone(lo, x, fontSize);
    DrawnMonotone(x, hi, fontSize);
  }

  lemma FitsIff(text: string, width: real, fontSize: real, em: char -> nat)
    ensures Fits(text, width, fontSize, em) <==> Drawn(EmSum(text, em), fontSize) <= width
  {
  }

  lemma DrawnMonotone(x: nat, y: nat, fontSize: real)
    requires x <= y && fontSize >= 0.0
    ensures Drawn(x, fontSize) <= Drawn(y, fontSize)
  {
    ScaleMonotone(x, y, fontSize);
  }

  /** `separator.join(items)` */
  function Join(items: seq<string>, separator: string): string
  {
    if items == [] then ""
    else if |items| == 1 then items[0]
    else Join(items[..|items| - 1], separator) + separator + items[|items| - 1]
  }

  lemma {:induction false} EmSumAppend(a: string, b: string, em: char -> nat)
    ensures EmSum(a + b, em) == EmSum(a, em) + EmSum(b, em)
  {
    if b == [] {
      assert a + b == a;
    } else {
      assert (a + b)[..|a + b| - 1] == a + b[..|b| - 1];
      EmSumAppend(a, b[..|b| - 1], em);
    }
  }

  lemma {:induction false} JoinAppend(a: seq<string>, b: seq<string>, separator: string)
    requires a != [] && b != []
    ensures Join(a + b, separator) == Join(a, separator) + separator + Join(b, separator)
  {
    var k := |b| - 1;
    assert (a + b)[..|a| + k] == a + b[..k];
    JoinLast(a + b, separator);
    if k == 0 {
      assert a + b[..k] == a;
    } else {
      JoinAppend(a, b[..k], separator);
      JoinLast(b, separator);
      Regroup(Join(a, separator), separator, Join(b[..k], separator), b[k]);
    }
  }

  lemma JoinLast(items: seq<string>, separator: string)
    requires |items| > 1
    ensures Join(items, separator) == Join(items[..|items| - 1], separator) + separator + items[|items| - 1]
  {
  }

  lemma Regroup(left: string, separator: string, middle: string, right: string)
    ensures (left + separator + middle) + separator + right == left + separator + (middle + separator + right)
  {
  }

  /** A run of items is no wider than any run that contains it. */
  lemma SubrunIsNarrower(a: seq<string>, b: seq<string>, c: seq<string>, separator: string, em: char -> nat)
    requires b != []
    ensures EmSum(Join(b, separator), em) <= EmSum(Join(a + b + c, separator), em)
  {
    if a == [] {
      assert a + b == b;
    } else {
      JoinAppend(a, b, separator);
      EmSumAppend(Join(a, separator) + separator, Join(b, separator), em);
    }
    if c == [] {
      assert a + b + c == a + b;
    } else {
      JoinAppend(a + b, c, separator);
      EmSumAppend(Join(a + b, separator) + separator, Join(c, separator), em);
      EmSumAppend(Join(a + b, separator), separator, em);
    }
  }

  lemma ScaleMonotone(x: nat, y: nat, fontSize: real)
    requires x <= y && fontSize >= 0.0
    ensures x as real / 100.0 * fontSize <= y as real / 100.0 * fontSize
  {
    var d := (y - x) as real / 100.0;
    assert y as real / 100.0 == x as real / 100.0 + d;
    assert d * fontSize >= 0.0;
  }

  // ---------------------------------------------------------------- breaking

  /** `cuts` splits `n` items into consecutive non-empty lines: line i holds items cuts[i] .. cuts[i+1]. */
  ghost predicate IsSplit(cuts: seq<nat>, n: nat)
  {
    && cuts != [] && cuts[0] == 0 && cuts[|cuts| - 1] == n
    && forall i, j :: 0 <= i < j < |cuts| ==> cuts[i] < cuts[j]
  }

  function Line(items: seq<string>, lo: nat, hi: nat, separator: string): string
    requires lo <= hi <= |items|
  {
    Join(items[lo..hi], separator)
  }

  /** Every line with more than one item fits. */
  ghost predicate LinesFit(items: seq<string>, cuts: seq<nat>, separator: string, fits: string -> bool)
    requires IsSplit(cuts, |items|)
  {
    forall i :: 0 <= i < |cuts| - 1 && cuts[i + 1] - cuts[i] > 1 ==>
      fits(Line(items, cuts[i], cuts[i + 1], separator))
  }

  /** No line could also have taken the first item of the next one. */
  ghost predicate Greedy(items: seq<string>, cuts: seq<nat>, separator: string, fits: string -> bool)
    requires IsSplit(cuts, |items|)
  {
    forall i :: 0 <= i < |cuts| - 2 ==>
      !fits(Line(items, cuts[i], cuts[i + 1] + 1, separator))
  }

  /** A test that a narrower line passes whenever a wider one does. */
  ghost predicate Monotone(fits: string -> bool, em: char -> nat)
  {
    forall a, b :: EmSum(a, em) <= EmSum(b, em) && fits(b) ==> fits(a)
  }

  lemma FitsWithin(items: seq<string>, lo: nat, hi: nat, lo': nat, hi': nat, separator: string, fits: string -> bool, em: char -> nat)
    requires lo' <= lo < hi <= hi' <= |items| && Monotone(fits, em)
    requires fits(Line(items, lo', hi', separator))
    ensures fits(Line(items, lo, hi, separator))
  {
    var a, b, c := items[lo'..lo], items[lo..hi], items[hi..hi'];
    assert items[lo'..hi'] == a + b + c;
    SubrunIsNarrower(a, b, c, separator, em);
  }

  /** Greedy stays ahead: its i-th line break is never before that of another fitting split. */
  lemma {:induction false} GreedyStaysAhead(items: seq<string>, cuts: seq<nat>, other: seq<nat>, i: nat,
                                            separator: string, fits: string -> bool, em: char -> nat)
    requires Monotone(fits, em)
    requires IsSplit(cuts, |items|) && Greedy(items, cuts, separator, fits)
    requires IsSplit(other, |items|) && LinesFit(items, other, separator, fits)
    requires i < |cuts| && i < |other|
    ensures other[i] <= cuts[i]
  {
    if i > 0 {
      GreedyStaysAhead(items, cuts, other, i - 1, separator, fits, em);
      if other[i] > cuts[i] {
        var last := |cuts| - 1;
        assert i < last ==> cuts[i] < cuts[last];
        FitsWithin(items, cuts[i - 1], cuts[i] + 1, other[i - 1], other[i], separator, fits, em);
      }
    }
  }

  /** No split whose multi-item lines fit uses fewer lines than a greedy one. */
  lemma GreedyIsOptimal(items: seq<string>, cuts: seq<nat>, other: seq<nat>,
                        separator: string, fits: string -> bool, em: char -> nat)
    requires Monotone(fits, em)
    requires IsSplit(cuts, |items|) && Greedy(items, cuts, separator, fits)
    requires IsSplit(other, |items|) && LinesFit(items, other, separator, fits)
    ensures |cuts| <= |other|
  {
    if |other| < |cuts| {
      assert cuts[|other| - 1] < cuts[|cuts| - 1];
      GreedyStaysAhead(items, cuts, other, |other| - 1, separator, fits, em);
      assert false;
    }
  }

  ghost predicate SpellsOut(items: seq<string>, lines: seq<string>, cuts: seq<nat>, separator: string)
  {
    && |lines| == |cuts| - 1
    && forall i :: 0 <= i < |lines| ==> SpellsLine(items, lines[i], cuts[i], cuts[i + 1], separator)
  }

  ghost predicate SpellsLine(items: seq<string>, line: string, lo: nat, hi: nat, separator: string)
  {
    lo < hi <= |items| && line == Line(items, lo, hi, separator)
  }

  ghost predicate LongLinesFit(lines: seq<string>, cuts: seq<nat>, fits: string -> bool)
    requires |cuts| == |lines| + 1
  {
    forall i :: 0 <= i < |lines| && cuts[i] + 1 < cuts[i + 1] ==> fits(lines[i])
  }

  /** `lines` spell out the split `cuts` of the first `n` items, multi-item lines fit, and breaks were forced. */
  ghost predicate Wrapped(items: seq<string>, n: nat, lines: seq<string>, cuts: seq<nat>, separator: string, fits: string -> bool)
    requires n <= |items|
  {
    && IsSplit(cuts, n)
    && SpellsOut(items, lines, cuts, separator)
    && LongLinesFit(lines, cuts, fits)
    && BreaksForced(items, n, cuts, separator, fits)
  }

  ghost predicate BreaksForced(items: seq<string>, n: nat, cuts: seq<nat>, separator: string, fits: string -> bool)
    requires n <= |items| && IsSplit(cuts, n)
  {
    forall i :: 0 <= i < |cuts| - 2 ==> !fits(Line(items, cuts[i], cuts[i + 1] + 1, separator))
  }

  lemma Candidate(items: seq<string>, lo: nat, n: nat, separator: string)
    requires lo < n < |items|
    ensures Line(items, lo, n + 1, separator) == Line(items, lo, n, separator) + separator + items[n]
  {
    assert items[lo..n + 1] == items[lo..n] + [items[n]];
    JoinAppend(items[lo..n], [items[n]], separator);
  }

  /** `_wrap`: the lines, with the split of the items that they spell out. */
  method Wrap(items: seq<string>, width: real, fontSize: real, separator: string, classes: CharClasses)
    returns (lines: seq<string>, ghost cuts: seq<nat>)
    requires fontSize >= 0.0
    ensures IsSplit(cuts, |items|)
    ensures SpellsOut(items, lines, cuts, separator)
    ensures Join(lines, separator) == Join(items, separator)
    ensures LinesFit(items, cuts, separator, Fitting(width, fontSize, EmWidths(classes)))
    ensures forall other :: IsSplit(other, |items|) && LinesFit(items, other, separator, Fitting(width, fontSize, EmWidths(classes)))
                            ==> |lines| <= |other| - 1
  {
    ghost var fits := Fitting(width, fontSize, EmWidths(classes));
    lines, cuts := [], [0];
    for n := 0 to |items|
      invariant Wrapped(items, n, lines, cuts, separator, fits)
    {
      var item := items[n];
      var last := |lines| - 1;
      var candidate := if lines != [] then lines[last] + separator + item else item;
      var candidateWidth := EstimateTextWidth(candidate, fontSize, 0.0, classes);
      FittingMeans(candidate, width, fontSize, EmWidths(classes));
      if lines != [] && candidateWidth <= width {
        ExtendLine(items, n, lines, cuts, separator, fits);
        lines, cuts := lines[last := candidate], cuts[last + 1 := n + 1];
      } else {
        StartLine(items, n, lines, cuts, separator, fits);
        lines, cuts := lines + [item], cuts + [n + 1];
      }
    }
    FittingIsMonotone(width, fontSize, EmWidths(classes));
    WrappedIsOptimal(items, lines, cuts, separator, fits, EmWidths(classes));
  }

  /** The line breaker's test. */
  function Fitting(width: real, fontSize: real, em: char -> nat): string -> bool
  {
    text => Fits(text, width, fontSize, em)
  }

  lemma FittingMeans(text: string, width: real, fontSize: real, em: char -> nat)
    ensures Fitting(width, fontSize, em)(text) <==> TextWidth(text, fontSize, 0.0, em) <= width
  {
  }

  lemma FittingIsMonotone(width: real, fontSize: real, em: char -> nat)
    requires fontSize >= 0.0
    ensures Monotone(Fitting(width, fontSize, em), em)
  {
    forall a, b | EmSum(a, em) <= EmSum(b, em) && Fitting(width, fontSize, em)(b) ensures Fitting(width, fontSize, em)(a) {
      ScaleMonotone(EmSum(a, em), EmSum(b, em), fontSize);
    }
  }

  lemma ExtendLine(items: seq<string>, n: nat, lines: seq<string>, cuts: seq<nat>,
                   separator: string, fits: string -> bool)
    requires n < |items| && lines != [] && Wrapped(items, n, lines, cuts, separator, fits)
    requires fits(lines[|lines| - 1] + separator + items[n])
    ensures Wrapped(items, n + 1, lines[|lines| - 1 := lines[|lines| - 1] + separator + items[n]], cuts[|lines| := n + 1],
                    separator, fits)
  {
    assert SpellsLine(items, lines[|lines| - 1], cuts[|lines| - 1], cuts[|lines|], separator);
    Candidate(items, cuts[|lines| - 1], n, separator);
  }

  lemma StartLine(items: seq<string>, n: nat, lines: seq<string>, cuts: seq<nat>,
                  separator: string, fits: string -> bool)
    requires n < |items| && Wrapped(items, n, lines, cuts, separator, fits)
    requires lines == [] || !fits(lines[|lines| - 1] + separator + items[n])
    ensures Wrapped(items, n + 1, lines + [items[n]], cuts + [n + 1], separator, fits)
  {
    StartSpells(items, n, lines, cuts, separator);
    if lines != [] {
      assert SpellsLine(items, lines[|lines| - 1], cuts[|lines| - 1], cuts[|lines|], separator);
      Candidate(items, cuts[|lines| - 1], n, separator);
    }
    StartForced(items, n, cuts, separator, fits);
  }

  lemma StartSpells(items: seq<string>, n: nat, lines: seq<string>, cuts: seq<nat>, separator: string)
    requires n < |items| && IsSplit(cuts, n) && SpellsOut(items, lines, cuts, separator)
    ensures SpellsOut(items, lines + [items[n]], cuts + [n + 1], separator)
  {
    var lines', cuts' := lines + [items[n]], cuts + [n + 1];
    assert items[n..n + 1] == [items[n]];
    forall i | 0 <= i < |lines'| ensures SpellsLine(items, lines'[i], cuts'[i], cuts'[i + 1], separator) {
      if i < |lines| {
        assert SpellsLine(items, lines[i], cuts[i], cuts[i + 1], separator);
      }
    }
  }

  lemma StartForced(items: seq<string>, n: nat, cuts: seq<nat>, separator: string, fits: string -> bool)
    requires n < |items| && IsSplit(cuts, n) && BreaksForced(items, n, cuts, separator, fits)
    requires |cuts| > 1 ==> !fits(Line(items, cuts[|cuts| - 2], n + 1, separator))
    ensures IsSplit(cuts + [n + 1], n + 1) && BreaksForced(items, n + 1, cuts + [n + 1], separator, fits)
  {
    var cuts' := cuts + [n + 1];
    forall i | 0 <= i < |cuts'| - 2 ensures !fits(Line(items, cuts'[i], cuts'[i + 1] + 1, separator)) {
      if i == |cuts| - 2 {
        assert cuts'[i + 1] == n;
      }
    }
  }

  lemma WrappedIsOptimal(items: seq<string>, lines: seq<string>, cuts: seq<nat>,
                         separator: string, fits: string -> bool, em: char -> nat)
    requires Monotone(fits, em) && Wrapped(items, |items|, lines, cuts, separator, fits)
    ensures Join(lines, separator) == Join(items, separator)
    ensures LinesFit(items, cuts, separator, fits)
    ensures forall other :: IsSplit(other, |items|) && LinesFit(items, other, separator, fits)
                            ==> |lines| <= |other| - 1
  {
    LinesRestoreItems(items, cuts, lines, |lines|, separator);
    assert lines[..|lines|] == lines && items[..|items|] == items;
    forall other | IsSplit(other, |items|) && LinesFit(items, other, separator, fits)
      ensures |lines| <= |other| - 1
    {
      GreedyIsOptimal(items, cuts, other, separator, fits, em);
    }
  }

  lemma {:induction false} LinesRestoreItems(items: seq<string>, cuts: seq<nat>, lines: seq<string>, k: nat, separator: string)
    requires IsSplit(cuts, |items|) && SpellsOut(items, lines, cuts, separator) && k <= |lines|
    ensures cuts[k] <= |items| && Join(lines[..k], separator) == Join(items[..cuts[k]], separator)
  {
    assert k < |cuts| - 1 ==> cuts[k] < cuts[|cuts| - 1];
    if k > 0 {
      LinesRestoreItems(items, cuts, lines, k - 1, separator);
      assert SpellsLine(items, lines[k - 1], cuts[k - 1], cuts[k], separator);
      assert lines[..k] == lines[..k - 1] + [lines[k - 1]];
      assert k > 1 ==> cuts[0] < cuts[k - 1];
      JoinOneMore(lines[..k - 1], lines[k - 1], separator);
      OneMoreLine(items, cuts[k - 1], cuts[k], separator);
    }
  }

  lemma JoinOneMore(lines: seq<string>, line: string, separator: string)
    ensures Join(lines + [line], separator) == if lines == [] then line else Join(lines, separator) + separator + line
  {
    assert (lines + [line])[..|lines|] == lines;
  }

  lemma OneMoreLine(items: seq<string>, lo: nat, hi: nat, separator: string)
    requires lo < hi <= |items|
    ensures Join(items[..hi], separator)
         == if lo == 0 then Line(items, lo, hi, separator) else Join(items[..lo], separator) + separator + Line(items, lo, hi, separator)
  {
    if lo > 0 {
      assert items[..hi] == items[..lo] + items[lo..hi];
      JoinAppend(items[..lo], items[lo..hi], separator);
    }
  }
}
