/** Evidence packages, and the check that a model's prose states only the numbers of the rows it cites. */
module Evidence {
  import opened Text

  // --- Numerals in a text --------------------------------------------------------------------------------

  /** Arabic-Indic and Eastern Arabic-Indic digits onto ASCII. */
  function FoldDigit(c: char): char {
    if '\U{0660}' <= c <= '\U{0669}' then (c as int - 0x660 + '0' as int) as char
    else if '\U{06F0}' <= c <= '\U{06F9}' then (c as int - 0x6F0 + '0' as int) as char
    else c
  }

  function FoldDigits(text: string): (r: string)
    ensures |r| == |text| && forall i :: 0 <= i < |text| ==> r[i] == FoldDigit(text[i])
  {
    seq(|text|, i requires 0 <= i < |text| => FoldDigit(text[i]))
  }

  datatype Script = Ascii | ArabicIndic | EasternArabicIndic

  const ARABIC_INDIC := "\U{0660}\U{0661}\U{0662}\U{0663}\U{0664}\U{0665}\U{0666}\U{0667}\U{0668}\U{0669}"
  const EASTERN_ARABIC_INDIC := "\U{06F0}\U{06F1}\U{06F2}\U{06F3}\U{06F4}\U{06F5}\U{06F6}\U{06F7}\U{06F8}\U{06F9}"

  function DigitsOf(script: Script): (digits: string)
    ensures |digits| == 10
  {
    match script
    case Ascii => DIGITS
    case ArabicIndic => ARABIC_INDIC
    case EasternArabicIndic => EASTERN_ARABIC_INDIC
  }

  /** A number as it is written in a script. */
  function NumeralIn(script: Script, n: nat): (r: string)
    ensures r != ""
  {
    if n < 10 then [DigitsOf(script)[n]] else NumeralIn(script, n / 10) + [DigitsOf(script)[n % 10]]
  }

  /** Every digit of the three scripts is folded to the same ASCII one, and no other character is touched. */
  lemma FoldsExactlyTheDigits(d: nat, c: char)
    requires d < 10
    ensures forall script :: FoldDigit(DigitsOf(script)[d]) == DIGITS[d]
    ensures c !in ARABIC_INDIC && c !in EASTERN_ARABIC_INDIC ==> FoldDigit(c) == c
  {
    if '\U{0660}' <= c <= '\U{0669}' {
      assert ARABIC_INDIC[c as int - 0x660] == c;
    } else if '\U{06F0}' <= c <= '\U{06F9}' {
      assert EASTERN_ARABIC_INDIC[c as int - 0x6F0] == c;
    }
  }

  /** So a number folds to the same numeral whatever script it is written in. */
  lemma {:induction false} NumeralsFold(script: Script, n: nat)
    ensures FoldDigits(NumeralIn(script, n)) == NatText(n)
  {
    FoldsExactlyTheDigits(n % 10, '0');
    if n >= 10 {
      NumeralsFold(script, n / 10);
      var front, last := NumeralIn(script, n / 10), [DigitsOf(script)[n % 10]];
      assert FoldDigits(front + last) == FoldDigits(front) + FoldDigits(last);
      assert FoldDigits(last) == [DIGITS[n % 10]];
    } else {
      assert FoldDigits([DigitsOf(script)[n]]) == [DIGITS[n]];
    }
  }

  /** And is read wherever it stands by itself. */
  lemma NumeralIsRead(script: Script, n: nat, before: string, after: string)
    requires before != "" ==> !IsDigit(FoldDigit(before[|before| - 1]))
    requires after != "" ==> !IsDigit(FoldDigit(after[0]))
    ensures States(before + NumeralIn(script, n) + after, NatText(n))
  {
    NumeralsFold(script, n);
    var d := NatText(n);
    FoldsPiecewise(before, NumeralIn(script, n), after);
    StandsAlone(FoldDigits(before), d, FoldDigits(after));
  }

  lemma FoldsPiecewise(a: string, b: string, c: string)
    ensures FoldDigits(a + b + c) == FoldDigits(a) + FoldDigits(b) + FoldDigits(c)
  {
  }

  lemma StandsAlone(before: string, d: string, after: string)
    requires d != "" && forall i :: 0 <= i < |d| ==> IsDigit(d[i])
    requires (before != "" ==> !IsDigit(before[|before| - 1])) && (after != "" ==> !IsDigit(after[0]))
    ensures HasRun(before + d + after, d)
  {
    var s, i, j := before + d + after, |before|, |before| + |d|;
    assert forall k :: i <= k < j ==> s[k] == d[k - i];
    assert s[i..j] == d;
    assert RunAt(s, i, j);
  }

  /** A stretch of digits that cannot be extended on either side. */
  predicate RunAt(s: string, i: int, j: int) {
    && 0 <= i < j <= |s|
    && (forall k :: i <= k < j ==> IsDigit(s[k]))
    && (0 < i ==> !IsDigit(s[i - 1]))
    && (j < |s| ==> !IsDigit(s[j]))
  }

  ghost predicate HasRun(s: string, r: string) {
    exists i, j :: RunAt(s, i, j) && s[i..j] == r
  }

  /** The numerals of a text, in either script. */
  ghost predicate States(text: string, r: string) {
    HasRun(FoldDigits(text), r)
  }

  /** Scan a folded text for its digit runs. */
  method DigitRuns(text: string) returns (runs: set<string>)
    ensures forall r :: r in runs <==> States(text, r)
  {
    var s := FoldDigits(text);
    runs := {};
    var i := 0;
    while i < |s|
      invariant 0 <= i <= |s|
      invariant 0 < i < |s| ==> !IsDigit(s[i - 1]) || !IsDigit(s[i])
      invariant forall r :: r in runs ==> HasRun(s, r)
      invariant forall a, b :: RunAt(s, a, b) && a < i ==> s[a..b] in runs
    {
      if !IsDigit(s[i]) {
        i := i + 1;
        continue;
      }
      var j := i + 1;
      while j < |s| && IsDigit(s[j])
        invariant i < j <= |s| && forall k :: i <= k < j ==> IsDigit(s[k])
      {
        j := j + 1;
      }
      assert RunAt(s, i, j);
      forall a, b | RunAt(s, a, b) && i <= a < j
        ensures s[a..b] == s[i..j]
      {
        RunsDoNotOverlap(s, i, j, a, b);
      }
      runs := runs + {s[i..j]};
      i := j;
    }
  }

  lemma RunsDoNotOverlap(s: string, i: int, j: int, a: int, b: int)
    requires RunAt(s, i, j) && RunAt(s, a, b) && i <= a < j
    ensures a == i && b == j
  {
  }

  predicate NoDigits(s: string) {
    forall i :: 0 <= i < |s| ==> !IsDigit(s[i])
  }

  /** The text s, found inside t at an offset. */
  ghost predicate Inside(s: string, t: string, offset: int) {
    && 0 <= offset && offset + |s| <= |t|
    && forall k {:trigger t[k]} :: offset <= k < offset + |s| ==> t[k] == s[k - offset]
  }

  lemma RunMoves(s: string, t: string, offset: int, i: int, j: int)
    requires Inside(s, t, offset) && RunAt(s, i, j)
    requires 0 < offset ==> !IsDigit(t[offset - 1])
    requires offset + |s| < |t| ==> !IsDigit(t[offset + |s|])
    ensures HasRun(t, s[i..j])
  {
    assert t[offset + i..offset + j] == s[i..j];
    assert RunAt(t, offset + i, offset + j);
  }

  lemma RunMovesBack(s: string, t: string, offset: int, i: int, j: int)
    requires Inside(s, t, offset) && RunAt(t, i, j) && offset <= i && j <= offset + |s|
    ensures HasRun(s, t[i..j])
  {
    forall k | i - offset <= k < j - offset
      ensures IsDigit(s[k])
    {
      assert t[k + offset] == s[k];
    }
    assert i - offset > 0 ==> t[i - 1] == s[i - offset - 1];
    assert j - offset < |s| ==> t[j] == s[j - offset];
    assert s[i - offset..j - offset] == t[i..j];
    assert RunAt(s, i - offset, j - offset);
  }

  lemma EitherSide(a: string, sep: string, b: string)
    ensures var t := a + sep + b;
            Inside(a, t, 0) && Inside(sep, t, |a|) && Inside(b, t, |a| + |sep|)
  {
  }

  lemma RunsKept(a: string, sep: string, b: string, r: string)
    requires sep != "" && NoDigits(sep) && (HasRun(a, r) || HasRun(b, r))
    ensures HasRun(a + sep + b, r)
  {
    var t := a + sep + b;
    EitherSide(a, sep, b);
    assert t[|a|] == sep[0] && t[|a| + |sep| - 1] == sep[|sep| - 1];
    if HasRun(a, r) {
      var i, j :| RunAt(a, i, j) && a[i..j] == r;
      RunMoves(a, t, 0, i, j);
    } else {
      var i, j :| RunAt(b, i, j) && b[i..j] == r;
      RunMoves(b, t, |a| + |sep|, i, j);
    }
  }

  lemma RunsOnOneSide(a: string, sep: string, b: string, i: int, j: int)
    requires sep != "" && NoDigits(sep) && RunAt(a + sep + b, i, j)
    ensures j <= |a| || |a| + |sep| <= i
  {
    var t := a + sep + b;
    EitherSide(a, sep, b);
    assert t[|a|] == sep[0];
    assert IsDigit(t[i]);
  }

  /** Putting something without digits between two texts neither joins nor loses a numeral. */
  lemma RunsAcross(a: string, sep: string, b: string, r: string)
    requires sep != "" && NoDigits(sep)
    ensures HasRun(a + sep + b, r) <==> HasRun(a, r) || HasRun(b, r)
  {
    if HasRun(a, r) || HasRun(b, r) {
      RunsKept(a, sep, b, r);
    }
    if HasRun(a + sep + b, r) {
      var t := a + sep + b;
      var i, j :| RunAt(t, i, j) && t[i..j] == r;
      EitherSide(a, sep, b);
      RunsOnOneSide(a, sep, b, i, j);
      if j <= |a| {
        RunMovesBack(a, t, 0, i, j);
      } else {
        RunMovesBack(b, t, |a| + |sep|, i, j);
      }
    }
  }

  lemma FoldAcross(a: string, sep: string, b: string)
    requires forall i :: 0 <= i < |sep| ==> FoldDigit(sep[i]) == sep[i]
    ensures FoldDigits(a + sep + b) == FoldDigits(a) + sep + FoldDigits(b)
  {
  }

  // --- Rows ------------------------------------------------------------------------------------------------

  datatype Kind = Metric | MetricComparison | Content | BrandKnowledge | Absence

  /** Dates are carried as the ten characters they are printed with. */
  datatype Item = Item(kind: Kind, labelKey: string, metric: Option<string>, value: Option<int>, unit: Option<string>,
                       previous: Option<int>, change: Option<int>, since: Option<string>, until: Option<string>,
                       baselineFrom: Option<string>, baselineTo: Option<string>, platform: Option<string>, note: Option<string>)

  datatype Row = Row(ordinal: nat, item: Item)

  function KindName(k: Kind): string {
    match k
    case Metric => "METRIC"
    case MetricComparison => "METRIC_COMPARISON"
    case Content => "CONTENT"
    case BrandKnowledge => "BRAND_KNOWLEDGE"
    case Absence => "ABSENCE"
  }

  function IntText(n: int): string {
    if n < 0 then "-" + NatText(-n) else NatText(n)
  }

  function TextPart(name: string, value: Option<string>): seq<string> {
    if value.Some? && value.value != "" then [name + value.value] else []
  }

  function IntPart(name: string, value: Option<int>): seq<string> {
    if value.Some? then [name + IntText(value.value)] else []
  }

  function Heading(row: Row): (parts: seq<string>)
    ensures parts != []
  {
    ["e" + NatText(row.ordinal), KindName(row.item.kind), row.item.labelKey] + TextPart("metric=", row.item.metric)
  }

  function Figures(x: Item): seq<string> {
    IntPart("value=", x.value) + TextPart("unit=", x.unit) + IntPart("previous=", x.previous) + IntPart("change_per_mille=", x.change)
  }

  function Periods(x: Item): seq<string> {
    TextPart("from=", x.since) + TextPart("to=", x.until) + TextPart("baseline_from=", x.baselineFrom)
    + TextPart("baseline_to=", x.baselineTo)
  }

  function Source(x: Item): seq<string> {
    TextPart("platform=", x.platform) + TextPart("note=", x.note)
  }

  /** The cells of a row, in order; what it does not have is left out. */
  function Parts(row: Row): (parts: seq<string>)
    ensures parts != []
  {
    Heading(row) + Figures(row.item) + Periods(row.item) + Source(row.item)
  }

  function Join(lines: seq<string>, sep: string): string {
    if lines == [] then "" else if |lines| == 1 then lines[0] else Join(lines[..|lines| - 1], sep) + sep + lines[|lines| - 1]
  }

  function RenderRow(row: Row): string {
    Join(Parts(row), " | ")
  }

  function Rendered(rows: seq<Row>): seq<string> {
    seq(|rows|, i requires 0 <= i < |rows| => RenderRow(rows[i]))
  }

  function RenderEvidence(rows: seq<Row>): string {
    Join(Rendered(rows), "\n")
  }

  predicate Neutral(sep: string) {
    sep != "" && NoDigits(sep) && forall i :: 0 <= i < |sep| ==> FoldDigit(sep[i]) == sep[i]
  }

  /** The numerals of joined lines are those of the lines, no more and no fewer. */
  lemma {:induction false} JoinStates(lines: seq<string>, sep: string, r: string)
    requires Neutral(sep)
    ensures States(Join(lines, sep), r) <==> exists i :: 0 <= i < |lines| && States(lines[i], r)
    decreases |lines|
  {
    if |lines| > 1 {
      var front, last := lines[..|lines| - 1], lines[|lines| - 1];
      JoinStates(front, sep, r);
      FoldAcross(Join(front, sep), sep, last);
      RunsAcross(FoldDigits(Join(front, sep)), sep, FoldDigits(last), r);
      assert (exists i :: 0 <= i < |lines| && States(lines[i], r))
             <==> States(last, r) || exists i :: 0 <= i < |front| && States(front[i], r) by {
        if i :| 0 <= i < |lines| && States(lines[i], r) {
          assert i == |front| || front[i] == lines[i];
        }
        if i :| 0 <= i < |front| && States(front[i], r) {
          assert lines[i] == front[i];
        }
      }
    } else if |lines| == 1 {
      assert Join(lines, sep) == lines[0];
    }
  }

  /** The digit runs of the joined rendering are exactly the union of the rows' own. */
  lemma JoinedRunsAreTheUnion(rows: seq<Row>, r: string)
    ensures States(RenderEvidence(rows), r) <==> exists i :: 0 <= i < |rows| && States(RenderRow(rows[i]), r)
  {
    JoinStates(Rendered(rows), "\n", r);
    if i :| 0 <= i < |rows| && States(RenderRow(rows[i]), r) {
      assert States(Rendered(rows)[i], r);
    }
  }

  lemma NumeralAtTheEnd(prefix: string, n: nat)
    requires prefix != "" && !IsDigit(FoldDigit(prefix[|prefix| - 1]))
    ensures States(prefix + NatText(n), NatText(n))
  {
    var d := NatText(n);
    var s := FoldDigits(prefix + d);
    assert forall i :: 0 <= i < |d| ==> s[|prefix| + i] == d[i] by {
      forall i | 0 <= i < |d|
        ensures s[|prefix| + i] == d[i]
      {
        assert (prefix + d)[|prefix| + i] == d[i] && IsDigit(d[i]);
      }
    }
    assert s[|prefix| - 1] == FoldDigit((prefix + d)[|prefix| - 1]);
    assert s[|prefix|..|s|] == d;
    assert RunAt(s, |prefix|, |s|);
  }

  lemma FigureStates(row: Row, part: string, r: string)
    requires part in Figures(row.item) && States(part, r)
    ensures States(RenderRow(row), r)
  {
    var f := Figures(row.item);
    var i :| 0 <= i < |f| && f[i] == part;
    assert Parts(row)[|Heading(row)| + i] == part;
    JoinStates(Parts(row), " | ", r);
  }

  function AbsText(n: int): string {
    NatText(if n < 0 then -n else n)
  }

  lemma PositiveStates(name: string, n: nat)
    requires name != "" && !IsDigit(FoldDigit(name[|name| - 1]))
    ensures States(name + IntText(n), AbsText(n))
  {
    assert IntText(n) == NatText(n) == AbsText(n);
    NumeralAtTheEnd(name, n);
  }

  lemma NegativeStates(name: string, n: int)
    requires n < 0
    ensures States(name + IntText(n), AbsText(n))
  {
    var dashed, digits := name + "-", NatText(-n);
    assert dashed[|dashed| - 1] == '-';
    NumeralAtTheEnd(dashed, -n);
    assert name + ("-" + digits) == dashed + digits;
    assert IntText(n) == "-" + digits && AbsText(n) == digits;
  }

  lemma IntPartStates(name: string, n: int)
    requires name != "" && !IsDigit(FoldDigit(name[|name| - 1]))
    ensures States(name + IntText(n), AbsText(n))
  {
    if n < 0 {
      NegativeStates(name, n);
    } else {
      PositiveStates(name, n);
    }
  }

  /** A row always lets a claim restate its own figures: the value, the previous value, the change, its ordinal. */
  lemma RowStatesItsFigures(row: Row)
    ensures States(RenderRow(row), NatText(row.ordinal))
    ensures row.item.value.Some? ==> States(RenderRow(row), AbsText(row.item.value.value))
    ensures row.item.previous.Some? ==> States(RenderRow(row), AbsText(row.item.previous.value))
    ensures row.item.change.Some? ==> States(RenderRow(row), AbsText(row.item.change.value))
  {
    var x := row.item;
    NumeralAtTheEnd("e", row.ordinal);
    assert Parts(row)[0] == "e" + NatText(row.ordinal);
    JoinStates(Parts(row), " | ", NatText(row.ordinal));
    if x.value.Some? {
      IntPartStates("value=", x.value.value);
      FigureStates(row, "value=" + IntText(x.value.value), AbsText(x.value.value));
    }
    if x.previous.Some? {
      IntPartStates("previous=", x.previous.value);
      FigureStates(row, "previous=" + IntText(x.previous.value), AbsText(x.previous.value));
    }
    if x.change.Some? {
      IntPartStates("change_per_mille=", x.change.value);
      FigureStates(row, "change_per_mille=" + IntText(x.change.value), AbsText(x.change.value));
    }
  }

  ghost predicate AnyStates(lines: seq<string>, r: string) {
    exists i :: 0 <= i < |lines| && States(lines[i], r)
  }

  lemma AnyOfBoth(a: seq<string>, b: seq<string>, r: string)
    ensures AnyStates(a + b, r) <==> AnyStates(a, r) || AnyStates(b, r)
  {
    if i :| 0 <= i < |a + b| && States((a + b)[i], r) {
      assert i < |a| ==> States(a[i], r);
      assert |a| <= i ==> States(b[i - |a|], r);
    }
    if i :| 0 <= i < |a| && States(a[i], r) {
      assert States((a + b)[i], r);
    }
    if i :| 0 <= i < |b| && States(b[i], r) {
      assert States((a + b)[|a| + i], r);
    }
  }

  lemma NothingToState(r: string)
    ensures !States("", r)
  {
    assert FoldDigits("") == "";
  }

  /** A name without digits in front changes no numeral. */
  lemma NamedStates(name: string, text: string, r: string)
    requires Neutral(name)
    ensures States(name + text, r) <==> States(text, r)
  {
    FoldAcross("", name, text);
    assert "" + name + text == name + text;
    RunsAcross(FoldDigits(""), name, FoldDigits(text), r);
    NothingToState(r);
  }

  /** A whole number states exactly its own numeral. */
  lemma OnlyItsNumeral(n: nat, r: string)
    ensures States(NatText(n), r) <==> r == NatText(n)
  {
    var d := NatText(n);
    assert FoldDigits(d) == d;
    if i, j :| RunAt(d, i, j) && d[i..j] == r {
      assert i == 0 && j == |d|;
    }
    assert RunAt(d, 0, |d|) && d[0..|d|] == d;
  }

  lemma NamesAreNeutral()
    ensures Neutral("value=") && Neutral("unit=") && Neutral("previous=") && Neutral("change_per_mille=")
  {
  }

  lemma PeriodNamesAreNeutral()
    ensures Neutral("from=") && Neutral("to=") && Neutral("baseline_from=") && Neutral("baseline_to=")
  {
  }

  lemma SourceNamesAreNeutral()
    ensures Neutral("platform=") && Neutral("note=")
  {
  }

  ghost predicate FigureIs(f: Option<int>, r: string) {
    f.Some? && r == AbsText(f.value)
  }

  ghost predicate FieldStates(f: Option<string>, r: string) {
    f.Some? && States(f.value, r)
  }

  lemma IntPartExactly(name: string, f: Option<int>, r: string)
    requires Neutral(name)
    ensures AnyStates(IntPart(name, f), r) <==> FigureIs(f, r)
  {
    if f.Some? {
      OnlyLine(name + IntText(f.value), r);
      NamedStates(name, IntText(f.value), r);
      IntStatesExactly(f.value, r);
    }
  }

  lemma OnlyLine(line: string, r: string)
    ensures AnyStates([line], r) <==> States(line, r)
  {
    assert [line][0] == line;
  }

  lemma IntStatesExactly(n: int, r: string)
    ensures States(IntText(n), r) <==> r == AbsText(n)
  {
    if n < 0 {
      DashedStates(NatText(-n), r);
      OnlyItsNumeral(-n, r);
    } else {
      OnlyItsNumeral(n, r);
    }
  }

  lemma DashedStates(text: string, r: string)
    ensures States("-" + text, r) <==> States(text, r)
  {
    assert Neutral("-");
    NamedStates("-", text, r);
  }

  lemma TextPartExactly(name: string, f: Option<string>, r: string)
    requires Neutral(name)
    ensures AnyStates(TextPart(name, f), r) <==> FieldStates(f, r)
  {
    NothingToState(r);
    if f.Some? && f.value != "" {
      OnlyLine(name + f.value, r);
      NamedStates(name, f.value, r);
    }
  }

  lemma HeadingExactly(row: Row, r: string)
    ensures AnyStates(Heading(row), r) <==> r == NatText(row.ordinal) || States(row.item.labelKey, r) || FieldStates(row.item.metric, r)
  {
    var three := ["e" + NatText(row.ordinal), KindName(row.item.kind), row.item.labelKey];
    AnyOfBoth(three, TextPart("metric=", row.item.metric), r);
    TextPartExactly("metric=", row.item.metric, r);
    NamedStates("e", NatText(row.ordinal), r);
    OnlyItsNumeral(row.ordinal, r);
    KindsStateNothing(row.item.kind, r);
    assert AnyStates(three, r) <==> States(three[0], r) || States(three[1], r) || States(three[2], r);
  }

  lemma KindsStateNothing(k: Kind, r: string)
    ensures !States(KindName(k), r)
  {
    var name := KindName(k);
    assert Neutral(name);
    NamedStates(name, "", r);
    NothingToState(r);
    assert name + "" == name;
  }

  lemma AnyOfFour(a: seq<string>, b: seq<string>, c: seq<string>, d: seq<string>, r: string)
    ensures AnyStates(a + b + c + d, r) <==> AnyStates(a, r) || AnyStates(b, r) || AnyStates(c, r) || AnyStates(d, r)
  {
    AnyOfBoth(a + b + c, d, r);
    AnyOfBoth(a + b, c, r);
    AnyOfBoth(a, b, r);
  }

  lemma FiguresExactly(x: Item, r: string)
    ensures AnyStates(Figures(x), r) <==>
            FigureIs(x.value, r) || FieldStates(x.unit, r) || FigureIs(x.previous, r) || FigureIs(x.change, r)
  {
    NamesAreNeutral();
    AnyOfFour(IntPart("value=", x.value), TextPart("unit=", x.unit), IntPart("previous=", x.previous), IntPart("change_per_mille=", x.change), r);
    IntPartExactly("value=", x.value, r);
    TextPartExactly("unit=", x.unit, r);
    IntPartExactly("previous=", x.previous, r);
    IntPartExactly("change_per_mille=", x.change, r);
  }

  lemma PeriodsExactly(x: Item, r: string)
    ensures AnyStates(Periods(x), r) <==>
            FieldStates(x.since, r) || FieldStates(x.until, r) || FieldStates(x.baselineFrom, r) || FieldStates(x.baselineTo, r)
  {
    PeriodNamesAreNeutral();
    AnyOfFour(TextPart("from=", x.since), TextPart("to=", x.until), TextPart("baseline_from=", x.baselineFrom), TextPart("baseline_to=", x.baselineTo), r);
    TextPartExactly("from=", x.since, r);
    TextPartExactly("to=", x.until, r);
    TextPartExactly("baseline_from=", x.baselineFrom, r);
    TextPartExactly("baseline_to=", x.baselineTo, r);
  }

  lemma SourceExactly(x: Item, r: string)
    ensures AnyStates(Source(x), r) <==> FieldStates(x.platform, r) || FieldStates(x.note, r)
  {
    SourceNamesAreNeutral();
    AnyOfBoth(TextPart("platform=", x.platform), TextPart("note=", x.note), r);
    TextPartExactly("platform=", x.platform, r);
    TextPartExactly("note=", x.note, r);
  }

  /** The numerals of a row are those of its fields, each of them, and no others. */
  lemma RowStatesExactly(row: Row, r: string)
    ensures var x := row.item;
            States(RenderRow(row), r) <==>
            || r == NatText(row.ordinal) || States(x.labelKey, r) || FieldStates(x.metric, r)
            || FigureIs(x.value, r) || FieldStates(x.unit, r) || FigureIs(x.previous, r) || FigureIs(x.change, r)
            || FieldStates(x.since, r) || FieldStates(x.until, r) || FieldStates(x.baselineFrom, r)
            || FieldStates(x.baselineTo, r) || FieldStates(x.platform, r) || FieldStates(x.note, r)
  {
    JoinStates(Parts(row), " | ", r);
    assert AnyStates(Parts(row), r) <==> States(RenderRow(row), r);
    AnyOfFour(Heading(row), Figures(row.item), Periods(row.item), Source(row.item), r);
    HeadingExactly(row, r);
    FiguresExactly(row.item, r);
    PeriodsExactly(row.item, r);
    SourceExactly(row.item, r);
  }

  // --- The package ------------------------------------------------------------------------------------------

  datatype Package = Package(rows: seq<Row>, allowed: set<string>, byOrdinal: map<nat, set<string>>)

  /** Exactly the numerals of the row's own rendering. */
  ghost predicate Lists(numerals: set<string>, row: Row) {
    forall r :: r in numerals <==> States(RenderRow(row), r)
  }

  /** Numbered from one, each with exactly the numerals of its own rendering. */
  ghost predicate ValidPackage(p: Package) {
    && (forall i :: 0 <= i < |p.rows| ==> p.rows[i].ordinal == i + 1)
    && ListsAll(p.byOrdinal, p.rows, |p.rows|)
    && (forall r :: r in p.allowed <==> States(RenderEvidence(p.rows), r))
  }

  function Numbered(items: seq<Item>): (rows: seq<Row>)
    ensures |rows| == |items|
  {
    seq(|items|, i requires 0 <= i < |items| => Row(i + 1, items[i]))
  }

  /** The first `maxItems` candidates, numbered in order. */
  method BuildEvidencePackage(candidates: seq<Item>, maxItems: nat) returns (p: Package)
    ensures ValidPackage(p)
    ensures p.rows == Numbered(candidates[..if |candidates| < maxItems then |candidates| else maxItems])
  {
    var rows, ordinal := [], 1;
    for i := 0 to |candidates|
      invariant ordinal == |rows| + 1
      invariant rows == Numbered(candidates[..if i < maxItems then i else maxItems])
    {
      if |rows| < maxItems {
        assert candidates[..i + 1] == candidates[..i] + [candidates[i]];
        rows := rows + [Row(ordinal, candidates[i])];
        ordinal := ordinal + 1;
      }
    }
    var byOrdinal := NumbersByOrdinal(rows);
    var allowed := DigitRuns(RenderEvidence(rows));
    return Package(rows, allowed, byOrdinal);
  }

  method OwnNumbers(row: Row) returns (own: set<string>)
    ensures Lists(own, row)
  {
    own := DigitRuns(RenderRow(row));
  }

  ghost predicate ListsAll(byOrdinal: map<nat, set<string>>, rows: seq<Row>, n: nat)
    requires n <= |rows|
  {
    && (forall o :: o in byOrdinal <==> 1 <= o <= n)
    && (forall o {:trigger byOrdinal[o]} :: 1 <= o <= n ==> Lists(byOrdinal[o], rows[o - 1]))
  }

  /** Each row rendered alone, so that its numerals are exactly what that row says. */
  method NumbersByOrdinal(rows: seq<Row>) returns (byOrdinal: map<nat, set<string>>)
    requires forall i :: 0 <= i < |rows| ==> rows[i].ordinal == i + 1
    ensures ListsAll(byOrdinal, rows, |rows|)
  {
    byOrdinal := map[];
    for i := 0 to |rows|
      invariant ListsAll(byOrdinal, rows, i)
    {
      var own := OwnNumbers(rows[i]);
      byOrdinal := byOrdinal[rows[i].ordinal := own];
    }
  }

  // --- Grounding ----------------------------------------------------------------------------------------------

  datatype Violation = UnknownCitation(ordinal: nat) | UngroundedNumber(numeral: string) | NoCitation

  datatype Prose = Prose(ar: string, en: string)
  datatype Claim = Claim(refs: seq<nat>, text: Prose)

  /** Both languages, one above the other. */
  function Body(t: Prose): string {
    t.ar + "\n" + t.en
  }

  /** Some row this text cites prints the numeral. */
  ghost predicate Cites(rows: seq<Row>, refs: seq<nat>, r: string) {
    exists o :: o in refs && RowStates(rows, o, r)
  }

  ghost predicate RowStates(rows: seq<Row>, o: nat, r: string) {
    1 <= o <= |rows| && States(RenderRow(rows[o - 1]), r)
  }

  /** A numeral is backed when a row that this text cites prints it, or the caller allowed it. */
  ghost predicate Backed(rows: seq<Row>, refs: seq<nat>, extra: set<string>, r: string) {
    r in extra || Cites(rows, refs, r)
  }

  /** What grounded means, without reference to how it is checked. */
  ghost predicate Grounded(rows: seq<Row>, refs: seq<nat>, text: string, extra: set<string>, mustCite: bool) {
    && (mustCite ==> refs != [])
    && (forall i :: 0 <= i < |refs| ==> 1 <= refs[i] <= |rows|)
    && (forall r :: States(text, r) && 2 <= |r| ==> Backed(rows, refs, extra, r))
  }

  /** Whether the check reports this violation of this text. */
  ghost predicate Violates(rows: seq<Row>, refs: seq<nat>, text: string, extra: set<string>, mustCite: bool, v: Violation) {
    match v
    case NoCitation => mustCite && refs == []
    case UnknownCitation(o) => o in refs && !(1 <= o <= |rows|)
    case UngroundedNumber(r) => States(text, r) && 2 <= |r| && !Backed(rows, refs, extra, r)
  }

  /** One text against the rows it cites, and no others. */
  method ValidateGrounding(text: string, refs: seq<nat>, p: Package, extra: set<string>, mustCite: bool)
    returns (violations: seq<Violation>)
    requires ValidPackage(p)
    ensures forall v :: v in violations <==> Violates(p.rows, refs, text, extra, mustCite, v)
  {
    var unknown, allowed := CollectCitations(refs, p);
    violations := CheckNumerals(text, refs, p.rows, allowed, extra, unknown);
    if mustCite && |refs| == 0 {
      violations := [NoCitation] + violations;
    }
  }

  /** The numerals of the rows cited. A citation of a row there is not is reported and adds nothing. */
  method CollectCitations(refs: seq<nat>, p: Package) returns (unknown: seq<Violation>, allowed: set<string>)
    requires ValidPackage(p)
    ensures forall v :: v in unknown <==> v.UnknownCitation? && v.ordinal in refs && !(1 <= v.ordinal <= |p.rows|)
    ensures forall r :: r in allowed <==> Cites(p.rows, refs, r)
  {
    unknown, allowed := [], {};
    for i := 0 to |refs|
      invariant forall v :: v in unknown <==> v.UnknownCitation? && v.ordinal in refs[..i] && !(1 <= v.ordinal <= |p.rows|)
      invariant forall r :: r in allowed <==> Cites(p.rows, refs[..i], r)
    {
      OneMoreRef(refs, i);
      var added := Numerals(refs[i], p);
      AllowedOneMore(p.rows, refs, i, allowed, added);
      allowed := allowed + added;
      if refs[i] !in p.byOrdinal {
        unknown := unknown + [UnknownCitation(refs[i])];
      }
    }
    assert refs[..|refs|] == refs;
  }

  /** What citing this row allows: its numerals, or nothing if there is no such row. */
  function Numerals(o: nat, p: Package): (allowed: set<string>)
    requires ValidPackage(p)
    ensures forall r :: r in allowed <==> RowStates(p.rows, o, r)
  {
    if o !in p.byOrdinal then {}
    else
      assert Lists(p.byOrdinal[o], p.rows[o - 1]);
      p.byOrdinal[o]
  }

  /** One numeral, and one more citation. */
  lemma CitesOneMore(rows: seq<Row>, refs: seq<nat>, i: nat, r: string)
    requires i < |refs|
    ensures Cites(rows, refs[..i + 1], r) <==> Cites(rows, refs[..i], r) || RowStates(rows, refs[i], r)
  {
    OneMoreRef(refs, i);
  }

  lemma AllowedOneMore(rows: seq<Row>, refs: seq<nat>, i: nat, allowed: set<string>, added: set<string>)
    requires i < |refs| && (forall r :: r in allowed <==> Cites(rows, refs[..i], r)) && (forall r :: r in added <==> RowStates(rows, refs[i], r))
    ensures forall r :: r in allowed + added <==> Cites(rows, refs[..i + 1], r)
  {
    forall r
      ensures r in allowed + added <==> Cites(rows, refs[..i + 1], r)
    {
      CitesOneMore(rows, refs, i, r);
    }
  }

  lemma OneMoreRef(refs: seq<nat>, i: nat)
    requires i < |refs|
    ensures refs[..i + 1] == refs[..i] + [refs[i]]
    ensures forall o :: o in refs[..i + 1] <==> o in refs[..i] || o == refs[i]
  {
    assert refs[..i + 1] == refs[..i] + [refs[i]];
  }

  method CheckNumerals(text: string, ghost refs: seq<nat>, ghost rows: seq<Row>, allowed: set<string>, extra: set<string>,
                       found: seq<Violation>) returns (violations: seq<Violation>)
    requires forall r :: r in allowed || r in extra <==> Backed(rows, refs, extra, r)
    requires forall v :: v in found ==> !v.UngroundedNumber?
    ensures forall v :: v in violations <==>
              v in found || (v.UngroundedNumber? && States(text, v.numeral) && 2 <= |v.numeral| && !Backed(rows, refs, extra, v.numeral))
  {
    violations := found;
    var numerals := DigitRuns(text);
    var left := numerals;
    while left != {}
      invariant left <= numerals
      invariant forall v :: v in violations <==>
                  v in found || (v.UngroundedNumber? && v.numeral in numerals - left && 2 <= |v.numeral|
                                 && !Backed(rows, refs, extra, v.numeral))
      decreases |left|
    {
      var numeral :| numeral in left;
      left := left - {numeral};
      if numeral !in allowed && numeral !in extra && |numeral| > 1 {
        violations := violations + [UngroundedNumber(numeral)];
      }
    }
  }

  /** No violation is reported exactly when the text is grounded. */
  lemma NoViolationIffGrounded(rows: seq<Row>, refs: seq<nat>, text: string, extra: set<string>, mustCite: bool)
    ensures (forall v :: !Violates(rows, refs, text, extra, mustCite, v)) <==> Grounded(rows, refs, text, extra, mustCite)
  {
    if forall v :: !Violates(rows, refs, text, extra, mustCite, v) {
      assert !Violates(rows, refs, text, extra, mustCite, NoCitation);
      forall i | 0 <= i < |refs|
        ensures 1 <= refs[i] <= |rows|
      {
        assert !Violates(rows, refs, text, extra, mustCite, UnknownCitation(refs[i]));
      }
      forall r | States(text, r) && 2 <= |r|
        ensures Backed(rows, refs, extra, r)
      {
        assert !Violates(rows, refs, text, extra, mustCite, UngroundedNumber(r));
      }
    }
  }

  ghost predicate GroundedDocument(rows: seq<Row>, claims: seq<Claim>, uncited: seq<Prose>, extra: set<string>) {
    && (forall i :: 0 <= i < |claims| ==> Grounded(rows, claims[i].refs, Body(claims[i].text), extra, true))
    && (forall i :: 0 <= i < |uncited| ==> Grounded(rows, [], Body(uncited[i]), extra, false))
  }

  /** The whole document, claim by claim: nothing is reported if and only if every claim stands on its own citations. */
  method ValidateGroundedDocument(claims: seq<Claim>, uncited: seq<Prose>, p: Package, extra: set<string>)
    returns (violations: seq<Violation>)
    requires ValidPackage(p)
    ensures violations == [] <==> GroundedDocument(p.rows, claims, uncited, extra)
  {
    violations := [];
    for i := 0 to |claims|
      invariant violations == [] <==> forall k :: 0 <= k < i ==> Grounded(p.rows, claims[k].refs, Body(claims[k].text), extra, true)
    {
      var found := ValidateGrounding(Body(claims[i].text), claims[i].refs, p, extra, true);
      NoViolationIffGrounded(p.rows, claims[i].refs, Body(claims[i].text), extra, true);
      EmptyIffNone(found);
      violations := violations + found;
    }
    for i := 0 to |uncited|
      invariant violations == [] <==>
                  (forall k :: 0 <= k < |claims| ==> Grounded(p.rows, claims[k].refs, Body(claims[k].text), extra, true))
                  && forall k :: 0 <= k < i ==> Grounded(p.rows, [], Body(uncited[k]), extra, false)
    {
      var found := ValidateGrounding(Body(uncited[i]), [], p, extra, false);
      NoViolationIffGrounded(p.rows, [], Body(uncited[i]), extra, false);
      EmptyIffNone(found);
      violations := violations + found;
    }
  }

  lemma EmptyIffNone(vs: seq<Violation>)
    ensures vs == [] <==> forall v :: v !in vs
  {
    if vs != [] {
      assert vs[0] in vs;
    }
  }

  /** Neither language can hide a number from the check. */
  lemma BothLanguagesAreRead(t: Prose, r: string)
    ensures States(Body(t), r) <==> States(t.ar, r) || States(t.en, r)
  {
    FoldAcross(t.ar, "\n", t.en);
    RunsAcross(FoldDigits(t.ar), "\n", FoldDigits(t.en), r);
  }

  /** Uncited prose has no numbers of its own beyond single digits. */
  lemma UncitedProseStatesNothing(rows: seq<Row>, t: Prose, extra: set<string>)
    ensures Grounded(rows, [], Body(t), extra, false) <==>
            forall r :: 2 <= |r| && (States(t.ar, r) || States(t.en, r)) ==> r in extra
  {
    forall r
      ensures States(Body(t), r) <==> States(t.ar, r) || States(t.en, r)
    {
      BothLanguagesAreRead(t, r);
    }
  }

  /** Appending evidence never changes the verdict on a text that cites the rows there were. */
  lemma MoreEvidenceChangesNothing(rows: seq<Row>, more: seq<Row>, refs: seq<nat>, text: string, extra: set<string>, mustCite: bool, v: Violation)
    requires forall i :: 0 <= i < |refs| ==> 1 <= refs[i] <= |rows|
    ensures Violates(rows + more, refs, text, extra, mustCite, v) <==> Violates(rows, refs, text, extra, mustCite, v)
  {
    forall r
      ensures Backed(rows + more, refs, extra, r) <==> Backed(rows, refs, extra, r)
    {
      if Cites(rows + more, refs, r) {
        var o :| o in refs && RowStates(rows + more, o, r);
        assert (rows + more)[o - 1] == rows[o - 1] && RowStates(rows, o, r);
      }
      if Cites(rows, refs, r) {
        var o :| o in refs && RowStates(rows, o, r);
        assert (rows + more)[o - 1] == rows[o - 1] && RowStates(rows + more, o, r);
      }
    }
  }

  /** A number of two digits or more, in any script and standing by itself, is reported unless a cited row or the caller allows it. */
  lemma InventedNumberIsReported(rows: seq<Row>, refs: seq<nat>, extra: set<string>, mustCite: bool,
                                 script: Script, n: nat, before: string, after: string)
    requires 10 <= n && !Backed(rows, refs, extra, NatText(n))
    requires before != "" ==> !IsDigit(FoldDigit(before[|before| - 1]))
    requires after != "" ==> !IsDigit(FoldDigit(after[0]))
    ensures Violates(rows, refs, before + NumeralIn(script, n) + after, extra, mustCite, UngroundedNumber(NatText(n)))
  {
    NumeralIsRead(script, n, before, after);
    assert |NatText(n / 10)| >= 1 && |NatText(n)| >= 2;
  }
}
