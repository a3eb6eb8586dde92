/**
 * The race-card half of the extractor: one competitor record per row of the
 * race-card page, built field by field, and the time-of-day bucket of a race.
 */
module RaceCard {
  import opened Options
  import opened Strings
  import opened Patterns

  /** At most this many rows of the race card are read: one per lane. */
  const MaxLanes := 6

  /** The value every field keeps when nothing was extracted for it. */
  const Sentinel: string := "-"

  /** The top-tier competitors whose records carry the 【SS】 mark. */
  const Superstars: seq<string> :=
    ["茅原悠紀", "関浩哉", "峰竜太", "池田浩二", "毒島誠", "桐生順平", "白井英治", "馬場貴也", "石野貴之"]

  /**
   * One competitor row (`tbody.is-fs12`) of the race-card page, as the HTML
   * parser hands it over.
   */
  datatype Row = Row(
    text: string,             // the row's text, its strings concatenated
    spacedText: string,       // the row's stripped strings joined by one space
    nameText: Option<string>, // the stripped text of the name element, when there is one
    cells: seq<seq<string>>)  // per cell, its stripped strings (the pieces between "|")

  datatype Grade = A1 | A2 | B1 | B2

  /** One competitor; every text field is `Sentinel` when nothing was extracted. */
  datatype Record = Record(
    no: nat,
    name: string,
    grade: Grade,
    weight: string,
    nationRate: string,
    localRate: string,
    motorRate: string,
    st: string,
    tenji: string,
    isAbsent: bool)

  function Min(a: nat, b: nat): nat
  {
    if a < b then a else b
  }

  /** The time-of-day label of a race, by its number. */
  function RaceTimeStatus(raceNo: int): (r: string)
    ensures r == "デイレース" <==> raceNo <= 4
    ensures r == "夕方" <==> 5 <= raceNo <= 7
    ensures r == "ナイター" <==> 8 <= raceNo
  {
    if raceNo <= 4 then "デイレース"
    else if raceNo <= 7 then "夕方"
    else "ナイター"
  }

  predicate IsAbsent(row: Row)
  {
    Contains(row.text, "欠場")
  }

  /** The competitor's name with full-width spaces removed, or 不明 when the row has no name element. */
  function CleanName(row: Row): string
  {
    match row.nameText
    case Some(t) => RemoveAll(t, "\U{3000}")
    case None => "不明"
  }

  /**
   * No full-width space is left in a cleaned name, and every other character
   * of the name element is kept; a row without a name element gives 不明.
   */
  lemma CleanNameNoWideSpace(row: Row)
    ensures forall k :: 0 <= k < |CleanName(row)| ==> CleanName(row)[k] != '\U{3000}'
    ensures row.nameText.Some? ==> multiset(CleanName(row)) == multiset(row.nameText.value)['\U{3000}' := 0]
    ensures row.nameText.None? ==> CleanName(row) == "不明"
  {
    if row.nameText.Some? {
      RemoveAllChar(row.nameText.value, '\U{3000}');
    }
  }

  predicate IsSuperstar(name: string)
  {
    exists k :: 0 <= k < |Superstars| && Contains(name, Superstars[k])
  }

  /**
   * The displayed name: the cleaned name, then ★ for an Osaka-based
   * competitor, then 【SS】 for a listed top-tier one.
   */
  function DecoratedName(row: Row): string
  {
    var name := CleanName(row);
    var home := if Contains(row.text, "大阪") then "★" else "";
    var star := if IsSuperstar(name) then "【SS】" else "";
    name + home + star
  }

  /**
   * The displayed name starts with the cleaned name; the marks after it hold
   * ★ exactly for a row that mentions 大阪 and 【SS】 exactly for a listed
   * top-tier name, ★ first.
   */
  lemma DecoratedNameShape(row: Row)
    ensures var r, name := DecoratedName(row), CleanName(row);
      && |name| <= |r| && r[..|name|] == name
      && var marks := r[|name|..];
      && ((marks == "★" || marks == "★【SS】") <==> Contains(row.text, "大阪"))
      && ((marks == "【SS】" || marks == "★【SS】") <==> IsSuperstar(name))
      && (marks == "" || marks == "★" || marks == "【SS】" || marks == "★【SS】")
  {
    var name := CleanName(row);
    var home := if Contains(row.text, "大阪") then "★" else "";
    var star := if IsSuperstar(name) then "【SS】" else "";
    assert (name + home + star)[|name|..] == home + star;
  }

  function GradeText(g: Grade): string
  {
    match g
    case A1 => "A1"
    case A2 => "A2"
    case B1 => "B1"
    case B2 => "B2"
  }

  /** A1 ranks highest, B2 lowest. */
  function Rank(g: Grade): nat
  {
    match g
    case A1 => 0
    case A2 => 1
    case B1 => 2
    case B2 => 3
  }

  /**
   * The class grade of a row: the highest-ranked of A1, A2, B1 whose marker
   * occurs in the row's text, and B2 when none does.
   */
  function ClassGrade(text: string): Grade
  {
    if Contains(text, "A1") then A1
    else if Contains(text, "A2") then A2
    else if Contains(text, "B1") then B1
    else B2
  }

  /** A grade other than B2 has its marker in the text, and no higher-ranked marker occurs there. */
  lemma ClassGradeMeaning(text: string)
    ensures var g := ClassGrade(text);
      && (g != B2 ==> Contains(text, GradeText(g)))
      && forall h: Grade :: Rank(h) < Rank(g) ==> !Contains(text, GradeText(h))
  {
  }

  /** A row that mentions both A1 and B2 is graded A1. */
  lemma GradePriority(text: string)
    requires Contains(text, "A1") && Contains(text, "B2")
    ensures ClassGrade(text) == A1
  {
  }

  /** The body weight: the two digits of the first `ddkg` in the row's spaced text. */
  function WeightOf(spacedText: string): string
  {
    match FirstGroup(Weight, spacedText)
    case Some(g) => g
    case None => Sentinel
  }

  /** A national or local rate: the first `d.dd` in the first string of a cell. */
  function RateOf(cell: seq<string>): string
  {
    if |cell| > 0 then
      match FirstGroup(Rate, cell[0])
      case Some(g) => g
      case None => Sentinel
    else Sentinel
  }

  /** The weight is `-` iff the spaced text has no `ddkg`; otherwise it is the two digits of the leftmost one. */
  lemma WeightOfMeaning(t: string)
    ensures WeightOf(t) == Sentinel <==> NoMatch(Weight, t)
    ensures WeightOf(t) != Sentinel ==>
      exists p :: (0 <= p < |t| && MatchesAt(Weight, t, p) && (forall q :: 0 <= q < p ==> !MatchesAt(Weight, t, q))
        && WeightOf(t) == t[p..p + 2])
  {
    FirstGroupMeaning(Weight, t);
    var g := FirstGroup(Weight, t);
    if g.Some? {
      var p :| 0 <= p < |t| && MatchesAt(Weight, t, p) && (forall q :: 0 <= q < p ==> !MatchesAt(Weight, t, q))
        && g.value == t[GroupSpan(Weight, t, p).0..GroupSpan(Weight, t, p).1];
      assert |g.value| == 2;
    }
  }

  /**
   * A rate is `-` iff the cell is empty or its first string has no `d.dd`;
   * otherwise it is the leftmost `d.dd` of the first string.
   */
  lemma RateOfMeaning(cell: seq<string>)
    ensures RateOf(cell) == Sentinel <==> |cell| == 0 || NoMatch(Rate, cell[0])
    ensures RateOf(cell) != Sentinel ==>
      && |cell| > 0
      && exists p :: (0 <= p < |cell[0]| && MatchesAt(Rate, cell[0], p) && (forall q :: 0 <= q < p ==> !MatchesAt(Rate, cell[0], q))
        && RateOf(cell) == cell[0][p..p + 4])
  {
    if |cell| > 0 {
      var t := cell[0];
      FirstGroupMeaning(Rate, t);
      var g := FirstGroup(Rate, t);
      if g.Some? {
        var p :| 0 <= p < |t| && MatchesAt(Rate, t, p) && (forall q :: 0 <= q < p ==> !MatchesAt(Rate, t, q))
          && g.value == t[GroupSpan(Rate, t, p).0..GroupSpan(Rate, t, p).1];
        assert |g.value| == 4;
      }
    }
  }

  /** The start timing of a cell's strings: the LAST string that starts with `0.dd`. */
  function StartTimingOf(tokens: seq<string>): string
    decreases |tokens|
  {
    if |tokens| == 0 then Sentinel
    else if IsStartTiming(tokens[|tokens| - 1]) then tokens[|tokens| - 1]
    else StartTimingOf(tokens[..|tokens| - 1])
  }

  /** The start timing is `-` iff no string starts with `0.dd`; otherwise it is the last string that does. */
  lemma {:induction false} StartTimingMeaning(tokens: seq<string>)
    ensures StartTimingOf(tokens) == Sentinel <==> forall k :: 0 <= k < |tokens| ==> !IsStartTiming(tokens[k])
    ensures StartTimingOf(tokens) != Sentinel ==>
      exists k :: 0 <= k < |tokens| && tokens[k] == StartTimingOf(tokens) && IsStartTiming(tokens[k])
        && forall j :: k < j < |tokens| ==> !IsStartTiming(tokens[j])
    decreases |tokens|
  {
    if |tokens| > 0 {
      var last := |tokens| - 1;
      if !IsStartTiming(tokens[last]) {
        var pre := tokens[..last];
        StartTimingMeaning(pre);
        assert forall k :: 0 <= k < |pre| ==> pre[k] == tokens[k];
        if StartTimingOf(pre) != Sentinel {
          var k :| 0 <= k < |pre| && pre[k] == StartTimingOf(pre) && IsStartTiming(pre[k])
            && forall j :: k < j < |pre| ==> !IsStartTiming(pre[j]);
          assert tokens[k] == StartTimingOf(tokens);
        }
      }
    }
  }

  /** Scans every string of the start-timing cell; a later match overwrites an earlier one. */
  method ScanStartTiming(tokens: seq<string>) returns (st: string)
    ensures st == StartTimingOf(tokens)
  {
    st := Sentinel;
    for i := 0 to |tokens|
      invariant st == StartTimingOf(tokens[..i])
    {
      assert tokens[..i + 1][..i] == tokens[..i];
      if IsStartTiming(tokens[i]) {
        st := tokens[i];
      }
    }
    assert tokens[..|tokens|] == tokens;
  }

  /** The value, in hundredths, of a `dd.dd` token. */
  function Hundredths(g: string): (v: nat)
    requires MatchesAt(Motor, g, 0)
    ensures v < 10000
  {
    1000 * DigitValue(g[0]) + 100 * DigitValue(g[1]) + 10 * DigitValue(g[3]) + DigitValue(g[4])
  }

  /**
   * Python's `f"{float(g)}%"` for a `dd.dd` token: the shortest decimal that
   * reads back as the same float, i.e. no leading zero in the integer part
   * and no trailing zero after the first decimal.
   */
  function PercentText(g: string): (t: string)
    requires MatchesAt(Motor, g, 0)
  {
    WholeText(g) + "." + FracText(g) + "%"
  }

  /** The integer part of `float(g)` as Python writes it: without a leading zero. */
  function WholeText(g: string): string
    requires MatchesAt(Motor, g, 0)
  {
    if g[0] == '0' then [g[1]] else g[..2]
  }

  /** The decimals of `float(g)` as Python writes them: without a trailing second zero. */
  function FracText(g: string): string
    requires MatchesAt(Motor, g, 0)
  {
    [g[3]] + (if g[4] == '0' then "" else [g[4]])
  }

  /** Reads a percentage such as `45.6%` or `9.05%` back to hundredths. */
  function ParsePercent(t: string): Option<nat>
  {
    if |t| < 4 || t[|t| - 1] != '%' || '.' !in t then None
    else
      var i := FirstIndex(t, '.');
      ParseParts(t[..i], t[i + 1..|t| - 1])
  }

  /** The value in hundredths of one or two whole digits and one or two decimals. */
  function ParseParts(whole: string, frac: string): Option<nat>
  {
    if 1 <= |whole| <= 2 && 1 <= |frac| <= 2
       && (forall k :: 0 <= k < |whole| ==> IsDigit(whole[k]))
       && (forall k :: 0 <= k < |frac| ==> IsDigit(frac[k]))
    then Some(100 * DigitsValue(whole) + FracValue(frac))
    else None
  }

  /** The hundredths a decimal part stands for: `5` is 50, `05` is 5. */
  function FracValue(frac: string): nat
    requires forall k :: 0 <= k < |frac| ==> IsDigit(frac[k])
  {
    if |frac| == 1 then 10 * DigitsValue(frac) else DigitsValue(frac)
  }

  /** A percentage whose whole part has no decimal point is read as that whole part and that fraction. */
  lemma ParsePercentParts(whole: string, frac: string)
    requires |whole| >= 1 && '.' !in whole && |frac| >= 1
    ensures ParsePercent(whole + "." + frac + "%") == ParseParts(whole, frac)
  {
    var t := whole + "." + frac + "%";
    assert t == whole + ['.'] + (frac + "%");
    FirstIndexAfter(whole, '.', frac + "%");
    assert t[..|whole|] == whole;
    assert t[|whole| + 1..|t| - 1] == frac;
  }

  lemma WholeTextValue(g: string)
    requires MatchesAt(Motor, g, 0)
    ensures var w := WholeText(g);
      && 1 <= |w| <= 2 && '.' !in w && (forall k :: 0 <= k < |w| ==> IsDigit(w[k]))
      && DigitsValue(w) == 10 * DigitValue(g[0]) + DigitValue(g[1])
  {
    DigitsValueShort(WholeText(g));
  }

  lemma FracTextValue(g: string)
    requires MatchesAt(Motor, g, 0)
    ensures var f := FracText(g);
      && 1 <= |f| <= 2 && (forall k :: 0 <= k < |f| ==> IsDigit(f[k]))
      && FracValue(f) == 10 * DigitValue(g[3]) + DigitValue(g[4])
  {
    DigitsValueShort(FracText(g));
  }

  /** The percentage text keeps the exact value of the token it was formatted from. */
  lemma PercentRoundTrip(g: string)
    requires MatchesAt(Motor, g, 0)
    ensures ParsePercent(PercentText(g)) == Some(Hundredths(g))
  {
    WholeTextValue(g);
    FracTextValue(g);
    ParsePercentParts(WholeText(g), FracText(g));
  }

  /** A motor rate counts only between 10.00 and 99.90 inclusive. */
  predicate InMotorRange(v: nat)
  {
    1000 <= v <= 9990
  }

  /** A string of the motor cell qualifies when its first `dd.dd` lies in the motor range. */
  predicate MotorQualifies(item: string)
  {
    match Search(Motor, item, 0)
    case Some(p) => InMotorRange(Hundredths(item[p..p + 5]))
    case None => false
  }

  /** The motor-rate text of a qualifying string: the percentage text of its first `dd.dd`. */
  function MotorTextOf(item: string): (t: string)
    requires MotorQualifies(item)
    ensures t != Sentinel
  {
    var p := Search(Motor, item, 0).value;
    PercentText(item[p..p + 5])
  }

  /** The motor-rate text of a qualifying string reads back to a value in the motor range. */
  lemma MotorTextInRange(item: string)
    requires MotorQualifies(item)
    ensures ParsePercent(MotorTextOf(item)).Some? && InMotorRange(ParsePercent(MotorTextOf(item)).value)
  {
    var p := Search(Motor, item, 0).value;
    PercentRoundTrip(item[p..p + 5]);
  }

  /** The motor rate of a cell's strings: the text of the FIRST qualifying string, else `Sentinel`. */
  function MotorRateOf(tokens: seq<string>): (r: string)
    decreases |tokens|
  {
    if |tokens| == 0 then Sentinel
    else if MotorQualifies(tokens[0]) then MotorTextOf(tokens[0])
    else MotorRateOf(tokens[1..])
  }

  /** The motor rate is the first qualifying string's value, or `Sentinel` when none qualifies. */
  lemma {:induction false} MotorRateFirst(tokens: seq<string>)
    ensures MotorRateOf(tokens) == Sentinel <==> forall k :: 0 <= k < |tokens| ==> !MotorQualifies(tokens[k])
    ensures MotorRateOf(tokens) != Sentinel ==>
      exists k :: 0 <= k < |tokens| && MotorQualifies(tokens[k])
        && (forall j :: 0 <= j < k ==> !MotorQualifies(tokens[j]))
        && MotorRateOf(tokens) == MotorTextOf(tokens[k])
    decreases |tokens|
  {
    if |tokens| > 0 && MotorQualifies(tokens[0]) {
      assert MotorRateOf(tokens) == MotorTextOf(tokens[0]);
    } else if |tokens| > 0 {
      var rest := tokens[1..];
      MotorRateFirst(rest);
      assert MotorRateOf(tokens) == MotorRateOf(rest);
      assert forall k :: 1 <= k < |tokens| ==> rest[k - 1] == tokens[k];
      if MotorRateOf(rest) != Sentinel {
        var k :| 0 <= k < |rest| && MotorQualifies(rest[k])
          && (forall j :: 0 <= j < k ==> !MotorQualifies(rest[j]))
          && MotorRateOf(rest) == MotorTextOf(rest[k]);
        assert tokens[k + 1] == rest[k];
        assert forall j :: 0 <= j < k + 1 ==> !MotorQualifies(tokens[j]);
      }
    }
  }

  /** A motor rate other than `Sentinel` reads back to a value between 10.00 and 99.90. */
  lemma MotorRateInRange(tokens: seq<string>)
    requires MotorRateOf(tokens) != Sentinel
    ensures ParsePercent(MotorRateOf(tokens)).Some? && InMotorRange(ParsePercent(MotorRateOf(tokens)).value)
  {
    MotorRateFirst(tokens);
    var k :| 0 <= k < |tokens| && MotorQualifies(tokens[k]) && MotorRateOf(tokens) == MotorTextOf(tokens[k]);
    MotorTextInRange(tokens[k]);
  }

  /** Scans the motor cell's strings and stops at the first one whose value lies in the motor range. */
  method ScanMotor(tokens: seq<string>) returns (motor: string)
    ensures motor == MotorRateOf(tokens)
  {
    motor := Sentinel;
    var i := 0;
    while i < |tokens|
      invariant 0 <= i <= |tokens|
      invariant MotorRateOf(tokens[i..]) == MotorRateOf(tokens)
    {
      var hit := Search(Motor, tokens[i], 0);
      if hit.Some? {
        var v := Hundredths(tokens[i][hit.value..hit.value + 5]);
        if InMotorRange(v) {
          motor := PercentText(tokens[i][hit.value..hit.value + 5]);
          return;
        }
      }
      assert tokens[i..][1..] == tokens[i + 1..];
      i := i + 1;
    }
  }

  /** The record the extractor builds for the row at index `i`. */
  function RecordOf(i: nat, row: Row): Record
  {
    var parsed := !IsAbsent(row) && |row.cells| >= 7;
    Record(
      no := i + 1,
      name := DecoratedName(row),
      grade := ClassGrade(row.text),
      weight := if parsed then WeightOf(row.spacedText) else Sentinel,
      nationRate := if parsed then RateOf(row.cells[4]) else Sentinel,
      localRate := if parsed then RateOf(row.cells[5]) else Sentinel,
      motorRate := if parsed then MotorRateOf(row.cells[6]) else Sentinel,
      st := if parsed then StartTimingOf(row.cells[3]) else Sentinel,
      tenji := Sentinel,
      isAbsent := IsAbsent(row))
  }

  /**
   * Record `i` is in lane `i + 1`, absent exactly when its row mentions 欠場,
   * with no exhibition time yet; an absent row or one with fewer than 7
   * cells keeps weight, both rates, motor rate and start timing at `-`.
   */
  lemma RecordFields(i: nat, row: Row)
    ensures var r := RecordOf(i, row);
      && r.no == i + 1
      && (r.isAbsent <==> Contains(row.text, "欠場"))
      && r.tenji == Sentinel
      && (r.isAbsent || |row.cells| < 7 ==>
           r.weight == Sentinel && r.nationRate == Sentinel && r.localRate == Sentinel
           && r.motorRate == Sentinel && r.st == Sentinel)
  {
  }

  /** Builds the record of one row, filling the extracted fields one by one. */
  method BuildRecord(i: nat, row: Row) returns (rec: Record)
    ensures rec == RecordOf(i, row)
  {
    var isAbsent := IsAbsent(row);
    var name := DecoratedName(row);
    var nation, local, motor, st, tenji, weight := Sentinel, Sentinel, Sentinel, Sentinel, Sentinel, Sentinel;
    if !isAbsent && |row.cells| >= 7 {
      var w := FirstGroup(Weight, row.spacedText);
      if w.Some? {
        weight := w.value;
      }
      st := ScanStartTiming(row.cells[3]);
      if |row.cells[4]| > 0 {
        var m := FirstGroup(Rate, row.cells[4][0]);
        nation := if m.Some? then m.value else Sentinel;
      }
      if |row.cells[5]| > 0 {
        var m := FirstGroup(Rate, row.cells[5][0]);
        local := if m.Some? then m.value else Sentinel;
      }
      motor := ScanMotor(row.cells[6]);
    }
    rec := Record(i + 1, name, ClassGrade(row.text), weight, nation, local, motor, st, tenji, isAbsent);
  }

  /** The records of the first `n` rows, record `i` built from row `i`. */
  function RecordsUpTo(rows: seq<Row>, n: nat): (rs: seq<Record>)
    requires n <= |rows|
    ensures |rs| == n
  {
    if n == 0 then [] else RecordsUpTo(rows, n - 1) + [RecordOf(n - 1, rows[n - 1])]
  }

  /** Record `i` of the first `n` is the record of row `i`: later rows do not disturb earlier records. */
  lemma {:induction false} RecordAt(rows: seq<Row>, n: nat, i: nat)
    requires i < n <= |rows|
    ensures RecordsUpTo(rows, n)[i] == RecordOf(i, rows[i])
    decreases n
  {
    var prev := RecordsUpTo(rows, n - 1);
    assert RecordsUpTo(rows, n) == prev + [RecordOf(n - 1, rows[n - 1])];
    if i < n - 1 {
      RecordAt(rows, n - 1, i);
      assert RecordsUpTo(rows, n)[i] == prev[i];
    }
  }

  /** The records of a race card: one per row of the first `MaxLanes`, absent competitors included. */
  function CardRecords(rows: seq<Row>): (rs: seq<Record>)
  {
    RecordsUpTo(rows, Min(MaxLanes, |rows|))
  }

  /** One pass of the extraction loop: appends the record of row `i` to the records of the rows before it. */
  method AppendRecord(racers: seq<Record>, rows: seq<Row>, i: nat) returns (next: seq<Record>)
    requires i < |rows| && racers == RecordsUpTo(rows, i)
    ensures next == RecordsUpTo(rows, i + 1)
  {
    var rec := BuildRecord(i, rows[i]);
    next := racers + [rec];
  }

  /** Builds one record per row of the first six, in row order. */
  method ExtractRecords(rows: seq<Row>) returns (racers: seq<Record>)
    ensures racers == CardRecords(rows)
  {
    racers := [];
    var n := Min(MaxLanes, |rows|);
    for i := 0 to n
      invariant racers == RecordsUpTo(rows, i)
    {
      racers := AppendRecord(racers, rows, i);
    }
  }
}
