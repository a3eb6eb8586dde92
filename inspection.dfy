/**
 * The inspection half of the extractor: the stabilizer notice, the weather
 * summary, the exhibition times written into the race-card records, and the
 * approach-course order.
 */
module Inspection {
  import opened Options
  import opened Strings
  import opened Patterns
  import opened RaceCard

  /** One row (`tbody`) of an inspection table, as the HTML parser hands it over. */
  datatype InfoRow = InfoRow(
    cells: seq<string>,          // the stripped text of each cell
    boatClass: Option<string>)   // first class of the first image having an `is-boatColor...` class

  /** One `div.table1` section of the inspection page. */
  datatype Table = Table(text: string, rows: seq<InfoRow>)

  /** The inspection page, as the HTML parser hands it over. */
  datatype InfoPage = InfoPage(
    text: string,                 // the whole page's text
    weatherBody: Option<string>,  // the weather block's strings joined by one space, when there is one
    tables: seq<Table>)

  const ExhibitionMarker: string := "展示タイム"
  const StartExhibitionMarker: string := "スタート展示"
  const BoatColorPrefix: string := "is-boatColor"

  /** あり when the page announces that stabilizers are fitted, なし otherwise. */
  function Stabilizer(page: InfoPage): (r: string)
    ensures r == "あり" <==> Contains(page.text, "安定板使用")
    ensures r == "あり" || r == "なし"
  {
    if Contains(page.text, "安定板使用") then "あり" else "なし"
  }

  /** A temperature match's group is a digit, then only digits and decimal points. */
  lemma TemperatureGroupShape(s: string, p: nat)
    requires MatchesAt(Temperature, s, p)
    ensures var span := GroupSpan(Temperature, s, p); var g := s[span.0..span.1];
      |g| >= 1 && IsDigit(g[0]) && forall k :: 0 <= k < |g| ==> IsDigit(g[k]) || g[k] == '.'
  {
    TemperatureGreedySplit(s, p);
    var e := TemperatureGroupEnd(s, p).value;
    var a, d, c :| TemperatureSplit(s, p, a, d, e, c);
    var g := s[p..e];
    forall k | 0 <= k < |g|
      ensures IsDigit(g[k]) || g[k] == '.'
    {
      assert g[k] == s[p + k];
    }
    assert g[0] == s[p];
  }

  /** The temperature followed by ℃, or "-" when the weather text has none. */
  function TemperaturePart(body: string): (r: string)
    ensures r == "-" <==> NoMatch(Temperature, body)
    ensures r != "-" ==>
      |r| >= 2 && r[|r| - 1] == '℃' && IsDigit(r[0])
      && forall k :: 0 <= k < |r| - 1 ==> IsDigit(r[k]) || r[k] == '.'
  {
    match Search(Temperature, body, 0)
    case None => "-"
    case Some(p) =>
      TemperatureGroupShape(body, p);
      var span := GroupSpan(Temperature, body, p);
      body[span.0..span.1] + "℃"
  }

  /** The temperature part is the leftmost match's group followed by ℃, or "-" when there is no match. */
  lemma TemperaturePartGroup(body: string)
    ensures TemperaturePart(body) == "-" <==> FirstGroup(Temperature, body).None?
    ensures TemperaturePart(body) != "-" ==> TemperaturePart(body) == FirstGroup(Temperature, body).value + "℃"
  {
  }

  /** A wind match's group is a run of digits followed by `m`. */
  lemma WindGroupShape(s: string, p: nat)
    requires MatchesAt(Wind, s, p)
    ensures var span := GroupSpan(Wind, s, p); var g := s[span.0..span.1];
      |g| >= 2 && g[|g| - 1] == 'm' && forall k :: 0 <= k < |g| - 1 ==> IsDigit(g[k])
  {
    var q := LazyWind(s, p + |WindLabel|).value;
    assert WindNumberAt(s, q);
    var e := RunEnd(s, q, IsDigit);
    assert forall k :: q <= k < e ==> IsDigit(s[k]);
    var g := s[q..e + 1];
    assert forall k :: 0 <= k < |g| ==> g[k] == s[q + k];
  }

  /** The wind speed such as `3m`, or "-" when the weather text has none. */
  function WindPart(body: string): (r: string)
    ensures r == "-" <==> NoMatch(Wind, body)
    ensures r != "-" ==> |r| >= 2 && r[|r| - 1] == 'm' && forall k :: 0 <= k < |r| - 1 ==> IsDigit(r[k])
  {
    match Search(Wind, body, 0)
    case None => "-"
    case Some(p) =>
      WindGroupShape(body, p);
      var span := GroupSpan(Wind, body, p);
      body[span.0..span.1]
  }

  /** The wind part is the leftmost match's group, or "-" when there is no match. */
  lemma WindPartGroup(body: string)
    ensures WindPart(body) == "-" <==> FirstGroup(Wind, body).None?
    ensures WindPart(body) != "-" ==> WindPart(body) == FirstGroup(Wind, body).value
  {
  }

  /**
   * The weather summary: 不明 without a weather block; otherwise the first
   * temperature group with ℃, ` / `, and the first wind group, each "-" when
   * its pattern finds no match.
   */
  function WeatherSummary(body: Option<string>): (r: string)
    ensures body.None? ==> r == "不明"
    ensures body.Some? ==>
      r == (if FirstGroup(Temperature, body.value).None? then "-" else FirstGroup(Temperature, body.value).value + "℃")
        + " / " + (if FirstGroup(Wind, body.value).None? then "-" else FirstGroup(Wind, body.value).value)
  {
    match body
    case None => "不明"
    case Some(b) =>
      TemperaturePartGroup(b);
      WindPartGroup(b);
      TemperaturePart(b) + " / " + WindPart(b)
  }

  /** Row `i` of an exhibition table carries an exhibition time for record `i`. */
  predicate WritesTenji(racerCount: nat, rows: seq<InfoRow>, i: nat)
  {
    i < MaxLanes && i < |rows| && i < racerCount && |rows[i].cells| >= 6 && MatchesAt(Rate, rows[i].cells[4], 0)
  }

  /** What reading the first `n` rows of an exhibition table does to the records. */
  function ExhibitionUpTo(racers: seq<Record>, rows: seq<InfoRow>, n: nat): (r: seq<Record>)
    requires n <= |rows|
    ensures |r| == |racers|
    ensures forall i :: 0 <= i < |racers| ==>
      r[i] == if i < n && WritesTenji(|racers|, rows, i) then racers[i].(tenji := rows[i].cells[4]) else racers[i]
    decreases n
  {
    if n == 0 then racers
    else
      var prev := ExhibitionUpTo(racers, rows, n - 1);
      var i := n - 1;
      if WritesTenji(|racers|, rows, i) then prev[i := prev[i].(tenji := rows[i].cells[4])] else prev
  }

  /** Writes the cell text of row `i`, when it starts with `d.dd`, into record `i` as its exhibition time, for the first six rows. */
  method ApplyExhibition(racers: seq<Record>, rows: seq<InfoRow>) returns (updated: seq<Record>)
    ensures updated == ExhibitionUpTo(racers, rows, |rows|)
  {
    updated := racers;
    for i := 0 to Min(MaxLanes, |rows|)
      invariant updated == ExhibitionUpTo(racers, rows, i)
    {
      if i < |updated| && |rows[i].cells| >= 6 {
        var tt := rows[i].cells[4];
        if MatchesAt(Rate, tt, 0) {
          updated := updated[i := updated[i].(tenji := tt)];
        }
      }
    }
    ghost var whole := ExhibitionUpTo(racers, rows, |rows|);
    assert forall i :: 0 <= i < |racers| ==> updated[i] == whole[i];
  }

  /** The lane token of a boat-colour image class: the class with `is-boatColor` deleted. */
  function CourseToken(cls: string): string
  {
    RemoveAll(cls, BoatColorPrefix)
  }

  /** `is-boatColor3` gives the lane token `3`. */
  lemma CourseTokenOfLane(lane: string)
    requires !Contains(lane, BoatColorPrefix)
    ensures CourseToken(BoatColorPrefix + lane) == lane
  {
    StripPrefix(BoatColorPrefix, lane);
  }

  /** The lane tokens of a start-exhibition table's rows, in row order. */
  function CourseTokens(rows: seq<InfoRow>): (r: seq<string>)
    ensures |r| <= |rows|
    ensures (forall k :: 0 <= k < |rows| ==> rows[k].boatClass.Some?) ==>
      |r| == |rows| && forall k :: 0 <= k < |rows| ==> r[k] == CourseToken(rows[k].boatClass.value)
    decreases |rows|
  {
    if |rows| == 0 then []
    else
      var prev := CourseTokens(rows[..|rows| - 1]);
      assert forall k :: 0 <= k < |rows| - 1 ==> rows[..|rows| - 1][k] == rows[k];
      match rows[|rows| - 1].boatClass
      case Some(c) => prev + [CourseToken(c)]
      case None => prev
  }

  /** A row with a boat-colour image gives its lane token; a row without one gives none. */
  lemma CourseTokensOne(row: InfoRow)
    ensures row.boatClass.Some? ==> CourseTokens([row]) == [CourseToken(row.boatClass.value)]
    ensures row.boatClass.None? ==> CourseTokens([row]) == []
  {
    assert [row][..0] == [];
  }

  /** The tokens of consecutive rows are the tokens of the first part followed by those of the second. */
  lemma {:induction false} CourseTokensAppend(a: seq<InfoRow>, b: seq<InfoRow>)
    ensures CourseTokens(a + b) == CourseTokens(a) + CourseTokens(b)
    decreases |b|
  {
    if |b| == 0 {
      assert a + b == a;
    } else {
      var b' := b[..|b| - 1];
      assert (a + b)[..|a + b| - 1] == a + b';
      assert (a + b)[|a + b| - 1] == b[|b| - 1];
      CourseTokensAppend(a, b');
    }
  }

  /** Appends the lane token of every row that has a boat-colour image. */
  method CollectCourse(rows: seq<InfoRow>, course: seq<string>) returns (extended: seq<string>)
    ensures extended == course + CourseTokens(rows)
  {
    extended := course;
    for i := 0 to |rows|
      invariant extended == course + CourseTokens(rows[..i])
    {
      assert rows[..i + 1][..i] == rows[..i];
      match rows[i].boatClass
      case Some(c) =>
        extended := extended + [CourseToken(c)];
      case None =>
    }
    assert rows[..|rows|] == rows;
  }

  /** The records after one table: an exhibition-time table writes exhibition times, others change nothing. */
  function TableTenji(racers: seq<Record>, table: Table): seq<Record>
  {
    if Contains(table.text, ExhibitionMarker) then ExhibitionUpTo(racers, table.rows, |table.rows|) else racers
  }

  /** The records after all tables, read in page order. */
  function TablesTenji(racers: seq<Record>, tables: seq<Table>): seq<Record>
    decreases |tables|
  {
    if |tables| == 0 then racers
    else TableTenji(TablesTenji(racers, tables[..|tables| - 1]), tables[|tables| - 1])
  }

  /** The approach-course order: the lane tokens of every start-exhibition table, in page order. */
  function TablesCourse(tables: seq<Table>): seq<string>
    decreases |tables|
  {
    if |tables| == 0 then []
    else
      var last := tables[|tables| - 1];
      TablesCourse(tables[..|tables| - 1])
      + (if Contains(last.text, StartExhibitionMarker) then CourseTokens(last.rows) else [])
  }

  /** Reads every table of the inspection page for exhibition times and the approach-course order. */
  method ReadTables(racers: seq<Record>, tables: seq<Table>) returns (updated: seq<Record>, course: seq<string>)
    ensures updated == TablesTenji(racers, tables)
    ensures course == TablesCourse(tables)
  {
    updated, course := racers, [];
    for t := 0 to |tables|
      invariant updated == TablesTenji(racers, tables[..t])
      invariant course == TablesCourse(tables[..t])
    {
      var table := tables[t];
      assert tables[..t + 1][..t] == tables[..t];
      if Contains(table.text, ExhibitionMarker) {
        updated := ApplyExhibition(updated, table.rows);
      }
      if Contains(table.text, StartExhibitionMarker) {
        course := CollectCourse(table.rows, course);
      }
    }
    assert tables[..|tables|] == tables;
  }

  /**
   * Reading the inspection tables changes no record's count and no field but
   * the exhibition time, and every exhibition time is either the one the
   * record had or a cell text starting with `d.dd`.
   */
  lemma {:induction false} TablesTenjiOnlyTenji(racers: seq<Record>, tables: seq<Table>)
    ensures var r := TablesTenji(racers, tables);
      && |r| == |racers|
      && forall i :: 0 <= i < |racers| ==>
        && r[i] == racers[i].(tenji := r[i].tenji)
        && (r[i].tenji == racers[i].tenji || MatchesAt(Rate, r[i].tenji, 0))
    decreases |tables|
  {
    if |tables| > 0 {
      TablesTenjiOnlyTenji(racers, tables[..|tables| - 1]);
    }
  }

  /** Without an exhibition-time table the records are left as they were. */
  lemma {:induction false} TablesTenjiUnchanged(racers: seq<Record>, tables: seq<Table>)
    requires forall t :: 0 <= t < |tables| ==> !Contains(tables[t].text, ExhibitionMarker)
    ensures TablesTenji(racers, tables) == racers
    decreases |tables|
  {
    if |tables| > 0 {
      TablesTenjiUnchanged(racers, tables[..|tables| - 1]);
    }
  }
}
