/**
 * `get_full_race_data`: the race-card records, then the inspection page
 * folded into them. A failed fetch comes in as `None`.
 */
module Extractor {
  import opened Options
  import opened Patterns
  import opened RaceCard
  import opened Inspection

  /** The four values the extractor returns: records, weather summary, course order, stabilizer. */
  datatype RaceData = RaceData(racers: Option<seq<Record>>, weather: string, courses: seq<string>, stab: string)

  /**
   * Extracts a race. `card` is the list of race-card rows, `None` when that
   * fetch failed; `info` is the inspection page, `None` when that fetch
   * failed, which degrades only the weather, the course and the stabilizer.
   */
  method GetFullRaceData(card: Option<seq<Row>>, info: Option<InfoPage>) returns (d: RaceData)
    ensures card.None? ==> d == RaceData(None, "エラー", [], "-")
    ensures card == Some([]) ==> d == RaceData(None, "データなし", [], "-")
    ensures card.Some? && card.value != [] && info.None? ==>
      d == RaceData(Some(CardRecords(card.value)), "-", [], "-")
    ensures card.Some? && card.value != [] && info.Some? ==>
      d == RaceData(
        Some(TablesTenji(CardRecords(card.value), info.value.tables)),
        WeatherSummary(info.value.weatherBody),
        TablesCourse(info.value.tables),
        Stabilizer(info.value))
  {
    if card.None? {
      return RaceData(None, "エラー", [], "-");
    }
    var rows := card.value;
    if rows == [] {
      return RaceData(None, "データなし", [], "-");
    }
    var racers := ExtractRecords(rows);
    var weather, course, stab;
    match info {
      case None =>
        weather, course, stab := "-", [], "-";
      case Some(page) =>
        stab := Stabilizer(page);
        weather := WeatherSummary(page.weatherBody);
        racers, course := ReadTables(racers, page.tables);
    }
    d := RaceData(Some(racers), weather, course, stab);
  }

  /**
   * The records of a successful extraction: one per row of the first six, in
   * row order, record `i` in lane `i + 1`; every field but the exhibition time
   * is what the race-card row gave, and the exhibition time is `-` or a cell
   * text starting with `d.dd`; an absent or short row keeps every performance
   * field at `-`.
   */
  lemma {:induction false} ExtractedRecords(rows: seq<Row>, tables: seq<Table>)
    ensures var r := TablesTenji(CardRecords(rows), tables);
      && |r| == Min(MaxLanes, |rows|)
      && forall i :: 0 <= i < |r| ==>
        && r[i] == RecordOf(i, rows[i]).(tenji := r[i].tenji)
        && r[i].no == i + 1
        && (r[i].tenji == Sentinel || MatchesAt(Rate, r[i].tenji, 0))
        && (r[i].isAbsent || |rows[i].cells| < 7 ==>
             r[i].weight == Sentinel && r[i].nationRate == Sentinel && r[i].localRate == Sentinel
             && r[i].motorRate == Sentinel && r[i].st == Sentinel)
  {
    var base := CardRecords(rows);
    TablesTenjiOnlyTenji(base, tables);
    var r := TablesTenji(base, tables);
    forall i | 0 <= i < |r|
      ensures r[i] == RecordOf(i, rows[i]).(tenji := r[i].tenji) && r[i].no == i + 1
      ensures r[i].tenji == Sentinel || MatchesAt(Rate, r[i].tenji, 0)
      ensures r[i].isAbsent || |rows[i].cells| < 7 ==>
        r[i].weight == Sentinel && r[i].nationRate == Sentinel && r[i].localRate == Sentinel
        && r[i].motorRate == Sentinel && r[i].st == Sentinel
    {
      RecordAt(rows, |base|, i);
      RecordFields(i, rows[i]);
    }
  }
}
