/**
 * The text the button handler hands to the completion service: one table
 * line per competitor who starts, and the approach-course order.
 */
module Prompt {
  import opened Options
  import opened Strings
  import opened RaceCard
  import opened Inspection
  import opened Extractor

  /** One table line without its line break: `|lane|name|grade|全rate|当rate|機motor|Sst|`. */
  function LineBody(r: Record): string
  {
    "|" + NatToString(r.no) + "|" + r.name + "|" + GradeText(r.grade)
    + "|全" + r.nationRate + "|当" + r.localRate + "|機" + r.motorRate + "|S" + r.st + "|"
  }

  /** The table text after the loop has visited `racers`: absent competitors add nothing. */
  function TableText(racers: seq<Record>): string
    decreases |racers|
  {
    if |racers| == 0 then ""
    else
      var r := racers[|racers| - 1];
      TableText(racers[..|racers| - 1]) + (if r.isAbsent then "" else LineBody(r) + "\n")
  }

  /** Accumulates one line per competitor who starts, in record order. */
  method BuildTable(racers: seq<Record>) returns (table: string)
    ensures table == TableText(racers)
  {
    table := "";
    for i := 0 to |racers|
      invariant table == TableText(racers[..i])
    {
      assert racers[..i + 1][..i] == racers[..i];
      if !racers[i].isAbsent {
        table := table + LineBody(racers[i]) + "\n";
      }
    }
    assert racers[..|racers|] == racers;
  }

  /** The competitors who start, in record order. */
  function Present(racers: seq<Record>): (p: seq<Record>)
    ensures |p| <= |racers|
    ensures forall r :: r in p <==> r in racers && !r.isAbsent
    decreases |racers|
  {
    if |racers| == 0 then []
    else
      var r := racers[|racers| - 1];
      var prev := Present(racers[..|racers| - 1]);
      assert racers == racers[..|racers| - 1] + [r];
      if r.isAbsent then prev else prev + [r]
  }

  /** No text field of the record holds a line break. */
  predicate SingleLine(r: Record)
  {
    '\n' !in r.name && '\n' !in r.nationRate && '\n' !in r.localRate && '\n' !in r.motorRate && '\n' !in r.st
  }

  lemma LineBodySingleLine(r: Record)
    requires SingleLine(r)
    ensures '\n' !in LineBody(r)
  {
    var lane := NatToString(r.no);
    assert forall k :: 0 <= k < |lane| ==> lane[k] != '\n';
  }

  /** Each record's line body, in order. */
  function Bodies(rs: seq<Record>): (b: seq<string>)
    ensures |b| == |rs| && forall k :: 0 <= k < |rs| ==> b[k] == LineBody(rs[k])
    decreases |rs|
  {
    if |rs| == 0 then [] else [LineBody(rs[0])] + Bodies(rs[1..])
  }

  /** Appending a record appends its line body. */
  lemma BodiesSnoc(rs: seq<Record>, r: Record)
    ensures Bodies(rs + [r]) == Bodies(rs) + [LineBody(r)]
  {
    var b := Bodies(rs + [r]);
    forall k | 0 <= k < |rs| + 1
      ensures b[k] == (Bodies(rs) + [LineBody(r)])[k]
    {
      if k < |rs| {
        assert (rs + [r])[k] == rs[k];
      }
    }
  }

  /** The table text holds exactly the lines of the competitors who start, each ended by a line break. */
  lemma {:induction false} TableTextIsLines(racers: seq<Record>)
    ensures TableText(racers) == Terminated(Bodies(Present(racers)), '\n')
    decreases |racers|
  {
    if |racers| > 0 {
      var pre := racers[..|racers| - 1];
      var r := racers[|racers| - 1];
      var p := Present(pre);
      TableTextIsLines(pre);
      if r.isAbsent {
        assert Present(racers) == p;
        assert TableText(racers) == TableText(pre) + "";
      } else {
        assert Present(racers) == p + [r];
        assert TableText(racers) == TableText(pre) + (LineBody(r) + "\n");
        BodiesSnoc(p, r);
        TerminatedSnoc(Bodies(p), LineBody(r), '\n');
      }
    }
  }

  /**
   * The table has one line per competitor who starts, in record order, and
   * nothing else: split at line breaks it gives those lines and an empty rest.
   */
  lemma TableLines(racers: seq<Record>)
    requires forall r :: r in racers && !r.isAbsent ==> SingleLine(r)
    ensures Split(TableText(racers), '\n') == Bodies(Present(racers)) + [""]
  {
    var p := Present(racers);
    TableTextIsLines(racers);
    forall k | 0 <= k < |p|
      ensures '\n' !in Bodies(p)[k]
    {
      assert p[k] in p;
      LineBodySingleLine(p[k]);
    }
    SplitTerminated(Bodies(p), '\n');
  }

  /** The records' lanes strictly increase. */
  predicate LanesIncreasing(rs: seq<Record>)
  {
    forall i, j :: 0 <= i < j < |rs| ==> rs[i].no < rs[j].no
  }

  /** Keeping only the competitors who start keeps the lanes in increasing order. */
  lemma {:induction false} PresentInLaneOrder(racers: seq<Record>)
    requires LanesIncreasing(racers)
    ensures LanesIncreasing(Present(racers))
    decreases |racers|
  {
    if |racers| > 0 {
      var last := racers[|racers| - 1];
      var pre := racers[..|racers| - 1];
      assert forall m :: 0 <= m < |pre| ==> pre[m] == racers[m];
      PresentInLaneOrder(pre);
      var p := Present(pre);
      forall i | 0 <= i < |p| ensures p[i].no < last.no {
        assert p[i] in pre;
        var m :| 0 <= m < |pre| && pre[m] == p[i];
        assert racers[m].no < last.no;
      }
      if !last.isAbsent {
        var q := p + [last];
        assert Present(racers) == q;
        forall i, j | 0 <= i < j < |q| ensures q[i].no < q[j].no {
          assert q[i] == p[i];
          if j < |p| {
            assert q[j] == p[j];
          } else {
            assert q[j] == last;
          }
        }
      } else {
        assert Present(racers) == p;
      }
    }
  }

  /** The table lines of an extracted race come in lane order, lanes 1 to 6. */
  lemma ExtractedTableInLaneOrder(rows: seq<Row>, tables: seq<Table>)
    ensures LanesIncreasing(Present(TablesTenji(CardRecords(rows), tables)))
    ensures forall r :: r in Present(TablesTenji(CardRecords(rows), tables)) ==> 1 <= r.no <= MaxLanes
  {
    ExtractedRecords(rows, tables);
    PresentInLaneOrder(TablesTenji(CardRecords(rows), tables));
  }

  /** The approach-course text: the lane tokens joined by →, or 枠なり when there are none. */
  function CourseText(courses: seq<string>): string
  {
    if courses == [] then "枠なり" else Join(courses, "→")
  }

  /**
   * Without lane tokens the course text is 枠なり; with them it splits at →
   * back into exactly those tokens, in order.
   */
  lemma CourseTextTokens(courses: seq<string>)
    requires forall k :: 0 <= k < |courses| ==> '→' !in courses[k]
    ensures courses == [] ==> CourseText(courses) == "枠なり"
    ensures courses != [] ==> Split(CourseText(courses), '→') == courses
  {
    if courses != [] {
      SplitJoin(courses, '→');
    }
  }

  /**
   * What the button handler builds before calling the completion service:
   * `None` ("データがありません") when there are no records, else the course
   * text and the table text.
   */
  method PrepareRace(racers: Option<seq<Record>>, courses: seq<string>) returns (r: Option<(string, string)>)
    ensures r.None? <==> racers.None? || racers.value == []
    ensures r.Some? ==> r.value == (CourseText(courses), TableText(racers.value))
  {
    if racers.None? || racers.value == [] {
      return None;
    }
    var courseText := CourseText(courses);
    var table := BuildTable(racers.value);
    r := Some((courseText, table));
  }
}
