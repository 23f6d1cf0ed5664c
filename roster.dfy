/** Extraction of the participants of one roster page
    (src/app/api/search/route.ts, lines 164-215).

    The HTML library is not modelled: a page is given as what the scan queries
    from it, namely the table with the class `GridStyle` (if there is one), all
    tables of the page in document order, and, for each title selector, the raw
    text that selector picks out in the second row of the first table. A table
    is its rows, and a row is the raw texts of its `td` cells. */
module Roster {
  import opened Wrappers
  import opened Types
  import Text

  /** The texts of the `td` cells of one table row, in order, untrimmed. */
  type Row = seq<string>

  datatype Table = Table(rows: seq<Row>)

  datatype Page = Page(
    gridStyle: Option<Table>,
    tables: seq<Table>,
    titleTexts: map<string, string>)

  /** The selectors tried for the course title, in order. */
  const TITLE_SELECTORS: seq<string> :=
    ["td.PageTitle", "td[class=\"PageTitle\"]", "td[align=\"left\"]"]

  // ---------------------------------------------------------------------------
  // Table choice
  // ---------------------------------------------------------------------------

  /** The roster table: the `GridStyle` table, else the second table of the
      page, else none. */
  function SelectTable(page: Page): (t: Option<Table>)
    ensures page.gridStyle.Some? ==> t == page.gridStyle
    ensures page.gridStyle.None? && |page.tables| >= 2 ==> t == Some(page.tables[1])
    ensures t.None? <==> page.gridStyle.None? && |page.tables| < 2
  {
    if page.gridStyle.Some? then page.gridStyle
    else if |page.tables| >= 2 then Some(page.tables[1])
    else None
  }

  // ---------------------------------------------------------------------------
  // Course title
  // ---------------------------------------------------------------------------

  /** The trimmed text a title selector yields; a selector that matches
      nothing yields the empty text. */
  function SelectorText(page: Page, selector: string): (t: string)
    ensures selector !in page.titleTexts ==> t == ""
    ensures t != "" ==> !Text.IsSpace(t[0]) && !Text.IsSpace(t[|t| - 1])
  {
    if selector in page.titleTexts then
      Text.TrimSpec(page.titleTexts[selector]);
      Text.Trim(page.titleTexts[selector])
    else ""
  }

  /** Position of the first selector whose text is not empty, or the number of
      selectors when there is none. */
  function FirstTitleIndex(page: Page, from: nat): (k: nat)
    requires from <= |TITLE_SELECTORS|
    ensures from <= k <= |TITLE_SELECTORS|
    decreases |TITLE_SELECTORS| - from
  {
    if from == |TITLE_SELECTORS| then from
    else if SelectorText(page, TITLE_SELECTORS[from]) != "" then from
    else FirstTitleIndex(page, from + 1)
  }

  /** The selectors before the one found yield nothing, and the one found
      yields text. */
  lemma {:induction false} FirstTitleIndexSpec(page: Page, from: nat)
    requires from <= |TITLE_SELECTORS|
    ensures forall j :: from <= j < FirstTitleIndex(page, from) ==> SelectorText(page, TITLE_SELECTORS[j]) == ""
    ensures FirstTitleIndex(page, from) < |TITLE_SELECTORS| ==>
              SelectorText(page, TITLE_SELECTORS[FirstTitleIndex(page, from)]) != ""
    decreases |TITLE_SELECTORS| - from
  {
    if from < |TITLE_SELECTORS| && SelectorText(page, TITLE_SELECTORS[from]) == "" {
      FirstTitleIndexSpec(page, from + 1);
    }
  }

  /** The course title of a page: the first non-empty selector text, otherwise
      `mkId + "-" + mkKelas`. */
  function CourseTitle(page: Page, mkId: string, mkKelas: string): (title: string)
    ensures title != ""
  {
    FirstTitleIndexSpec(page, 0);
    var k := FirstTitleIndex(page, 0);
    if k < |TITLE_SELECTORS| then SelectorText(page, TITLE_SELECTORS[k])
    else mkId + "-" + mkKelas
  }

  /** The title is the text of the first selector that yields any, and the
      course code and section when none does. */
  lemma CourseTitleSpec(page: Page, mkId: string, mkKelas: string)
    ensures forall k :: 0 <= k < |TITLE_SELECTORS| &&
                        SelectorText(page, TITLE_SELECTORS[k]) != "" &&
                        (forall j :: 0 <= j < k ==> SelectorText(page, TITLE_SELECTORS[j]) == "")
                    ==> CourseTitle(page, mkId, mkKelas) == SelectorText(page, TITLE_SELECTORS[k])
    ensures (forall k :: 0 <= k < |TITLE_SELECTORS| ==> SelectorText(page, TITLE_SELECTORS[k]) == "")
            ==> CourseTitle(page, mkId, mkKelas) == mkId + "-" + mkKelas
  {
    FirstTitleIndexSpec(page, 0);
  }

  /** The title lookup as the source runs it: try the selectors in order and
      stop at the first that yields text, then fall back to the course code and
      section. */
  method FindCourseTitle(page: Page, mkId: string, mkKelas: string) returns (courseName: string)
    ensures courseName == CourseTitle(page, mkId, mkKelas)
  {
    courseName := "";
    for i := 0 to |TITLE_SELECTORS|
      invariant courseName == ""
      invariant forall j :: 0 <= j < i ==> SelectorText(page, TITLE_SELECTORS[j]) == ""
    {
      courseName := SelectorText(page, TITLE_SELECTORS[i]);
      if courseName != "" {
        break;
      }
    }
    if courseName == "" {
      courseName := mkId + "-" + mkKelas;
    }
    CourseTitleSpec(page, mkId, mkKelas);
  }

  // ---------------------------------------------------------------------------
  // Rows
  // ---------------------------------------------------------------------------

  /** A row the parser keeps: at least three cells, and the second (student
      number) and third (name) are not empty once trimmed. */
  predicate IsDataRow(row: Row) {
    |row| >= 3 && Text.Trim(row[1]) != "" && Text.Trim(row[2]) != ""
  }

  /** The participant a kept row stands for. */
  function RowParticipant(row: Row, courseName: string): (p: Participant)
    requires |row| >= 3
    ensures p.courseName == courseName
    ensures IsDataRow(row) ==> p.nrp != "" && p.name != ""
  {
    Participant(Text.Trim(row[1]), Text.Trim(row[2]), courseName)
  }

  /** The student number and name of a participant carry no surrounding white
      space. */
  lemma RowParticipantTrimmed(row: Row, courseName: string)
    requires |row| >= 3
    ensures var p := RowParticipant(row, courseName);
            && (p.nrp != "" ==> !Text.IsSpace(p.nrp[0]) && !Text.IsSpace(p.nrp[|p.nrp| - 1]))
            && (p.name != "" ==> !Text.IsSpace(p.name[0]) && !Text.IsSpace(p.name[|p.name| - 1]))
  {
    Text.TrimSpec(row[1]);
    Text.TrimSpec(row[2]);
  }

  /** The participants of a sequence of rows: the kept rows, in order. */
  function ParseRows(rows: seq<Row>, courseName: string): (ps: seq<Participant>)
    ensures |ps| <= |rows|
  {
    if |rows| == 0 then []
    else
      (if IsDataRow(rows[0]) then [RowParticipant(rows[0], courseName)] else [])
      + ParseRows(rows[1..], courseName)
  }

  /** Every participant carries the page's course title and a non-empty
      student number and name. */
  lemma {:induction false} ParseRowsFields(rows: seq<Row>, courseName: string)
    ensures forall p :: p in ParseRows(rows, courseName) ==> p.courseName == courseName && p.nrp != "" && p.name != ""
  {
    if |rows| > 0 {
      ParseRowsFields(rows[1..], courseName);
    }
  }

  /** The participants of a roster table: its rows after the header row. */
  function ExtractParticipants(table: Table, courseName: string): (ps: seq<Participant>)
    ensures |table.rows| > 0 ==> |ps| <= |table.rows| - 1
    ensures |table.rows| <= 1 ==> ps == []
  {
    ParseRows(if |table.rows| == 0 then [] else table.rows[1..], courseName)
  }

  /** The first row is never read: whatever it holds, it contributes nothing. */
  lemma HeaderIgnored(header: Row, rows: seq<Row>, courseName: string)
    ensures ExtractParticipants(Table([header] + rows), courseName) == ParseRows(rows, courseName)
  {
    assert ([header] + rows)[1..] == rows;
  }

  /** Parsing distributes over concatenation: each row is parsed on its own and
      the order of rows is kept. */
  lemma {:induction false} ParseRowsAppend(a: seq<Row>, b: seq<Row>, courseName: string)
    ensures ParseRows(a + b, courseName) == ParseRows(a, courseName) + ParseRows(b, courseName)
  {
    if |a| == 0 {
      assert a + b == b;
    } else {
      assert (a + b)[0] == a[0];
      assert (a + b)[1..] == a[1..] + b;
      ParseRowsAppend(a[1..], b, courseName);
    }
  }

  /** A malformed row is dropped without affecting the rows around it. */
  lemma MalformedRowDropped(before: seq<Row>, bad: Row, after: seq<Row>, courseName: string)
    requires !IsDataRow(bad)
    ensures ParseRows(before + [bad] + after, courseName) == ParseRows(before + after, courseName)
  {
    ParseRowsAppend(before + [bad], after, courseName);
    ParseRowsAppend(before, [bad], courseName);
    ParseRowsAppend(before, after, courseName);
    assert ParseRows([bad], courseName) == [] by {
      assert [bad][1..] == [];
    }
  }

  /** A participant is produced exactly when some kept row stands for it. */
  lemma ParseRowsMembership(rows: seq<Row>, courseName: string, p: Participant)
    ensures p in ParseRows(rows, courseName) <==>
            exists i :: 0 <= i < |rows| && IsDataRow(rows[i]) && p == RowParticipant(rows[i], courseName)
  {
    if p in ParseRows(rows, courseName) {
      ParseRowsSound(rows, courseName, p);
    }
    if exists i :: 0 <= i < |rows| && IsDataRow(rows[i]) && p == RowParticipant(rows[i], courseName) {
      var i :| 0 <= i < |rows| && IsDataRow(rows[i]) && p == RowParticipant(rows[i], courseName);
      ParseRowsComplete(rows, courseName, i);
    }
  }

  /** Every participant produced comes from a kept row. */
  lemma {:induction false} ParseRowsSound(rows: seq<Row>, courseName: string, p: Participant)
    requires p in ParseRows(rows, courseName)
    ensures exists i :: 0 <= i < |rows| && IsDataRow(rows[i]) && p == RowParticipant(rows[i], courseName)
  {
    if IsDataRow(rows[0]) && p == RowParticipant(rows[0], courseName) {
    } else {
      ParseRowsSound(rows[1..], courseName, p);
      var i :| 0 <= i < |rows[1..]| && IsDataRow(rows[1..][i]) && p == RowParticipant(rows[1..][i], courseName);
      assert rows[i + 1] == rows[1..][i];
    }
  }

  /** Every kept row produces its participant. */
  lemma {:induction false} ParseRowsComplete(rows: seq<Row>, courseName: string, i: nat)
    requires i < |rows| && IsDataRow(rows[i])
    ensures RowParticipant(rows[i], courseName) in ParseRows(rows, courseName)
  {
    if i > 0 {
      assert rows[1..][i - 1] == rows[i];
      ParseRowsComplete(rows[1..], courseName, i - 1);
    }
  }

  /** When every row is well formed, every row yields its participant, in
      order. */
  lemma {:induction false} ParseRowsWellFormed(rows: seq<Row>, courseName: string)
    requires forall i :: 0 <= i < |rows| ==> IsDataRow(rows[i])
    ensures |ParseRows(rows, courseName)| == |rows|
    ensures forall i :: 0 <= i < |rows| && IsDataRow(rows[i]) ==>
              ParseRows(rows, courseName)[i] == RowParticipant(rows[i], courseName)
  {
    if |rows| > 0 {
      assert forall i :: 0 <= i < |rows[1..]| ==> rows[1..][i] == rows[i + 1];
      ParseRowsWellFormed(rows[1..], courseName);
    }
  }
}
