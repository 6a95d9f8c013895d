/** The row walker: the Rikishi record as an object whose fields are written
    in place, the walk over the data table's rows, and its specification. */
module Rows {
  import opened Wrappers
  import opened Errors
  import opened Dates
  import opened Text
  import opened Html
  import opened Fields

  /** The record the walker fills, field by field. */
  class Rikishi {
    var sumoDbId: int
    var highestRank: string
    var realName: string
    var birthDate: Date
    var origin: string
    var height: int
    var weight: int
    var university: string
    var heya: string
    var shikona: string
    var firstBasho: string

    /** A zero-valued record. */
    constructor ()
      ensures Value() == EmptyProfile
    {
      sumoDbId, highestRank, realName, birthDate, origin := 0, "", "", ZeroDate, "";
      height, weight, university, heya, shikona, firstBasho := 0, 0, "", "", "", "";
    }

    function Value(): Profile
      reads this
    {
      Profile(sumoDbId, highestRank, realName, birthDate, origin, height, weight,
              university, heya, shikona, firstBasho)
    }
  }

  /** What one row yields: nothing, or its label and value texts. */
  datatype RowText = Skipped | Cells(key: string, value: string)

  /** A row with a first child must have a second one: the walker takes the
      second child's next sibling without checking it. */
  predicate RowReadable(row: Node)
  {
    row.children == [] || |row.children| >= 2
  }

  /** The label is the first child of the row's second child and the value
      the first child of its third child. A row without children, or whose
      label or value cell has no first child, is skipped; a row without a
      third child has the value "". */
  function ReadRow(row: Node): RowText
    requires RowReadable(row)
  {
    if row.children == [] then Skipped
    else if row.children[1].children == [] then Skipped
    else if |row.children| >= 3 && row.children[2].children == [] then Skipped
    else Cells(row.children[1].children[0].data,
               if |row.children| >= 3 then row.children[2].children[0].data else "")
  }

  /** The end of a walk: the record as the walk left it and the error that
      stopped it, or a panic on an unreadable row. */
  datatype Outcome = Done(profile: Profile, err: Option<Error>) | Panic

  /** The rows applied in order; the first failing row stops the walk. */
  function Walk(rows: seq<Node>, p: Profile, slug: string -> string): Outcome
    decreases |rows|
  {
    if rows == [] then Done(p, None)
    else if !RowReadable(rows[0]) then Panic
    else
      match ReadRow(rows[0])
      case Skipped => Walk(rows[1..], p, slug)
      case Cells(k, v) =>
        match ApplyField(p, k, v, slug)
        case Failure(e) => Done(p, Some(e))
        case Success(q) => Walk(rows[1..], q, slug)
  }

  /** The body the walker reads: the table's last child. */
  function Body(table: Node): Node
    requires table.children != []
  {
    table.children[|table.children| - 1]
  }

  /** The rows of a table: the children of its body. */
  function TableRows(table: Node): seq<Node>
    requires table.children != []
  {
    Body(table).children
  }

  /** The source's demands on the table it is given: it has a last child,
      and no row the walk reaches is unreadable. */
  predicate TableReadable(table: Node, p: Profile, slug: string -> string)
  {
    table.children != [] && !Walk(TableRows(table), p, slug).Panic?
  }

  /** parseRikishiDataTable: walks the rows along the body's children,
      skipping rows without text, and writes each recognised field of r in
      place; the first failing row returns its error, leaving r as the rows
      before it made it. */
  method ParseRikishiDataTable(table: Option<Node>, r: Rikishi, slug: string -> string) returns (err: Option<Error>)
    requires table.Some? ==> TableReadable(table.value, r.Value(), slug)
    modifies r
    ensures table.None? ==> err == Some(TableNotFound) && r.Value() == old(r.Value())
    ensures table.Some? ==> Walk(TableRows(table.value), old(r.Value()), slug) == Done(r.Value(), err)
  {
    if table.None? {
      return Some(TableNotFound);
    }
    var tbody := Body(table.value);
    var rows := tbody.children;
    ghost var start := r.Value();
    for i := 0 to |rows|
      invariant Walk(rows, start, slug) == Walk(rows[i..], r.Value(), slug)
    {
      var row := rows[i];
      assert rows[i..][0] == row && rows[i..][1..] == rows[i + 1..];
      if row.children != [] {
        var keyText, valText := "", "";
        var tdKey := row.children[1];
        if tdKey.children != [] {
          keyText := tdKey.children[0].data;
        } else {
          continue;
        }
        if |row.children| >= 3 {
          var tdVal := row.children[2];
          if tdVal.children != [] {
            valText := tdVal.children[0].data;
          } else {
            continue;
          }
        }
        var e := SetField(r, keyText, valText, slug);
        if e.Some? {
          return e;
        }
      }
    }
    return None;
  }

  /** The switch on the label of one row: the row's rule gives the update
      (or the row's error, and then nothing is written), and the update's
      fields are assigned in place. */
  method SetField(r: Rikishi, keyText: string, valText: string, slug: string -> string) returns (err: Option<Error>)
    modifies r
    ensures ApplyField(old(r.Value()), keyText, valText, slug)
         == if err.None? then Success(r.Value()) else Failure(err.value)
    ensures err.Some? ==> r.Value() == old(r.Value())
  {
    var u := Extract(keyText, valText, slug);
    if u.Failure? {
      return Some(u.error);
    }
    match u.value {
      case NoOp =>
      case SetHighestRank(s) => r.highestRank := s;
      case SetRealName(s) => r.realName := s;
      case SetBirthDate(d) => r.birthDate := d;
      case SetOrigin(s) => r.origin := s;
      case SetHeightWeight(h, w) => r.height, r.weight := h, w;
      case SetUniversity(s) => r.university := s;
      case SetHeya(s) => r.heya := s;
      case SetShikona(s) => r.shikona := s;
      case SetFirstBasho(s) => r.firstBasho := s;
    }
    return None;
  }

  // ----- properties of the walk -----

  /** Walking two runs of rows is walking the first and, unless it stopped,
      the second from where the first left the record. */
  lemma {:induction false} WalkAppend(a: seq<Node>, b: seq<Node>, p: Profile, slug: string -> string)
    ensures Walk(a + b, p, slug)
         == if Walk(a, p, slug).Panic? || Walk(a, p, slug).err.Some? then Walk(a, p, slug)
            else Walk(b, Walk(a, p, slug).profile, slug)
    decreases |a|
  {
    if a == [] {
      assert a + b == b;
    } else {
      assert (a + b)[0] == a[0] && (a + b)[1..] == a[1..] + b;
      if RowReadable(a[0]) {
        match ReadRow(a[0])
        case Skipped =>
          WalkAppend(a[1..], b, p, slug);
        case Cells(k, v) =>
          if ApplyField(p, k, v, slug).Success? {
            WalkAppend(a[1..], b, ApplyField(p, k, v, slug).value, slug);
          }
      }
    }
  }

  /** Once a row fails, later rows are never looked at. */
  lemma AbortIgnoresLaterRows(rows: seq<Node>, later: seq<Node>, p: Profile, slug: string -> string)
    requires Walk(rows, p, slug).Done? && Walk(rows, p, slug).err.Some?
    ensures Walk(rows + later, p, slug) == Walk(rows, p, slug)
  {
    WalkAppend(rows, later, p, slug);
  }

  /** A row without children, or whose label or value cell has no first
      child, is passed over: no error, and no field changes. */
  lemma SkippedRowChangesNothing(row: Node, rest: seq<Node>, p: Profile, slug: string -> string)
    requires || row.children == []
             || (|row.children| >= 2 && row.children[1].children == [])
             || (|row.children| >= 3 && row.children[1].children != [] && row.children[2].children == [])
    ensures Walk([row] + rest, p, slug) == Walk(rest, p, slug)
  {
    assert ([row] + rest)[0] == row && ([row] + rest)[1..] == rest;
  }

  /** A row with a label but no third cell is still dispatched, with the
      empty string as its value. */
  lemma MissingValueCellIsEmpty(row: Node, rest: seq<Node>, p: Profile, slug: string -> string)
    requires |row.children| == 2 && row.children[1].children != []
    ensures Walk([row] + rest, p, slug)
         == if ApplyField(p, row.children[1].children[0].data, "", slug).Failure?
            then Done(p, Some(ApplyField(p, row.children[1].children[0].data, "", slug).error))
            else Walk(rest, ApplyField(p, row.children[1].children[0].data, "", slug).value, slug)
  {
    assert ([row] + rest)[0] == row && ([row] + rest)[1..] == rest;
  }

  /** The walk never touches the record's id. */
  lemma {:induction false} WalkKeepsId(rows: seq<Node>, p: Profile, slug: string -> string)
    requires Walk(rows, p, slug).Done?
    ensures Walk(rows, p, slug).profile.sumoDbId == p.sumoDbId
    decreases |rows|
  {
    if rows != [] && RowReadable(rows[0]) {
      match ReadRow(rows[0])
      case Skipped =>
        WalkKeepsId(rows[1..], p, slug);
      case Cells(k, v) =>
        if ApplyField(p, k, v, slug).Success? {
          WalkKeepsId(rows[1..], ApplyField(p, k, v, slug).value, slug);
        }
    }
  }

  /** Two neighbouring rows with different labels, both accepted by their
      rules, can be swapped without changing the outcome. */
  lemma SwapDistinctRows(before: seq<Node>, r1: Node, r2: Node, after: seq<Node>, p: Profile, slug: string -> string)
    requires RowReadable(r1) && RowReadable(r2)
    requires ReadRow(r1).Cells? && ReadRow(r2).Cells? && ReadRow(r1).key != ReadRow(r2).key
    requires Extract(ReadRow(r1).key, ReadRow(r1).value, slug).Success?
    requires Extract(ReadRow(r2).key, ReadRow(r2).value, slug).Success?
    ensures Walk(before + [r1, r2] + after, p, slug) == Walk(before + [r2, r1] + after, p, slug)
  {
    var k1, v1, k2, v2 := ReadRow(r1).key, ReadRow(r1).value, ReadRow(r2).key, ReadRow(r2).value;
    assert before + [r1, r2] + after == before + ([r1, r2] + after);
    assert before + [r2, r1] + after == before + ([r2, r1] + after);
    WalkAppend(before, [r1, r2] + after, p, slug);
    WalkAppend(before, [r2, r1] + after, p, slug);
    if Walk(before, p, slug).Done? && Walk(before, p, slug).err.None? {
      var q := Walk(before, p, slug).profile;
      assert ([r1, r2] + after)[0] == r1 && ([r1, r2] + after)[1..] == [r2] + after;
      assert ([r2, r1] + after)[0] == r2 && ([r2, r1] + after)[1..] == [r1] + after;
      assert ([r2] + after)[0] == r2 && ([r2] + after)[1..] == after;
      assert ([r1] + after)[0] == r1 && ([r1] + after)[1..] == after;
      FailureIgnoresRecord(q, ApplyField(q, k1, v1, slug).value, k2, v2, slug);
      FailureIgnoresRecord(q, ApplyField(q, k2, v2, slug).value, k1, v1, slug);
      DistinctLabelsCommute(q, k1, v1, k2, v2, slug);
    }
  }

  // ----- rows written out -----

  /** A table row of three cells: an empty first cell, the label, the value. */
  function DataRow(key: string, value: string): Node
  {
    Node(ElementNode, "tr", [], [
      Node(ElementNode, "td", [], []),
      Node(ElementNode, "td", [], [Node(TextNode, key, [], [])]),
      Node(ElementNode, "td", [], [Node(TextNode, value, [], [])])])
  }

  lemma ReadDataRow(key: string, value: string)
    ensures RowReadable(DataRow(key, value)) && ReadRow(DataRow(key, value)) == Cells(key, value)
  {
  }

  /** A single Height and Weight row sets 180 and 120. */
  lemma HeightWeightRowExample(v: string, slug: string -> string)
    requires v == "180 cm 120 kg"
    ensures Walk([DataRow("Height and Weight", v)], EmptyProfile, slug)
         == Done(EmptyProfile.(height := 180, weight := 120), None)
  {
    var row := DataRow("Height and Weight", v);
    ReadDataRow("Height and Weight", v);
    HeightWeightField(EmptyProfile, v, slug);
    HeightWeightExample(v);
    assert [row][1..] == [];
  }

  /** Without the spaces the same row fails with a pattern mismatch and the
      record is kept as it was. */
  lemma HeightWeightRowMismatch(u: string, slug: string -> string)
    requires u == "180cm120kg"
    ensures Walk([DataRow("Height and Weight", u)], EmptyProfile, slug)
         == Done(EmptyProfile, Some(HeightWeightMismatch))
  {
    ReadDataRow("Height and Weight", u);
    HeightWeightField(EmptyProfile, u, slug);
    HeightWeightNoSpaces(u);
  }

  /** An unknown label neither fails nor changes the record. */
  lemma UnknownRowExample(p: Profile, slug: string -> string)
    ensures Walk([DataRow("Nickname", "Wakachan")], p, slug) == Done(p, None)
  {
    ReadDataRow("Nickname", "Wakachan");
    UnknownLabelIsNoOp(p, "Nickname", "Wakachan", slug);
  }
}
