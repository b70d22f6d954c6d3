/**
The row and cell syntax of the roadmap checker: physical lines are joined into logical table
rows, and a row is split into cells at the pipes that no backslash precedes.
*/
module RoadmapRows {
  import opened Text

  // ----- logical rows

  datatype Row = Row(start: nat, end: nat)

  predicate Leads(line: string) {
    HasPrefix(line, "|")
  }

  predicate Continues(line: string) {
    Trim(line) != "" && !Leads(line)
  }

  datatype LineKind = Lead | More | Blank

  function LineKindOf(line: string): LineKind {
    if Leads(line) then Lead else if Continues(line) then More else Blank
  }

  /** All that the rows depend on: a blank line that does not lead is Blank. */
  function LineKinds(lines: seq<string>): seq<LineKind> {
    seq(|lines|, i requires 0 <= i < |lines| => LineKindOf(lines[i]))
  }

  /** A line leads when its first character is a pipe, and is blank when it is white space only. */
  lemma LineKindMeans(line: string)
    ensures LineKindOf(line) == Lead <==> line != "" && line[0] == '|'
    ensures LineKindOf(line) == Blank <==> forall i | 0 <= i < |line| :: IsSpace(line[i])
  {
    BlankExactly(line);
  }

  function RowEnd(ls: seq<LineKind>, j: nat): (e: nat)
    requires j < |ls|
    ensures j <= e < |ls| && (forall k | j < k <= e :: ls[k] == More)
    ensures e + 1 < |ls| ==> ls[e + 1] != More
    decreases |ls| - j
  {
    if j + 1 < |ls| && ls[j + 1] == More then RowEnd(ls, j + 1) else j
  }

  function RowsFrom(ls: seq<LineKind>, i: nat): seq<Row>
    decreases |ls| - i
  {
    if i >= |ls| then []
    else if ls[i] == Lead then [Row(i, RowEnd(ls, i))] + RowsFrom(ls, RowEnd(ls, i) + 1)
    else RowsFrom(ls, i + 1)
  }

  /** A row is a pipe-leading line with all the lines that continue it. */
  ghost predicate IsRow(ls: seq<LineKind>, r: Row) {
    && r.start <= r.end < |ls| && ls[r.start] == Lead
    && (forall k | r.start < k <= r.end :: ls[k] == More)
    && (r.end + 1 < |ls| ==> ls[r.end + 1] != More)
  }

  ghost predicate StartsRow(rows: seq<Row>, k: nat) {
    exists x {:trigger rows[x]} | 0 <= x < |rows| :: rows[x].start == k
  }

  /** From line i on: ordered, disjoint, maximal rows, and every pipe-leading line starts one. */
  ghost predicate AreRows(ls: seq<LineKind>, i: nat, rows: seq<Row>) {
    EachIsRow(ls, i, rows) && InOrder(rows) && AllFound(ls, i, rows)
  }

  ghost predicate EachIsRow(ls: seq<LineKind>, i: nat, rows: seq<Row>) {
    forall x | 0 <= x < |rows| :: i <= rows[x].start && IsRow(ls, rows[x])
  }

  ghost predicate InOrder(rows: seq<Row>) {
    forall x, y | 0 <= x < y < |rows| :: rows[x].end < rows[y].start
  }

  ghost predicate AllFound(ls: seq<LineKind>, i: nat, rows: seq<Row>) {
    forall k: nat | i <= k && LeadAt(ls, k) :: StartsRow(rows, k)
  }

  predicate LeadAt(ls: seq<LineKind>, k: nat) {
    k < |ls| && ls[k] == Lead
  }

  lemma NoRows(ls: seq<LineKind>, i: nat)
    requires i >= |ls|
    ensures AreRows(ls, i, [])
  {
  }

  lemma OneLineMore(ls: seq<LineKind>, i: nat, rows: seq<Row>)
    requires i < |ls| && ls[i] != Lead && AreRows(ls, i + 1, rows)
    ensures AreRows(ls, i, rows)
  {
    forall k: nat | i <= k && LeadAt(ls, k) ensures StartsRow(rows, k) {
      assert k != i;
    }
  }

  lemma {:induction false} RowsFromAreRows(ls: seq<LineKind>, i: nat)
    ensures AreRows(ls, i, RowsFrom(ls, i))
    decreases |ls| - i
  {
    if i >= |ls| {
      NoRows(ls, i);
    } else if ls[i] == Lead {
      var e := RowEnd(ls, i);
      var rest := RowsFrom(ls, e + 1);
      RowsFromAreRows(ls, e + 1);
      assert RowsFrom(ls, i) == [Row(i, e)] + rest;
      PrependRow(ls, i, e, rest);
    } else {
      RowsFromAreRows(ls, i + 1);
      OneLineMore(ls, i, RowsFrom(ls, i + 1));
    }
  }

  lemma StartsPrepended(r: Row, rest: seq<Row>, k: nat)
    ensures StartsRow([r] + rest, k) <==> r.start == k || StartsRow(rest, k)
  {
    var rows := [r] + rest;
    assert rows[0] == r;
    if StartsRow(rest, k) {
      var x :| 0 <= x < |rest| && rest[x].start == k;
      assert rows[x + 1].start == k;
    }
    if x :| 0 <= x < |rows| && rows[x].start == k {
      assert x > 0 ==> rest[x - 1] == rows[x];
    }
  }

  lemma PrependInOrder(r: Row, rest: seq<Row>)
    requires InOrder(rest) && forall x | 0 <= x < |rest| :: r.end < rest[x].start
    ensures InOrder([r] + rest)
  {
    var rows := [r] + rest;
    assert forall x | 0 < x < |rows| :: rows[x] == rest[x - 1];
  }

  lemma PrependEach(ls: seq<LineKind>, i: nat, e: nat, rest: seq<Row>)
    requires IsRow(ls, Row(i, e)) && EachIsRow(ls, e + 1, rest)
    ensures EachIsRow(ls, i, [Row(i, e)] + rest)
  {
    var rows := [Row(i, e)] + rest;
    assert forall x | 0 < x < |rows| :: rows[x] == rest[x - 1];
  }

  lemma PrependRow(ls: seq<LineKind>, i: nat, e: nat, rest: seq<Row>)
    requires IsRow(ls, Row(i, e)) && AreRows(ls, e + 1, rest)
    ensures AreRows(ls, i, [Row(i, e)] + rest)
  {
    var rows := [Row(i, e)] + rest;
    PrependEach(ls, i, e, rest);
    PrependInOrder(Row(i, e), rest);
    forall k: nat | i <= k && LeadAt(ls, k) ensures StartsRow(rows, k) {
      StartsPrepended(Row(i, e), rest, k);
      assert k <= e ==> k == i;
    }
  }

  lemma SameEnd(ls: seq<LineKind>, r: Row, s: Row)
    requires IsRow(ls, r) && IsRow(ls, s) && r.start == s.start
    ensures r == s
  {
  }

  /** In a list of rows from line i on, a row that starts at line i is the first. */
  lemma FirstIsFirst(ls: seq<LineKind>, i: nat, rows: seq<Row>, x: nat)
    requires EachIsRow(ls, i, rows) && InOrder(rows) && x < |rows| && rows[x].start == i
    ensures x == 0
  {
    assert i <= rows[0].start && IsRow(ls, rows[0]);
  }

  /** The first row of any such list starts at the first pipe-leading line. */
  lemma FirstRow(ls: seq<LineKind>, i: nat, rows: seq<Row>)
    requires LeadAt(ls, i) && AreRows(ls, i, rows)
    ensures rows != [] && rows[0] == Row(i, RowEnd(ls, i))
  {
    assert StartsRow(rows, i);
    var x: nat :| x < |rows| && rows[x].start == i;
    FirstIsFirst(ls, i, rows, x);
    SameEnd(ls, rows[0], Row(i, RowEnd(ls, i)));
  }

  lemma RestIsOrdered(ls: seq<LineKind>, i: nat, rows: seq<Row>)
    requires rows != [] && EachIsRow(ls, i, rows) && InOrder(rows)
    ensures EachIsRow(ls, rows[0].end + 1, rows[1..]) && InOrder(rows[1..])
  {
    assert forall x | 0 <= x < |rows| - 1 :: rows[1..][x] == rows[x + 1];
  }

  lemma RestOfRows(ls: seq<LineKind>, i: nat, rows: seq<Row>)
    requires rows != [] && AreRows(ls, i, rows)
    ensures AreRows(ls, rows[0].end + 1, rows[1..])
  {
    var r, rest := rows[0], rows[1..];
    assert rows == [r] + rest;
    RestIsOrdered(ls, i, rows);
    assert IsRow(ls, r);
    forall k: nat | r.end + 1 <= k && LeadAt(ls, k) ensures StartsRow(rest, k) {
      assert StartsRow(rows, k);
      StartsPrepended(r, rest, k);
    }
  }

  lemma SkipLine(ls: seq<LineKind>, i: nat, rows: seq<Row>)
    requires i < |ls| && ls[i] != Lead && AreRows(ls, i, rows)
    ensures AreRows(ls, i + 1, rows)
  {
    assert forall x | 0 <= x < |rows| :: rows[x].start != i;
  }

  lemma {:induction false} RowsUnique(ls: seq<LineKind>, i: nat, rows: seq<Row>)
    requires AreRows(ls, i, rows)
    ensures rows == RowsFrom(ls, i)
    decreases |ls| - i
  {
    if i >= |ls| {
      assert rows != [] ==> IsRow(ls, rows[0]);
    } else if ls[i] == Lead {
      FirstRow(ls, i, rows);
      RestOfRows(ls, i, rows);
      RowsUnique(ls, RowEnd(ls, i) + 1, rows[1..]);
      assert rows == [rows[0]] + rows[1..];
    } else {
      SkipLine(ls, i, rows);
      RowsUnique(ls, i + 1, rows);
    }
  }

  /** The rows of a text are determined by the four conditions, and the parser finds them. */
  lemma RowsExactly(ls: seq<LineKind>, rows: seq<Row>)
    ensures AreRows(ls, 0, rows) <==> rows == RowsFrom(ls, 0)
  {
    RowsFromAreRows(ls, 0);
    if AreRows(ls, 0, rows) {
      RowsUnique(ls, 0, rows);
    }
  }

  lemma KindAt(lines: seq<string>, i: nat)
    requires i < |lines|
    ensures LineKinds(lines)[i] == Lead <==> Leads(lines[i])
    ensures LineKinds(lines)[i] == More <==> Continues(lines[i])
  {
  }

  /** What has been found and what is still to come make up all rows. */
  ghost predicate OnTrack(ls: seq<LineKind>, i: nat, rows: seq<Row>) {
    rows + RowsFrom(ls, i) == RowsFrom(ls, 0)
  }

  lemma TrackRow(ls: seq<LineKind>, i: nat, rows: seq<Row>)
    requires i < |ls| && ls[i] == Lead && OnTrack(ls, i, rows)
    ensures OnTrack(ls, RowEnd(ls, i) + 1, rows + [Row(i, RowEnd(ls, i))])
  {
    var r, rest := Row(i, RowEnd(ls, i)), RowsFrom(ls, RowEnd(ls, i) + 1);
    assert RowsFrom(ls, i) == [r] + rest;
    assert rows + [r] + rest == rows + ([r] + rest);
  }

  lemma TrackSkip(ls: seq<LineKind>, i: nat, rows: seq<Row>)
    requires i < |ls| && ls[i] != Lead && OnTrack(ls, i, rows)
    ensures OnTrack(ls, i + 1, rows)
  {
  }

  lemma TrackEnds(ls: seq<LineKind>, i: nat, rows: seq<Row>)
    requires i >= |ls| && OnTrack(ls, i, rows)
    ensures rows == RowsFrom(ls, 0) && AreRows(ls, 0, rows)
  {
    assert rows + [] == rows;
    RowsFromAreRows(ls, 0);
  }

  /** The inner loop: the last line that continues the row at line i. */
  method FindRowEnd(lines: seq<string>, i: nat) returns (j: nat)
    requires i < |lines|
    ensures j == RowEnd(LineKinds(lines), i)
  {
    ghost var ls := LineKinds(lines);
    j := i;
    while j + 1 < |lines| && Continues(lines[j + 1])
      invariant i <= j < |lines| && RowEnd(ls, j) == RowEnd(ls, i)
    {
      KindAt(lines, j + 1);
      j := j + 1;
    }
    if j + 1 < |lines| {
      KindAt(lines, j + 1);
    }
  }

  /** logical_rows. */
  method LogicalRows(lines: seq<string>) returns (rows: seq<Row>)
    ensures rows == RowsFrom(LineKinds(lines), 0) && AreRows(LineKinds(lines), 0, rows)
  {
    ghost var ls := LineKinds(lines);
    rows := [];
    var i := 0;
    while i < |lines|
      invariant OnTrack(ls, i, rows)
    {
      KindAt(lines, i);
      if Leads(lines[i]) {
        TrackRow(ls, i, rows);
        var j := FindRowEnd(lines, i);
        rows := rows + [Row(i, j)];
        i := j + 1;
      } else {
        TrackSkip(ls, i, rows);
        i := i + 1;
      }
    }
    TrackEnds(ls, i, rows);
  }

  // ----- cells

  predicate IsCut(s: string, i: nat)
    requires i < |s|
  {
    s[i] == '|' && (i == 0 || s[i - 1] != '\\')
  }

  function FirstCut(s: string, i: nat): (c: nat)
    requires i <= |s|
    ensures i <= c <= |s| && (c < |s| ==> IsCut(s, c)) && forall k | i <= k < c :: !IsCut(s, k)
    decreases |s| - i
  {
    if i == |s| || IsCut(s, i) then i else FirstCut(s, i + 1)
  }

  /** PIPE.split. */
  function Split(s: string): seq<string> {
    var c := FirstCut(s, 0);
    if c == |s| then [s] else [s[..c]] + Split(s[c + 1..])
  }

  function Join(parts: seq<string>): string
    requires parts != []
  {
    if |parts| == 1 then parts[0] else parts[0] + "|" + Join(parts[1..])
  }

  /** Every pipe in the text is escaped. */
  predicate NoCut(s: string) {
    forall i | 0 <= i < |s| :: !IsCut(s, i)
  }

  predicate EndsEscaping(s: string) {
    s != "" && s[|s| - 1] == '\\'
  }

  /** Joining gives the text back, no part has a bare pipe, and no separating pipe is escaped. */
  ghost predicate IsSplit(parts: seq<string>, s: string) {
    && parts != [] && Join(parts) == s
    && (forall i | 0 <= i < |parts| :: NoCut(parts[i]))
    && (forall i | 0 <= i < |parts| - 1 :: !EndsEscaping(parts[i]))
  }

  lemma CutIs(s: string, a: string, rest: string)
    requires s == a + "|" + rest && NoCut(a) && !EndsEscaping(a)
    ensures FirstCut(s, 0) == |a| && s[..|a|] == a && s[|a| + 1..] == rest
  {
    assert forall k | 0 <= k < |a| :: s[k] == a[k];
    forall k | 0 <= k < |a| ensures !IsCut(s, k) {
      assert !IsCut(a, k);
    }
    assert s[|a|] == '|';
    assert IsCut(s, |a|);
  }

  lemma NoCutWhole(s: string)
    requires NoCut(s)
    ensures FirstCut(s, 0) == |s|
  {
  }

  lemma {:induction false} SplitIsSplit(s: string)
    ensures IsSplit(Split(s), s)
    decreases |s|
  {
    var c := FirstCut(s, 0);
    if c < |s| {
      var a, rest := s[..c], s[c + 1..];
      SplitIsSplit(rest);
      assert s == a + "|" + rest;
      forall k | 0 <= k < |a| ensures !IsCut(a, k) {
        assert !IsCut(s, k);
      }
      PrependPart(a, Split(rest), rest);
    }
  }

  lemma PrependPart(a: string, parts: seq<string>, rest: string)
    requires IsSplit(parts, rest) && NoCut(a) && !EndsEscaping(a)
    ensures IsSplit([a] + parts, a + "|" + rest)
  {
    var all := [a] + parts;
    assert all[1..] == parts;
    forall i | 0 <= i < |all| ensures NoCut(all[i]) && (i < |all| - 1 ==> !EndsEscaping(all[i])) {
      if i > 0 {
        assert all[i] == parts[i - 1];
      }
    }
  }

  lemma {:induction false} SplitUnique(parts: seq<string>, s: string)
    requires IsSplit(parts, s)
    ensures parts == Split(s)
    decreases |parts|
  {
    if |parts| == 1 {
      NoCutWhole(s);
    } else {
      var rest := Join(parts[1..]);
      assert IsSplit(parts[1..], rest);
      SplitUnique(parts[1..], rest);
      CutIs(s, parts[0], rest);
      assert parts == [parts[0]] + parts[1..];
    }
  }

  /** The split is the one way to cut the text at its unescaped pipes. */
  lemma SplitExactly(parts: seq<string>, s: string)
    ensures IsSplit(parts, s) <==> parts == Split(s)
  {
    SplitIsSplit(s);
    if IsSplit(parts, s) {
      SplitUnique(parts, s);
    }
  }

  function TrimAll(parts: seq<string>): seq<string> {
    seq(|parts|, i requires 0 <= i < |parts| => Trim(parts[i]))
  }

  function DropFirstEmpty(parts: seq<string>): seq<string> {
    if parts != [] && parts[0] == "" then parts[1..] else parts
  }

  function DropLastEmpty(parts: seq<string>): seq<string> {
    if parts != [] && parts[|parts| - 1] == "" then parts[..|parts| - 1] else parts
  }

  function Cells(text: string): seq<string> {
    DropLastEmpty(DropFirstEmpty(TrimAll(Split(text))))
  }

  /** A well-formed row with these cells. */
  function RenderCells(cells: seq<string>): string {
    if cells == [] then "" else " " + cells[0] + " |" + RenderCells(cells[1..])
  }

  function RenderRow(cells: seq<string>): string {
    "|" + RenderCells(cells)
  }

  function Padded(cells: seq<string>): seq<string> {
    seq(|cells|, i requires 0 <= i < |cells| => " " + cells[i] + " ")
  }

  lemma PadKeepsNoCut(c: string)
    requires NoCut(c)
    ensures NoCut(" " + c + " ") && !EndsEscaping(" " + c + " ")
  {
    var p := " " + c + " ";
    forall i | 0 <= i < |p| ensures !IsCut(p, i) {
      if 0 < i <= |c| {
        assert p[i] == c[i - 1];
        assert !IsCut(c, i - 1);
        assert i > 1 ==> p[i - 1] == c[i - 2];
      }
    }
  }

  lemma RenderUnfold(cells: seq<string>)
    requires cells != []
    ensures RenderCells(cells) == " " + cells[0] + " " + "|" + RenderCells(cells[1..])
    ensures Padded(cells) == [" " + cells[0] + " "] + Padded(cells[1..])
  {
    assert " |" == " " + "|";
  }

  lemma SplitPrepended(a: string, rest: string)
    requires NoCut(a) && !EndsEscaping(a)
    ensures Split(a + "|" + rest) == [a] + Split(rest)
  {
    CutIs(a + "|" + rest, a, rest);
  }

  lemma {:induction false} SplitRendered(cells: seq<string>)
    requires forall i | 0 <= i < |cells| :: NoCut(cells[i])
    ensures Split(RenderCells(cells)) == Padded(cells) + [""]
  {
    if cells == [] {
      NoCutWhole("");
      assert Padded(cells) + [""] == [""];
    } else {
      var c := " " + cells[0] + " ";
      SplitRendered(cells[1..]);
      PadKeepsNoCut(cells[0]);
      RenderUnfold(cells);
      SplitPrepended(c, RenderCells(cells[1..]));
      assert [c] + (Padded(cells[1..]) + [""]) == [c] + Padded(cells[1..]) + [""];
    }
  }

  lemma TrimRightSpace(c: string)
    ensures TrimRight(c + " ") == TrimRight(c)
  {
    assert (c + " ")[..|c|] == c;
  }

  lemma TrimPadded(c: string)
    requires IsTrimmed(c)
    ensures Trim(" " + c + " ") == c
  {
    var p := " " + c + " ";
    assert p[0] == ' ' && p[1..] == c + " ";
    TrimRightSpace(c);
    if c == "" {
      assert c + " " == " " && " "[1..] == "";
      assert TrimLeft(p) == TrimLeft(" ") == "";
    } else {
      assert (c + " ")[0] == c[0];
      assert TrimLeft(p) == c + " ";
    }
  }

  lemma TrimAllPadded(cells: seq<string>)
    requires forall i | 0 <= i < |cells| :: IsTrimmed(cells[i])
    ensures TrimAll([""] + (Padded(cells) + [""])) == [""] + (cells + [""])
  {
    var parts, want := [""] + (Padded(cells) + [""]), [""] + (cells + [""]);
    forall i | 0 <= i < |parts| ensures TrimAll(parts)[i] == want[i] {
      if 0 < i <= |cells| {
        TrimPadded(cells[i - 1]);
      } else {
        assert parts[i] == "";
      }
    }
  }

  /** Round trip: trimmed cells whose pipes are escaped come back from their row, empty ones too. */
  lemma CellsRoundTrip(cells: seq<string>)
    requires forall i | 0 <= i < |cells| :: NoCut(cells[i]) && IsTrimmed(cells[i])
    ensures Cells(RenderRow(cells)) == cells
  {
    SplitRendered(cells);
    assert RenderRow(cells) == "" + "|" + RenderCells(cells);
    SplitPrepended("", RenderCells(cells));
    TrimAllPadded(cells);
    assert ([""] + (cells + [""]))[1..] == cells + [""];
    assert (cells + [""])[..|cells|] == cells;
  }
}
