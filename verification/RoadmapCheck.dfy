/**
The roadmap status check: find the item tables, and require of every data row the header's
number of cells and a canonical status in the last one.
*/
module RoadmapCheck {
  import opened Wrappers
  import opened Text
  import opened RoadmapRows

  const BLOCKED := "blocked-on:"
  const STATUS_CELL := "状态"
  const PRIORITY_CELL := "优先级"
  const OPS_FIRST := "项"
  const OPS_SECOND := "目标"

  type CellRow = seq<string>

  predicate IsDashes(c: string) {
    |c| >= 2 && forall i | 0 <= i < |c| :: c[i] == '-'
  }

  /** ^:?-{2,}:?$ on a trimmed cell. */
  predicate IsRule(c: string) {
    IsDashes(DropColonAtEnd(DropColon(c)))
  }

  function DropColon(c: string): string {
    if c != "" && c[0] == ':' then c[1..] else c
  }

  function DropColonAtEnd(c: string): string {
    if c != "" && c[|c| - 1] == ':' then c[..|c| - 1] else c
  }

  predicate IsSeparator(cs: CellRow) {
    cs != [] && forall i | 0 <= i < |cs| :: IsRule(cs[i])
  }

  predicate IsOpsTable(header: CellRow) {
    |header| >= 2 && header[0] == OPS_FIRST && header[1] == OPS_SECOND
  }

  predicate IsItemTable(header: CellRow) {
    PRIORITY_CELL in header || IsOpsTable(header)
  }

  predicate StatusOk(value: string) {
    value == "closed" || value == "open" || value == "decided"
    || (HasPrefix(value, BLOCKED) && |value| > |BLOCKED|)
  }

  lemma TablesExactly(header: CellRow)
    ensures IsOpsTable(header) <==> exists more: CellRow :: header == ["项", "目标"] + more
    ensures IsItemTable(header) <==> "优先级" in header || IsOpsTable(header)
  {
    if IsOpsTable(header) {
      assert header == ["项", "目标"] + header[2..];
    }
  }

  lemma StatusOkExactly(v: string)
    ensures StatusOk(v) <==>
            || v == "closed" || v == "open" || v == "decided"
            || exists who: string :: who != "" && v == "blocked-on:" + who
  {
    if HasPrefix(v, BLOCKED) && |v| > |BLOCKED| {
      var who := v[|BLOCKED|..];
      assert who != "" && v == "blocked-on:" + who;
    }
  }

  ghost predicate IsRuleOf(c: string, left: string, dashes: string, right: string) {
    && c == left + dashes + right && (left == "" || left == ":") && (right == "" || right == ":")
    && |dashes| >= 2 && forall i | 0 <= i < |dashes| :: dashes[i] == '-'
  }

  ghost predicate ReadsAsRule(c: string) {
    exists left: string, dashes: string, right: string :: IsRuleOf(c, left, dashes, right)
  }

  /** A separator cell: at least two dashes, with a colon at either end or none. */
  lemma RuleExactly(c: string)
    ensures IsRule(c) <==> ReadsAsRule(c)
  {
    if IsRule(c) {
      var left := if c != "" && c[0] == ':' then ":" else "";
      var a := DropColon(c);
      var right := if a != "" && a[|a| - 1] == ':' then ":" else "";
      var dashes := DropColonAtEnd(a);
      assert c == left + a && a == dashes + right;
      assert c == left + dashes + right;
      assert IsRuleOf(c, left, dashes, right);
    }
    if left: string, dashes: string, right: string :| IsRuleOf(c, left, dashes, right) {
      RuleOfIsRule(c, left, dashes, right);
    }
  }

  lemma RuleOfIsRule(c: string, left: string, dashes: string, right: string)
    requires IsRuleOf(c, left, dashes, right)
    ensures IsRule(c)
  {
    var a := dashes + right;
    assert c == left + a;
    assert DropColon(c) == a by {
      assert left == "" ==> c == a && c[0] == dashes[0];
    }
    assert DropColonAtEnd(a) == dashes by {
      assert right == "" ==> a == dashes;
    }
  }

  /** A separator row has at least one cell, and every cell is such a rule. */
  lemma SeparatorExactly(cs: CellRow)
    ensures IsSeparator(cs) <==>
            && |cs| > 0
            && forall i | 0 <= i < |cs| :: ReadsAsRule(cs[i])
  {
    forall i | 0 <= i < |cs| ensures IsRule(cs[i]) <==> ReadsAsRule(cs[i]) {
      RuleExactly(cs[i]);
    }
  }

  // ----- what the rows are

  /** A header is a row whose next row is a separator. */
  predicate IsHeader(cs: seq<CellRow>, i: nat) {
    i + 1 < |cs| && IsSeparator(cs[i + 1])
  }

  /** The closest header above row i. */
  function HeaderAbove(cs: seq<CellRow>, i: nat): (h: Option<nat>)
    requires i <= |cs|
    ensures h.Some? ==> h.value < i && IsHeader(cs, h.value) && forall j | h.value < j < i :: !IsHeader(cs, j)
    ensures h.None? ==> forall j | 0 <= j < i :: !IsHeader(cs, j)
  {
    if i == 0 then None else if IsHeader(cs, i - 1) then Some(i - 1) else HeaderAbove(cs, i - 1)
  }

  /** A data row: neither header nor separator, under the header of an item table. */
  predicate IsData(cs: seq<CellRow>, i: nat)
    requires i < |cs|
  {
    && !IsHeader(cs, i) && !IsSeparator(cs[i])
    && HeaderAbove(cs, i).Some? && IsItemTable(cs[HeaderAbove(cs, i).value])
  }

  predicate IsItemHeader(cs: seq<CellRow>, i: nat)
    requires i < |cs|
  {
    IsHeader(cs, i) && IsItemTable(cs[i])
  }

  /** The status shows: the row has its header's cells, and the last is canonical. */
  predicate IsSound(cs: seq<CellRow>, i: nat)
    requires i < |cs| && IsData(cs, i)
  {
    && cs[i] != [] && |cs[i]| == |cs[HeaderAbove(cs, i).value]|
    && StatusOk(cs[i][|cs[i]| - 1])
  }

  datatype Verdict = Counted(status: string) | Empty | Ragged | BadStatus(value: string)

  datatype Kind = Header(item: bool, ops: bool, hasStatus: bool) | Outside | Data(verdict: Verdict)

  function VerdictOf(row: CellRow, width: nat): Verdict {
    if row == [] then Empty
    else if |row| != width then Ragged
    else if StatusOk(row[|row| - 1]) then Counted(row[|row| - 1])
    else BadStatus(row[|row| - 1])
  }

  function KindOf(cs: seq<CellRow>, i: nat): Kind
    requires i < |cs|
  {
    if IsHeader(cs, i) then Header(IsItemTable(cs[i]), IsOpsTable(cs[i]), STATUS_CELL in cs[i])
    else if IsData(cs, i) then Data(VerdictOf(cs[i], |cs[HeaderAbove(cs, i).value]|))
    else Outside
  }

  function Kinds(cs: seq<CellRow>): seq<Kind> {
    seq(|cs|, i requires 0 <= i < |cs| => KindOf(cs, i))
  }

  lemma KindMeaning(cs: seq<CellRow>, i: nat)
    requires i < |cs|
    ensures Kinds(cs)[i].Data? <==> IsData(cs, i)
    ensures IsData(cs, i) ==>
              (IsSound(cs, i) <==> Kinds(cs)[i].verdict == Counted(if cs[i] == [] then "" else cs[i][|cs[i]| - 1]))
    ensures Kinds(cs)[i].Data? ==> (Kinds(cs)[i].verdict.Counted? <==> IsSound(cs, i))
    ensures Kinds(cs)[i].Header? && Kinds(cs)[i].item <==> IsItemHeader(cs, i)
    ensures Kinds(cs)[i].Header? ==> (Kinds(cs)[i].hasStatus <==> STATUS_CELL in cs[i])
    ensures Kinds(cs)[i].Header? && Kinds(cs)[i].ops <==> IsHeader(cs, i) && IsOpsTable(cs[i])
  {
  }

  /** A complaint names the row; TooFewRows is the floor on the number of data rows. */
  datatype Problem = NoStatusColumn(row: nat) | BadRow(row: nat, verdict: Verdict) | TooFewRows(total: nat)

  datatype Result =
    | Lost(opsOnly: bool)
    | Report(problems: seq<Problem>, counts: map<string, nat>, total: nat)

  // ----- what the report should say

  ghost function DataRows(ks: seq<Kind>): set<nat> {
    set i: nat | i < |ks| && ks[i].Data?
  }

  ghost function RowsWith(ks: seq<Kind>, status: string): set<nat> {
    set i: nat | i < |ks| && ks[i] == Data(Counted(status))
  }

  ghost function CountedRows(ks: seq<Kind>): set<nat> {
    set i: nat | i < |ks| && ks[i].Data? && ks[i].verdict.Counted?
  }

  /** The one complaint a row can cause. */
  function Complaint(i: nat, k: Kind): seq<Problem> {
    match k
    case Header(item, _, hasStatus) => if item && !hasStatus then [NoStatusColumn(i)] else []
    case Outside => []
    case Data(v) => if v.Counted? then [] else [BadRow(i, v)]
  }

  function Complaints(ks: seq<Kind>): seq<Problem> {
    if ks == [] then [] else Complaints(ks[..|ks| - 1]) + Complaint(|ks| - 1, ks[|ks| - 1])
  }

  ghost predicate SeenItemTable(ks: seq<Kind>) {
    exists i {:trigger ks[i]} | 0 <= i < |ks| :: ks[i].Header? && ks[i].item
  }

  ghost predicate SeenOpsTable(ks: seq<Kind>) {
    exists i {:trigger ks[i]} | 0 <= i < |ks| :: ks[i].Header? && ks[i].ops
  }

  function Count(counts: map<string, nat>, status: string): nat {
    if status in counts then counts[status] else 0
  }

  ghost predicate CountsAre(ks: seq<Kind>, counts: map<string, nat>) {
    forall s :: Count(counts, s) == |RowsWith(ks, s)|
  }

  lemma DataRowsNext(ks: seq<Kind>, k: Kind)
    ensures |DataRows(ks + [k])| == |DataRows(ks)| + if k.Data? then 1 else 0
  {
    assert DataRows(ks + [k]) == if k.Data? then DataRows(ks) + {|ks|} else DataRows(ks);
  }

  lemma RowsWithNext(ks: seq<Kind>, k: Kind, s: string)
    ensures |RowsWith(ks + [k], s)| == |RowsWith(ks, s)| + if k == Data(Counted(s)) then 1 else 0
  {
    assert RowsWith(ks + [k], s) == if k == Data(Counted(s)) then RowsWith(ks, s) + {|ks|} else RowsWith(ks, s);
  }

  lemma CountedRowsNext(ks: seq<Kind>, k: Kind)
    ensures |CountedRows(ks + [k])| == |CountedRows(ks)| + if k.Data? && k.verdict.Counted? then 1 else 0
  {
    assert CountedRows(ks + [k]) ==
           if k.Data? && k.verdict.Counted? then CountedRows(ks) + {|ks|} else CountedRows(ks);
  }

  // ----- the loop

  function RowText(lines: seq<string>, start: nat, end: nat): string
    requires start <= end < |lines|
    decreases end - start
  {
    if start == end then lines[start] else lines[start] + "\n" + RowText(lines, start + 1, end)
  }

  /** The lines of a row are joined by line breaks, wherever it is cut. */
  lemma {:induction false} RowTextJoins(lines: seq<string>, start: nat, mid: nat, end: nat)
    requires start <= mid < end < |lines|
    ensures RowText(lines, start, end) == RowText(lines, start, mid) + "\n" + RowText(lines, mid + 1, end)
    decreases mid - start
  {
    if start < mid {
      RowTextJoins(lines, start + 1, mid, end);
    }
  }

  function CellsOf(lines: seq<string>, r: Row): CellRow
    requires r.start <= r.end < |lines|
  {
    Cells(RowText(lines, r.start, r.end))
  }

  ghost predicate AreCells(lines: seq<string>, cs: seq<CellRow>) {
    |cs| == |RowsFrom(LineKinds(lines), 0)| && ReadSoFar(lines, RowsFrom(LineKinds(lines), 0), cs)
  }

  ghost predicate ReadSoFar(lines: seq<string>, rows: seq<Row>, cs: seq<CellRow>) {
    |cs| <= |rows| && forall i | 0 <= i < |cs| :: HasCells(lines, rows[i], cs[i])
  }

  predicate HasCells(lines: seq<string>, r: Row, c: CellRow) {
    r.start <= r.end < |lines| && c == CellsOf(lines, r)
  }

  lemma RowFits(lines: seq<string>, rows: seq<Row>, k: nat)
    requires AreRows(LineKinds(lines), 0, rows) && k < |rows|
    ensures rows[k].start <= rows[k].end < |lines|
  {
    assert IsRow(LineKinds(lines), rows[k]);
  }

  lemma ReadOneMore(lines: seq<string>, rows: seq<Row>, cs: seq<CellRow>, c: CellRow)
    requires ReadSoFar(lines, rows, cs) && |cs| < |rows| && HasCells(lines, rows[|cs|], c)
    ensures ReadSoFar(lines, rows, cs + [c])
  {
    assert forall i | 0 <= i < |cs| :: (cs + [c])[i] == cs[i];
  }

  method ReadRow(lines: seq<string>, r: Row) returns (c: CellRow)
    requires r.start <= r.end < |lines|
    ensures HasCells(lines, r, c)
  {
    c := CellsOf(lines, r);
  }

  method ReadRows(lines: seq<string>) returns (cs: seq<CellRow>)
    ensures AreCells(lines, cs)
  {
    var rows := LogicalRows(lines);
    cs := [];
    for k := 0 to |rows|
      invariant |cs| == k && ReadSoFar(lines, rows, cs)
    {
      RowFits(lines, rows, k);
      var c := ReadRow(lines, rows[k]);
      ReadOneMore(lines, rows, cs, c);
      cs := cs + [c];
    }
  }

  lemma SeenNext(ks: seq<Kind>, k: Kind)
    ensures SeenItemTable(ks + [k]) <==> SeenItemTable(ks) || (k.Header? && k.item)
    ensures SeenOpsTable(ks + [k]) <==> SeenOpsTable(ks) || (k.Header? && k.ops)
  {
    var all := ks + [k];
    assert all[|ks|] == k && forall i | 0 <= i < |ks| :: all[i] == ks[i];
  }

  function CountRow(counts: map<string, nat>, k: Kind): map<string, nat> {
    if k.Data? && k.verdict.Counted? then counts[k.verdict.status := Count(counts, k.verdict.status) + 1]
    else counts
  }

  lemma CountsNext(ks: seq<Kind>, k: Kind, counts: map<string, nat>)
    requires CountsAre(ks, counts)
    ensures CountsAre(ks + [k], CountRow(counts, k))
  {
    forall s ensures Count(CountRow(counts, k), s) == |RowsWith(ks + [k], s)| {
      RowsWithNext(ks, k, s);
    }
  }

  lemma ComplaintsNext(ks: seq<Kind>, k: Kind)
    ensures Complaints(ks + [k]) == Complaints(ks) + Complaint(|ks|, k)
  {
    assert (ks + [k])[..|ks|] == ks;
  }

  datatype Tally = Tally(
    problems: seq<Problem>, counts: map<string, nat>, total: nat, seenItem: bool, seenOps: bool)

  /** The tally is that of the rows whose kinds are given. */
  ghost predicate TallyOf(ks: seq<Kind>, t: Tally) {
    && t.problems == Complaints(ks) && CountsAre(ks, t.counts) && t.total == |DataRows(ks)|
    && t.seenItem == SeenItemTable(ks) && t.seenOps == SeenOpsTable(ks)
  }

  lemma TallyStart()
    ensures TallyOf([], Tally([], map[], 0, false, false))
  {
    assert forall s :: RowsWith([], s) == {};
    assert DataRows([]) == {};
  }

  function NextTally(t: Tally, i: nat, k: Kind): Tally {
    Tally(t.problems + Complaint(i, k), CountRow(t.counts, k), t.total + if k.Data? then 1 else 0,
          t.seenItem || (k.Header? && k.item), t.seenOps || (k.Header? && k.ops))
  }

  lemma TallyNext(ks: seq<Kind>, k: Kind, t: Tally)
    requires TallyOf(ks, t)
    ensures TallyOf(ks + [k], NextTally(t, |ks|, k))
  {
    SeenNext(ks, k);
    CountsNext(ks, k, t.counts);
    ComplaintsNext(ks, k);
    DataRowsNext(ks, k);
  }

  function HeaderRow(cs: seq<CellRow>, i: nat): Option<CellRow>
    requires i <= |cs|
  {
    var h := HeaderAbove(cs, i);
    if h.None? then None else Some(cs[h.value])
  }

  /** The kind of a row, from what the loop knows when it reaches it. */
  function KindUnder(header: Option<CellRow>, row: CellRow, isHeader: bool): Kind {
    if isHeader then Header(IsItemTable(row), IsOpsTable(row), STATUS_CELL in row)
    else if !IsSeparator(row) && header.Some? && IsItemTable(header.value) then
      Data(VerdictOf(row, |header.value|))
    else Outside
  }

  lemma KindIsKindUnder(cs: seq<CellRow>, i: nat)
    requires i < |cs|
    ensures Kinds(cs)[i] == KindUnder(HeaderRow(cs, i), cs[i], IsHeader(cs, i))
    ensures HeaderRow(cs, i + 1) == if IsHeader(cs, i) then Some(cs[i]) else HeaderRow(cs, i)
  {
  }

  lemma TallyPrefix(ks: seq<Kind>, i: nat, t: Tally)
    requires i < |ks| && TallyOf(ks[..i], t)
    ensures TallyOf(ks[..i + 1], NextTally(t, i, ks[i]))
  {
    TallyNext(ks[..i], ks[i], t);
    assert ks[..i + 1] == ks[..i] + [ks[i]];
  }

  lemma TallyStep(cs: seq<CellRow>, i: nat, t: Tally)
    requires i < |cs| && TallyOf(Kinds(cs)[..i], t)
    ensures HeaderRow(cs, i + 1) == if IsHeader(cs, i) then Some(cs[i]) else HeaderRow(cs, i)
    ensures TallyOf(Kinds(cs)[..i + 1], NextTally(t, i, KindUnder(HeaderRow(cs, i), cs[i], IsHeader(cs, i))))
  {
    KindIsKindUnder(cs, i);
    TallyPrefix(Kinds(cs), i, t);
  }

  /** A data row: counted, or complained about. */
  method TallyData(t: Tally, row: CellRow, width: nat, i: nat) returns (t': Tally)
    ensures t' == NextTally(t, i, Data(VerdictOf(row, width)))
  {
    var problems, counts := t.problems, t.counts;
    if row == [] {
      problems := problems + [BadRow(i, Empty)];
    } else if |row| != width {
      problems := problems + [BadRow(i, Ragged)];
    } else {
      var status := row[|row| - 1];
      if !StatusOk(status) {
        problems := problems + [BadRow(i, BadStatus(status))];
      } else {
        counts := counts[status := Count(counts, status) + 1];
      }
    }
    t' := Tally(problems, counts, t.total + 1, t.seenItem, t.seenOps);
  }

  /** A header row: which tables are seen, and whether an item table has its status column. */
  method TallyHeader(t: Tally, row: CellRow, i: nat) returns (t': Tally)
    ensures t' == NextTally(t, i, KindUnder(None, row, true))
  {
    var problems, seenItem, seenOps := t.problems, t.seenItem, t.seenOps;
    if IsItemTable(row) {
      seenItem := true;
      if IsOpsTable(row) {
        seenOps := true;
      }
      if STATUS_CELL !in row {
        problems := problems + [NoStatusColumn(i)];
      }
    }
    t' := Tally(problems, t.counts, t.total, seenItem, seenOps);
  }

  /** The body of the loop for row i under the current header. */
  method TallyRow(t: Tally, header: Option<CellRow>, row: CellRow, i: nat, isHeader: bool) returns (t': Tally)
    ensures t' == NextTally(t, i, KindUnder(header, row, isHeader))
  {
    if isHeader {
      t' := TallyHeader(t, row, i);
    } else if !IsSeparator(row) && header.Some? && IsItemTable(header.value) {
      t' := TallyData(t, row, |header.value|, i);
    } else {
      t' := t;
    }
  }

  /** The loop of check, and the two scope errors after it. */
  method CheckRows(cs: seq<CellRow>, minRows: int) returns (res: Result)
    ensures res.Lost? <==> !SeenOpsTable(Kinds(cs))
    ensures res.Lost? ==> res.opsOnly == SeenItemTable(Kinds(cs))
    ensures res.Report? ==>
              && res.total == |DataRows(Kinds(cs))| && CountsAre(Kinds(cs), res.counts)
              && res.problems ==
                 Complaints(Kinds(cs)) + if res.total < minRows then [TooFewRows(res.total)] else []
  {
    ghost var ks := Kinds(cs);
    var t := Tally([], map[], 0, false, false);
    var header: Option<CellRow> := None;
    TallyStart();
    for i := 0 to |cs|
      invariant header == HeaderRow(cs, i) && TallyOf(ks[..i], t)
    {
      var isHeader := i + 1 < |cs| && IsSeparator(cs[i + 1]);
      TallyStep(cs, i, t);
      t := TallyRow(t, header, cs[i], i, isHeader);
      if isHeader {
        header := Some(cs[i]);
      }
    }
    assert ks[..|cs|] == ks;
    OpsTableIsItemTable(cs);
    if !t.seenItem || !t.seenOps {
      return Lost(t.seenItem);
    }
    var floor := if t.total < minRows then [TooFewRows(t.total)] else [];
    res := Report(t.problems + floor, t.counts, t.total);
  }

  lemma OpsTableIsItemTable(cs: seq<CellRow>)
    ensures SeenOpsTable(Kinds(cs)) ==> SeenItemTable(Kinds(cs))
  {
    if i :| 0 <= i < |cs| && Kinds(cs)[i].Header? && Kinds(cs)[i].ops {
      assert Kinds(cs)[i] == KindOf(cs, i);
    }
  }

  // ----- what the report means

  function RowProblems(ps: seq<Problem>): seq<Problem> {
    if ps == [] then []
    else RowProblems(ps[..|ps| - 1]) + if ps[|ps| - 1].BadRow? then [ps[|ps| - 1]] else []
  }

  lemma RowProblemsAppend(ps: seq<Problem>, p: Problem)
    ensures RowProblems(ps + [p]) == RowProblems(ps) + if p.BadRow? then [p] else []
  {
    assert (ps + [p])[..|ps|] == ps;
  }

  lemma RowProblemsNext(ks: seq<Kind>, k: Kind)
    ensures |RowProblems(Complaints(ks + [k]))| ==
            |RowProblems(Complaints(ks))| + if k.Data? && !k.verdict.Counted? then 1 else 0
  {
    ComplaintsNext(ks, k);
    if Complaint(|ks|, k) == [] {
      assert Complaints(ks + [k]) == Complaints(ks);
    } else {
      var p := Complaint(|ks|, k)[0];
      assert Complaint(|ks|, k) == [p];
      RowProblemsAppend(Complaints(ks), p);
    }
  }

  /** Every data row is either counted or complained about, once: nothing is dropped silently. */
  lemma {:induction false} DataRowsAreAccountedFor(ks: seq<Kind>)
    ensures |DataRows(ks)| == |CountedRows(ks)| + |RowProblems(Complaints(ks))|
    decreases |ks|
  {
    if ks == [] {
      assert DataRows(ks) == {} && CountedRows(ks) == {};
    } else {
      var init, k := ks[..|ks| - 1], ks[|ks| - 1];
      assert ks == init + [k];
      DataRowsAreAccountedFor(init);
      DataRowsNext(init, k);
      CountedRowsNext(init, k);
      RowProblemsNext(init, k);
    }
  }

  ghost function SumOver(counts: map<string, nat>, keys: set<string>): nat
    requires keys <= counts.Keys
  {
    if keys == {} then 0
    else
      var k :| k in keys;
      counts[k] + SumOver(counts, keys - {k})
  }

  ghost function RowsAmong(ks: seq<Kind>, keys: set<string>): set<nat> {
    set i: nat | i < |ks| && ks[i].Data? && ks[i].verdict.Counted? && ks[i].verdict.status in keys
  }

  lemma {:induction false} SumIsCardinality(ks: seq<Kind>, counts: map<string, nat>, keys: set<string>)
    requires CountsAre(ks, counts) && keys <= counts.Keys
    ensures SumOver(counts, keys) == |RowsAmong(ks, keys)|
    decreases |keys|
  {
    if keys == {} {
      assert RowsAmong(ks, keys) == {};
    } else {
      var k :| k in keys && SumOver(counts, keys) == counts[k] + SumOver(counts, keys - {k});
      SumIsCardinality(ks, counts, keys - {k});
      assert Count(counts, k) == |RowsWith(ks, k)|;
      assert RowsAmong(ks, keys) == RowsAmong(ks, keys - {k}) + RowsWith(ks, k);
      assert RowsAmong(ks, keys - {k}) !! RowsWith(ks, k);
    }
  }

  lemma AllCounted(ks: seq<Kind>, counts: map<string, nat>)
    requires CountsAre(ks, counts)
    ensures RowsAmong(ks, counts.Keys) == CountedRows(ks)
  {
    forall i: nat | i in CountedRows(ks) ensures ks[i].verdict.status in counts {
      var s := ks[i].verdict.status;
      assert i in RowsWith(ks, s);
      assert Count(counts, s) == |RowsWith(ks, s)| != 0;
    }
  }

  /** total == the sum of the status counts + the number of per-row problems. */
  lemma TotalIsCountsPlusProblems(ks: seq<Kind>, counts: map<string, nat>)
    requires CountsAre(ks, counts)
    ensures |DataRows(ks)| == SumOver(counts, counts.Keys) + |RowProblems(Complaints(ks))|
  {
    SumIsCardinality(ks, counts, counts.Keys);
    AllCounted(ks, counts);
    DataRowsAreAccountedFor(ks);
  }

  lemma {:induction false} NoComplaintsExactly(ks: seq<Kind>)
    ensures Complaints(ks) == [] <==> forall i | 0 <= i < |ks| :: Complaint(i, ks[i]) == []
    decreases |ks|
  {
    if ks != [] {
      var init, k := ks[..|ks| - 1], ks[|ks| - 1];
      NoComplaintsExactly(init);
      assert ks == init + [k];
      ComplaintsNext(init, k);
    }
  }

  // ----- the same in terms of the rows

  ghost predicate HasOpsTable(cs: seq<CellRow>) {
    exists i | 0 <= i < |cs| :: IsHeader(cs, i) && IsOpsTable(cs[i])
  }

  ghost function DataIndices(cs: seq<CellRow>): set<nat> {
    set i: nat | i < |cs| && IsData(cs, i)
  }

  /** What a clean roadmap is. */
  ghost predicate IsClean(cs: seq<CellRow>, minRows: int) {
    && HasOpsTable(cs)
    && (forall i | 0 <= i < |cs| && IsItemHeader(cs, i) :: STATUS_CELL in cs[i])
    && (forall i | 0 <= i < |cs| && IsData(cs, i) :: IsSound(cs, i))
    && |DataIndices(cs)| >= minRows
  }

  lemma KindsMean(cs: seq<CellRow>)
    ensures SeenOpsTable(Kinds(cs)) <==> HasOpsTable(cs)
    ensures DataRows(Kinds(cs)) == DataIndices(cs)
  {
    forall i: nat | i < |cs| ensures Kinds(cs)[i].Data? <==> IsData(cs, i) {
      KindMeaning(cs, i);
    }
    forall i: nat | i < |cs|
      ensures Kinds(cs)[i].Header? && Kinds(cs)[i].ops <==> IsHeader(cs, i) && IsOpsTable(cs[i])
    {
      KindMeaning(cs, i);
    }
  }

  lemma SilentExactly(cs: seq<CellRow>, i: nat)
    requires i < |cs|
    ensures Complaint(i, Kinds(cs)[i]) == [] <==>
            (IsItemHeader(cs, i) ==> STATUS_CELL in cs[i]) && (IsData(cs, i) ==> IsSound(cs, i))
  {
    KindMeaning(cs, i);
  }

  lemma CleanExactly(cs: seq<CellRow>, minRows: int)
    ensures IsClean(cs, minRows) <==>
            SeenOpsTable(Kinds(cs)) && Complaints(Kinds(cs)) == [] && |DataRows(Kinds(cs))| >= minRows
  {
    NoComplaintsExactly(Kinds(cs));
    KindsMean(cs);
    forall i: nat | i < |cs|
      ensures Complaint(i, Kinds(cs)[i]) == [] <==>
              (IsItemHeader(cs, i) ==> STATUS_CELL in cs[i]) && (IsData(cs, i) ==> IsSound(cs, i))
    {
      SilentExactly(cs, i);
    }
  }

  /** Row h is the last row before i that a separator follows. */
  predicate Heads(cs: seq<CellRow>, h: nat, i: nat) {
    && h < i < |cs| && IsSeparator(cs[h + 1])
    && forall j | h + 1 < j <= i :: !IsSeparator(cs[j])
  }

  lemma HeadsExactly(cs: seq<CellRow>, h: nat, i: nat)
    requires Heads(cs, h, i)
    ensures HeaderAbove(cs, i) == Some(h)
  {
    assert IsHeader(cs, h);
    assert forall j | h < j < i :: !IsHeader(cs, j);
  }

  /**
  What a clean roadmap shows: every row under the header of a table with a priority column, or
  of the operations table, that is neither separator nor header has as many cells as the header,
  and its last cell is one of the status words or names who blocks it.
  */
  lemma CleanMeans(cs: seq<CellRow>, minRows: int, h: nat, i: nat)
    requires IsClean(cs, minRows) && Heads(cs, h, i)
    requires !IsSeparator(cs[i]) && (i + 1 < |cs| ==> !IsSeparator(cs[i + 1]))
    requires "优先级" in cs[h] || (|cs[h]| >= 2 && cs[h][0] == "项" && cs[h][1] == "目标")
    ensures |cs[i]| == |cs[h]| > 0 && "状态" in cs[h]
    ensures var v := cs[i][|cs[i]| - 1];
            || v == "closed" || v == "open" || v == "decided"
            || exists who: string :: who != "" && v == "blocked-on:" + who
  {
    HeadsExactly(cs, h, i);
    assert IsData(cs, i) && IsSound(cs, i);
    assert IsItemHeader(cs, h);
    StatusOkExactly(cs[i][|cs[i]| - 1]);
  }

  /** A row that the check counts, under a header of this width. */
  predicate IsCountedRow(row: CellRow, width: nat) {
    VerdictOf(row, width).Counted?
  }

  /**
  The check looks at the last cell and accepts a header with its status cell anywhere. A counted
  row has a canonical status in a given column, whatever its cells, exactly when that column is the last.
  */
  lemma StatusColumnExactly(header: CellRow, c: nat)
    requires c < |header|
    ensures (forall row | IsCountedRow(row, |header|) :: StatusOk(row[c])) <==> c == |header| - 1
  {
    if c != |header| - 1 {
      var row: CellRow := seq(|header|, i requires 0 <= i < |header| => if i == |header| - 1 then "open" else "");
      assert IsCountedRow(row, |header|) && row[c] == "";
      assert !StatusOk("");
    }
  }

  /** The exit status: 0 clean, 1 problems, 2 the check could not run. `doc` is None when the file is missing. */
  method RunCheck(doc: Option<seq<string>>, minRows: int) returns (exit: int, cs: seq<CellRow>)
    ensures doc.None? ==> exit == 2
    ensures doc.Some? ==>
              && AreCells(doc.value, cs) && 0 <= exit <= 2
              && (exit == 0 <==> IsClean(cs, minRows))
              && (exit == 2 <==> !HasOpsTable(cs))
  {
    if doc.None? {
      return 2, [];
    }
    cs := ReadRows(doc.value);
    var res := CheckRows(cs, minRows);
    CleanExactly(cs, minRows);
    KindsMean(cs);
    exit := if res.Lost? then 2 else if res.problems != [] then 1 else 0;
  }
}
