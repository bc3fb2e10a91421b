/**
  The two machine-checked comment blocks of the ledger. A line of the document is known
  here by whether it contains the BEGIN mark, whether it contains the END mark, and what
  row it spells; the same code reads the gate block and the transition block.
 */
module LedgerBlocks {
  import opened Prelude
  import opened LedgerRules

  datatype Row<+T> = NotARow | Malformed | Parsed(value: T)

  datatype Line<+T> = Line(begin: bool, end: bool, row: Row<T>)

  // ---- the delimiters ---------------------------------------------------------------------

  predicate Delimits<T>(lines: seq<Line<T>>, b: nat, e: nat) {
    b < e < |lines|
    && (forall i :: 0 <= i < |lines| ==> (lines[i].begin <==> i == b))
    && (forall i :: 0 <= i < |lines| ==> (lines[i].end <==> i == e))
  }

  /** One BEGIN line, one END line, the first strictly before the second. */
  ghost predicate WellFormed<T(!new)>(lines: seq<Line<T>>) {
    exists b, e :: Delimits(lines, b, e)
  }

  /** The line numbers that carry a mark, in order. */
  predicate Lists<T>(lines: seq<Line<T>>, marks: seq<nat>, mark: Line<T> -> bool) {
    (forall k :: 0 <= k < |marks| ==> marks[k] < |lines| && mark(lines[marks[k]]))
    && (forall j, k :: 0 <= j < k < |marks| ==> marks[j] < marks[k])
    && (forall i :: 0 <= i < |lines| && mark(lines[i]) ==> i in marks)
  }

  function DelimiterErrors(collapsed: bool, begins: seq<nat>, ends: seq<nat>): seq<BlockError> {
    (if collapsed then [MarksCollapsed] else [])
    + (if |begins| != 1 then [BeginCount(|begins|)] else [])
    + (if |ends| != 1 then [EndCount(|ends|)] else [])
    + (if |begins| == 1 && |ends| == 1 && begins[0] >= ends[0] then [EndBeforeBegin] else [])
  }

  predicate Collapsed<T>(lines: seq<Line<T>>) {
    exists i :: 0 <= i < |lines| && lines[i].begin && lines[i].end
  }

  method MarkedLines<T>(lines: seq<Line<T>>, mark: Line<T> -> bool) returns (marks: seq<nat>)
    ensures Lists(lines, marks, mark)
  {
    marks := [];
    for i := 0 to |lines|
      invariant forall k :: 0 <= k < |marks| ==> marks[k] < i && mark(lines[marks[k]])
      invariant forall j, k :: 0 <= j < k < |marks| ==> marks[j] < marks[k]
      invariant forall j :: 0 <= j < i && mark(lines[j]) ==> j in marks
    {
      if mark(lines[i]) {
        marks := marks + [i];
      }
    }
  }

  lemma SilentMeansWellFormed<T>(lines: seq<Line<T>>, begins: seq<nat>, ends: seq<nat>)
    requires Lists(lines, begins, (l: Line<T>) => l.begin) && Lists(lines, ends, (l: Line<T>) => l.end)
    requires DelimiterErrors(Collapsed(lines), begins, ends) == []
    ensures Delimits(lines, begins[0], ends[0])
  {
    assert begins == [begins[0]] && ends == [ends[0]];
  }

  lemma OnlyOneMark(marks: seq<nat>, m: nat)
    requires forall j, k :: 0 <= j < k < |marks| ==> marks[j] < marks[k]
    ensures m in marks && (forall k :: 0 <= k < |marks| ==> marks[k] == m) ==> marks == [m]
  {
    if |marks| > 1 {
      assert marks[0] < marks[1];
    }
  }

  lemma WellFormedIsSilent<T>(lines: seq<Line<T>>, begins: seq<nat>, ends: seq<nat>, b: nat, e: nat)
    requires Lists(lines, begins, (l: Line<T>) => l.begin) && Lists(lines, ends, (l: Line<T>) => l.end)
    requires Delimits(lines, b, e)
    ensures DelimiterErrors(Collapsed(lines), begins, ends) == []
  {
    assert lines[b].begin && lines[e].end;
    assert b in begins && e in ends;
    OnlyOneMark(begins, b);
    OnlyOneMark(ends, e);
  }

  /** The errors that these mark lines call for, in order. */
  predicate DelimiterReport<T>(lines: seq<Line<T>>, begins: seq<nat>, ends: seq<nat>, errors: seq<BlockError>) {
    Lists(lines, begins, (l: Line<T>) => l.begin) && Lists(lines, ends, (l: Line<T>) => l.end)
    && errors == DelimiterErrors(Collapsed(lines), begins, ends)
  }

  ghost predicate MarkReport<T(!new)>(lines: seq<Line<T>>, errors: seq<BlockError>) {
    exists begins, ends :: DelimiterReport(lines, begins, ends, errors)
  }

  /** How many lines carry a mark. */
  ghost function Marked<T(!new)>(lines: seq<Line<T>>, mark: Line<T> -> bool): nat {
    |set i: nat | i < |lines| && mark(lines[i])|
  }

  ghost function Numbers(marks: seq<nat>): set<nat> {
    set m | m in marks
  }

  lemma {:induction false} AscendingCount(marks: seq<nat>)
    requires forall j, k :: 0 <= j < k < |marks| ==> marks[j] < marks[k]
    ensures |Numbers(marks)| == |marks|
  {
    if marks == [] {
      assert Numbers(marks) == {};
    } else {
      var rest, m := Init(marks), Last(marks);
      AscendingCount(rest);
      assert marks == rest + [m];
      assert Numbers(marks) == Numbers(rest) + {m} && m !in rest;
    }
  }

  lemma ListsCount<T(!new)>(lines: seq<Line<T>>, marks: seq<nat>, mark: Line<T> -> bool)
    requires Lists(lines, marks, mark)
    ensures |marks| == Marked(lines, mark)
  {
    AscendingCount(marks);
    assert Numbers(marks) == set i: nat | i < |lines| && mark(lines[i]);
  }

  lemma DelimiterErrorsName(collapsed: bool, begins: seq<nat>, ends: seq<nat>, error: BlockError)
    ensures error in DelimiterErrors(collapsed, begins, ends) <==>
      || (error == MarksCollapsed && collapsed)
      || (error == BeginCount(|begins|) && |begins| != 1)
      || (error == EndCount(|ends|) && |ends| != 1)
      || (error == EndBeforeBegin && |begins| == 1 && |ends| == 1 && begins[0] >= ends[0])
  {
  }

  /** The only BEGIN line does not come before the only END line. */
  ghost predicate WrongOrder<T(!new)>(lines: seq<Line<T>>) {
    && Marked(lines, (l: Line<T>) => l.begin) == 1 && Marked(lines, (l: Line<T>) => l.end) == 1
    && exists b, e :: 0 <= e <= b < |lines| && lines[b].begin && lines[e].end
  }

  lemma WrongOrderIff<T(!new)>(lines: seq<Line<T>>, begins: seq<nat>, ends: seq<nat>)
    requires Lists(lines, begins, (l: Line<T>) => l.begin) && Lists(lines, ends, (l: Line<T>) => l.end)
    requires |begins| == 1 && |ends| == 1
    ensures begins[0] >= ends[0] <==> exists b, e :: 0 <= e <= b < |lines| && lines[b].begin && lines[e].end
  {
    assert lines[begins[0]].begin && lines[ends[0]].end;
    forall b, e | 0 <= e <= b < |lines| && lines[b].begin && lines[e].end
      ensures b == begins[0] && e == ends[0]
    {
      assert b in begins && e in ends;
    }
  }

  /** Each defect of the marks is named if it is there: two marks on a line, a wrong number of either, a wrong order. */
  lemma MarkReportNames<T(!new)>(lines: seq<Line<T>>, errors: seq<BlockError>, error: BlockError)
    requires MarkReport(lines, errors)
    ensures var begins, ends := Marked(lines, (l: Line<T>) => l.begin), Marked(lines, (l: Line<T>) => l.end);
      error in errors <==>
        || (error == MarksCollapsed && exists i :: 0 <= i < |lines| && lines[i].begin && lines[i].end)
        || (error == BeginCount(begins) && begins != 1)
        || (error == EndCount(ends) && ends != 1)
        || (error == EndBeforeBegin && WrongOrder(lines))
  {
    var begins, ends :| DelimiterReport(lines, begins, ends, errors);
    ListsCount(lines, begins, (l: Line<T>) => l.begin);
    ListsCount(lines, ends, (l: Line<T>) => l.end);
    DelimiterErrorsName(Collapsed(lines), begins, ends, error);
    if |begins| == 1 && |ends| == 1 { WrongOrderIff(lines, begins, ends); }
  }

  /** Says nothing exactly when the block is well formed; otherwise names every defect of the marks. */
  method CheckBlockDelimiters<T(!new)>(lines: seq<Line<T>>) returns (errors: seq<BlockError>)
    ensures errors == [] <==> WellFormed(lines)
    ensures MarkReport(lines, errors)
  {
    var begins := MarkedLines(lines, (l: Line<T>) => l.begin);
    var ends := MarkedLines(lines, (l: Line<T>) => l.end);
    var both := [];
    for k := 0 to |begins|
      invariant both == [] <==> forall j :: 0 <= j < k ==> begins[j] !in ends
    {
      if begins[k] in ends {
        both := both + [begins[k]];
      }
    }
    assert both != [] <==> Collapsed(lines) by {
      forall i | 0 <= i < |lines| && lines[i].begin && lines[i].end
        ensures both != []
      {
        assert i in begins && i in ends;
      }
    }
    errors := [];
    if both != [] {
      errors := errors + [MarksCollapsed];
    }
    if |begins| != 1 {
      errors := errors + [BeginCount(|begins|)];
    }
    if |ends| != 1 {
      errors := errors + [EndCount(|ends|)];
    }
    if |begins| == 1 && |ends| == 1 && begins[0] >= ends[0] {
      errors := errors + [EndBeforeBegin];
    }
    assert DelimiterReport(lines, begins, ends, errors);
    if errors == [] {
      SilentMeansWellFormed(lines, begins, ends);
    }
    forall b, e | Delimits(lines, b, e)
      ensures errors == []
    {
      WellFormedIsSilent(lines, begins, ends, b, e);
    }
  }

  // ---- the flag-driven reading ---------------------------------------------------------------

  /** The flag after these lines: END is tested first. */
  predicate Inside<T>(lines: seq<Line<T>>) {
    lines != [] && !Last(lines).end && (Last(lines).begin || Inside(Init(lines)))
  }

  /** Some line opened the block. */
  predicate Seen<T>(lines: seq<Line<T>>) {
    exists i :: 0 <= i < |lines| && lines[i].begin && !lines[i].end
  }

  /** The line after these is read as a row. */
  predicate ReadsRow<T>(before: seq<Line<T>>, line: Line<T>) {
    Inside(before) && !line.end && !line.begin
  }

  /** The rows the flag-driven loop honours. */
  function Honoured<T>(lines: seq<Line<T>>): seq<T> {
    if lines == [] then []
    else if ReadsRow(Init(lines), Last(lines)) && Last(lines).row.Parsed? then
      Honoured(Init(lines)) + [Last(lines).row.value]
    else Honoured(Init(lines))
  }

  /** The line numbers it reports as malformed rows. */
  function Reported<T>(lines: seq<Line<T>>): seq<nat> {
    if lines == [] then []
    else if ReadsRow(Init(lines), Last(lines)) && Last(lines).row.Malformed? then Reported(Init(lines)) + [|lines| - 1]
    else Reported(Init(lines))
  }

  // ---- what is honoured, stated by position -----------------------------------------------------

  function ParsedRows<T>(lines: seq<Line<T>>): seq<T> {
    if lines == [] then []
    else if Last(lines).row.Parsed? then ParsedRows(Init(lines)) + [Last(lines).row.value]
    else ParsedRows(Init(lines))
  }

  function MalformedFrom<T>(lines: seq<Line<T>>, offset: nat): seq<nat> {
    if lines == [] then []
    else if Last(lines).row.Malformed? then MalformedFrom(Init(lines), offset) + [offset + |lines| - 1]
    else MalformedFrom(Init(lines), offset)
  }

  lemma {:induction false} NothingBeforeBegin<T>(lines: seq<Line<T>>)
    requires forall i :: 0 <= i < |lines| ==> !lines[i].begin
    ensures Honoured(lines) == [] && Reported(lines) == [] && !Inside(lines)
  {
    if lines != [] {
      NothingBeforeBegin(Init(lines));
    }
  }

  /**
    From an opened block with no END line after it, every row to the end of the document is read: why
    the marks are counted.
   */
  lemma {:induction false} OpenBlockReadsOn<T>(lines: seq<Line<T>>, b: nat)
    requires b < |lines|
    requires forall i :: 0 <= i < |lines| ==> (lines[i].begin <==> i == b) && !lines[i].end
    ensures Honoured(lines) == ParsedRows(lines[b + 1..]) && Inside(lines)
    ensures Reported(lines) == MalformedFrom(lines[b + 1..], b + 1)
  {
    if b == |lines| - 1 {
      NothingBeforeBegin(Init(lines));
    } else {
      OpenBlockReadsOn(Init(lines), b);
      assert Init(lines[b + 1..]) == Init(lines)[b + 1..];
    }
  }

  /** After the END line nothing is read until another BEGIN line. */
  lemma {:induction false} ClosedBlockReadsNothing<T>(lines: seq<Line<T>>, e: nat)
    requires e < |lines| && lines[e].end
    requires forall i :: e < i < |lines| ==> !lines[i].begin
    ensures Honoured(lines) == Honoured(lines[..e]) && Reported(lines) == Reported(lines[..e]) && !Inside(lines)
  {
    if e == |lines| - 1 {
      assert Init(lines) == lines[..e];
    } else {
      ClosedBlockReadsNothing(Init(lines), e);
      assert Init(lines)[..e] == lines[..e];
    }
  }

  /**
    In a well-formed block exactly the rows strictly between the marks count, in file
    order; a row among them that does not parse is reported.
   */
  lemma ExactlyTheBlockCounts<T>(lines: seq<Line<T>>, b: nat, e: nat)
    requires Delimits(lines, b, e)
    ensures Honoured(lines) == ParsedRows(lines[b + 1..e])
    ensures Reported(lines) == MalformedFrom(lines[b + 1..e], b + 1)
    ensures Seen(lines) && !Inside(lines)
  {
    ClosedBlockReadsNothing(lines, e);
    OpenBlockReadsOn(lines[..e], b);
    assert lines[..e][b + 1..] == lines[b + 1..e];
    assert lines[b].begin && !lines[b].end;
  }

  /** Nothing reported between the marks means every row there was honoured. */
  lemma {:induction false} NoneIsSkipped<T>(lines: seq<Line<T>>, offset: nat, i: nat)
    requires i < |lines|
    ensures lines[i].row.Malformed? ==> offset + i in MalformedFrom(lines, offset)
    ensures lines[i].row.Parsed? ==> lines[i].row.value in ParsedRows(lines)
  {
    if i < |lines| - 1 {
      NoneIsSkipped(Init(lines), offset, i);
    }
  }

  /** Rows are read line by line, in file order. */
  lemma {:induction false} RowsInFileOrder<T>(before: seq<Line<T>>, line: Line<T>, after: seq<Line<T>>)
    ensures ParsedRows(before + [line] + after) ==
      ParsedRows(before) + (if line.row.Parsed? then [line.row.value] else []) + ParsedRows(after)
  {
    if after == [] {
      assert before + [line] + after == before + [line];
      assert Init(before + [line]) == before;
    } else {
      RowsInFileOrder(before, line, Init(after));
      assert Init(before + [line] + after) == before + [line] + Init(after);
    }
  }

  /** What a line adds to the running reading. */
  lemma ReadOn<T>(lines: seq<Line<T>>, i: nat)
    requires i < |lines|
    ensures Init(lines[..i + 1]) == lines[..i] && Last(lines[..i + 1]) == lines[i]
    ensures Inside(lines[..i + 1]) <==> !lines[i].end && (lines[i].begin || Inside(lines[..i]))
    ensures Seen(lines[..i + 1]) <==> Seen(lines[..i]) || (lines[i].begin && !lines[i].end)
    ensures Honoured(lines[..i + 1]) ==
      if ReadsRow(lines[..i], lines[i]) && lines[i].row.Parsed? then Honoured(lines[..i]) + [lines[i].row.value]
      else Honoured(lines[..i])
    ensures Reported(lines[..i + 1]) ==
      if ReadsRow(lines[..i], lines[i]) && lines[i].row.Malformed? then Reported(lines[..i]) + [i]
      else Reported(lines[..i])
  {
    assert Init(lines[..i + 1]) == lines[..i];
    forall j | 0 <= j < i && lines[j].begin && !lines[j].end
      ensures Seen(lines[..i + 1]) && Seen(lines[..i])
    {
      assert lines[..i + 1][j] == lines[j] && lines[..i][j] == lines[j];
    }
    if lines[i].begin && !lines[i].end {
      assert lines[..i + 1][i] == lines[i];
    }
  }

  // ---- the transition log ------------------------------------------------------------------------

  function TxnErrors(reported: seq<nat>): seq<Violation> {
    if reported == [] then [] else TxnErrors(Init(reported)) + [TxnBlock(MalformedRow(Last(reported)))]
  }

  lemma TxnErrorsExtend(reported: seq<nat>, i: nat)
    ensures TxnErrors(reported + [i]) == TxnErrors(reported) + [TxnBlock(MalformedRow(i))]
  {
    assert Init(reported + [i]) == reported;
  }

  /** The loop over the lines: the rows, the malformed ones, and whether a block was opened. */
  method ReadTxnRows(lines: seq<Line<Txn>>) returns (transitions: seq<Txn>, errors: seq<Violation>, seen: bool)
    ensures transitions == Honoured(lines) && seen == Seen(lines)
    ensures errors == TxnErrors(Reported(lines))
  {
    transitions, errors := [], [];
    var inside := false;
    seen := false;
    for i := 0 to |lines|
      invariant inside == Inside(lines[..i]) && seen == Seen(lines[..i])
      invariant transitions == Honoured(lines[..i])
      invariant errors == TxnErrors(Reported(lines[..i]))
    {
      ReadOn(lines, i);
      var line := lines[i];
      if line.end {
        inside := false;
      } else if line.begin {
        inside, seen := true, true;
      } else if inside {
        match line.row
        case NotARow =>
        case Malformed =>
          errors := errors + [TxnBlock(MalformedRow(i))];
          TxnErrorsExtend(Reported(lines[..i]), i);
        case Parsed(t) =>
          transitions := transitions + [t];
      }
    }
    assert lines[..|lines|] == lines;
  }

  function TxnBlocks(broken: seq<BlockError>): seq<Violation> {
    seq(|broken|, k requires 0 <= k < |broken| => TxnBlock(broken[k]))
  }

  /** The defects of the marks, the malformed rows in file order, and whether there is a block at all. */
  ghost predicate TxnReport(lines: seq<Line<Txn>>, broken: seq<BlockError>, errors: seq<Violation>) {
    && MarkReport(lines, broken)
    && errors == TxnBlocks(broken) + TxnErrors(Reported(lines)) + (if Seen(lines) then [] else [TxnBlock(BlockMissing)])
  }

  /** The transition block: its rows in file order, and what is wrong with it. */
  method ParseTransitionLog(lines: seq<Line<Txn>>) returns (transitions: seq<Txn>, errors: seq<Violation>)
    ensures transitions == Honoured(lines)
    ensures errors == [] <==> WellFormed(lines) && Reported(lines) == []
    ensures exists broken :: TxnReport(lines, broken, errors)
  {
    var broken := CheckBlockDelimiters(lines);
    errors := TxnBlocks(broken);
    var rowErrors, seen;
    transitions, rowErrors, seen := ReadTxnRows(lines);
    errors := errors + rowErrors + if seen then [] else [TxnBlock(BlockMissing)];
    assert TxnReport(lines, broken, errors);
    TxnErrorsName(Reported(lines));
    WellFormedIsSeen(lines);
  }

  lemma {:induction false} TxnErrorsName(reported: seq<nat>)
    ensures TxnErrors(reported) == [] <==> reported == []
    ensures forall i :: i in reported ==> TxnBlock(MalformedRow(i)) in TxnErrors(reported)
  {
    if reported != [] {
      TxnErrorsName(Init(reported));
    }
  }

  lemma WellFormedIsSeen<T(!new)>(lines: seq<Line<T>>)
    ensures WellFormed(lines) ==> Seen(lines)
  {
    if WellFormed(lines) {
      var b, e :| Delimits(lines, b, e);
      ExactlyTheBlockCounts(lines, b, e);
    }
  }

  // ---- the gate registry ----------------------------------------------------------------------------

  datatype GateRow = GateRow(step: string, gate: Gate)

  /** Each row appended to its step's list. */
  function Registry(rows: seq<GateRow>): Gates {
    if rows == [] then map[]
    else
      var before := Registry(Init(rows));
      before[Last(rows).step := GatesOf(before, Last(rows).step) + [Last(rows).gate]]
  }

  /** A step's gates, in file order. */
  function GatesIn(rows: seq<GateRow>, step: string): seq<Gate> {
    if rows == [] then []
    else if Last(rows).step == step then GatesIn(Init(rows), step) + [Last(rows).gate]
    else GatesIn(Init(rows), step)
  }

  predicate Names(rows: seq<GateRow>, step: string) {
    exists i :: 0 <= i < |rows| && rows[i].step == step
  }

  /** The registry holds for each step its own rows in file order, and nothing else. */
  lemma {:induction false} RegistryHolds(rows: seq<GateRow>, step: string)
    ensures GatesOf(Registry(rows), step) == GatesIn(rows, step)
    ensures step in Registry(rows) <==> Names(rows, step)
  {
    if rows != [] {
      RegistryHolds(Init(rows), step);
      NamesExtends(Init(rows), Last(rows), step);
      assert rows == Init(rows) + [Last(rows)];
    }
  }

  lemma NamesExtends(rows: seq<GateRow>, last: GateRow, step: string)
    ensures Names(rows + [last], step) <==> Names(rows, step) || last.step == step
  {
    assert forall i :: 0 <= i < |rows| ==> (rows + [last])[i] == rows[i];
    assert (rows + [last])[|rows|] == last;
  }

  predicate AllKnown(rows: seq<GateRow>) {
    rows == [] || (AllKnown(Init(rows)) && !Last(rows).gate.state.UnknownGate?)
  }

  /** The steps the rows name, in the order in which they are first named. */
  function StepsOf(rows: seq<GateRow>): seq<string> {
    if rows == [] then []
    else if Last(rows).step in StepsOf(Init(rows)) then StepsOf(Init(rows))
    else StepsOf(Init(rows)) + [Last(rows).step]
  }

  /** The keys of the registry, each once. */
  ghost predicate Keys(steps: seq<string>, gates: Gates) {
    (forall i, j :: 0 <= i < j < |steps| ==> steps[i] != steps[j]) && (forall step :: step in steps <==> step in gates)
  }

  lemma {:induction false} StepsAreKeys(rows: seq<GateRow>)
    ensures Keys(StepsOf(rows), Registry(rows))
  {
    if rows != [] {
      StepsAreKeys(Init(rows));
    }
  }

  /** What the rows that are read call for, in file order: a malformed row, or a state nobody knows. */
  function GateRowErrors(lines: seq<Line<GateRow>>): seq<Violation> {
    if lines == [] then []
    else
      var before, line := GateRowErrors(Init(lines)), Last(lines);
      if !ReadsRow(Init(lines), line) then before
      else match line.row
        case NotARow => before
        case Malformed => before + [GateBlock(MalformedRow(|lines| - 1))]
        case Parsed(row) =>
          if row.gate.state.UnknownGate? then before + [UnknownGateState(row.step, row.gate.state.token)] else before
  }

  /** Exactly the malformed lines and the rows with an unknown state are named. */
  lemma {:induction false} GateRowErrorsName(lines: seq<Line<GateRow>>, i: nat, step: string, token: string)
    ensures GateRowErrors(lines) == [] <==> Reported(lines) == [] && AllKnown(Honoured(lines))
    ensures GateBlock(MalformedRow(i)) in GateRowErrors(lines) <==> i in Reported(lines)
    ensures UnknownGateState(step, token) in GateRowErrors(lines) <==> UnknownIn(Honoured(lines), step, token)
  {
    if lines != [] {
      GateRowErrorsName(Init(lines), i, step, token);
      var rows, line := Honoured(Init(lines)), Last(lines);
      if ReadsRow(Init(lines), line) && line.row.Parsed? {
        UnknownExtends(rows, line.row.value, step, token);
        assert Init(rows + [line.row.value]) == rows;
      }
    }
  }

  /** Some row of the step has this state, which nobody knows. */
  predicate UnknownIn(rows: seq<GateRow>, step: string, token: string) {
    exists k :: 0 <= k < |rows| && UnknownRow(rows[k], step, token)
  }

  predicate UnknownRow(row: GateRow, step: string, token: string) {
    row.step == step && row.gate.state == UnknownGate(token)
  }

  lemma UnknownExtends(rows: seq<GateRow>, row: GateRow, step: string, token: string)
    ensures UnknownIn(rows + [row], step, token) <==> UnknownIn(rows, step, token) || UnknownRow(row, step, token)
  {
    assert forall k :: 0 <= k < |rows| ==> (rows + [row])[k] == rows[k];
    assert (rows + [row])[|rows|] == row;
  }

  /** The loop over the lines: the registry, the order of its keys, the row errors, and whether a block was opened. */
  method ReadGateRows(lines: seq<Line<GateRow>>)
      returns (gates: Gates, steps: seq<string>, errors: seq<Violation>, seen: bool)
    ensures gates == Registry(Honoured(lines)) && steps == StepsOf(Honoured(lines)) && seen == Seen(lines)
    ensures errors == GateRowErrors(lines)
  {
    gates, steps, errors := map[], [], [];
    var inside := false;
    seen := false;
    for i := 0 to |lines|
      invariant inside == Inside(lines[..i]) && seen == Seen(lines[..i])
      invariant gates == Registry(Honoured(lines[..i])) && steps == StepsOf(Honoured(lines[..i]))
      invariant errors == GateRowErrors(lines[..i])
    {
      ReadOn(lines, i);
      var line := lines[i];
      if line.end {
        inside := false;
      } else if line.begin {
        inside, seen := true, true;
      } else if inside {
        match line.row
        case NotARow =>
        case Malformed =>
          errors := errors + [GateBlock(MalformedRow(i))];
        case Parsed(row) =>
          if row.gate.state.UnknownGate? {
            errors := errors + [UnknownGateState(row.step, row.gate.state.token)];
          }
          gates, steps := Record(gates, steps, row, Honoured(lines[..i]));
      }
    }
    assert lines[..|lines|] == lines;
  }

  function GateBlocks(broken: seq<BlockError>): seq<Violation> {
    seq(|broken|, k requires 0 <= k < |broken| => GateBlock(broken[k]))
  }

  /** The defects of the marks, those of the rows in file order, and whether there is a block at all. */
  ghost predicate GateReport(lines: seq<Line<GateRow>>, broken: seq<BlockError>, errors: seq<Violation>) {
    && MarkReport(lines, broken)
    && errors == GateBlocks(broken) + GateRowErrors(lines) + (if Seen(lines) then [] else [GateBlock(BlockMissing)])
  }

  /**
    The gate block: the registry it declares, with its keys in order, and what is wrong with
    it. A row with an unknown state is reported and still kept.
   */
  method ParseGateRegistry(lines: seq<Line<GateRow>>) returns (gates: Gates, steps: seq<string>, errors: seq<Violation>)
    ensures gates == Registry(Honoured(lines)) && steps == StepsOf(Honoured(lines))
    ensures errors == [] <==> WellFormed(lines) && Reported(lines) == [] && AllKnown(Honoured(lines))
    ensures exists broken :: GateReport(lines, broken, errors)
  {
    var broken := CheckBlockDelimiters(lines);
    errors := GateBlocks(broken);
    var rowErrors, seen;
    gates, steps, rowErrors, seen := ReadGateRows(lines);
    errors := errors + rowErrors + if seen then [] else [GateBlock(BlockMissing)];
    assert GateReport(lines, broken, errors);
    GateRowErrorsName(lines, 0, "", "");
    WellFormedIsSeen(lines);
  }

  /** The list of the row's step, made empty if it was missing, gets the row. */
  method Record(gates: Gates, steps: seq<string>, row: GateRow, ghost rows: seq<GateRow>)
      returns (updated: Gates, order: seq<string>)
    requires gates == Registry(rows) && steps == StepsOf(rows)
    ensures updated == Registry(rows + [row]) && order == StepsOf(rows + [row])
  {
    StepsAreKeys(rows);
    var entries := if row.step in gates then gates[row.step] else [];
    order := if row.step in gates then steps else steps + [row.step];
    updated := gates[row.step := entries + [row.gate]];
    assert Init(rows + [row]) == rows;
  }
}
