/**
  The progress-ledger validator: its rules, and the declarative reading of what a
  clean ledger is. Steps are identifiers; the text has been cut into classified lines.
 */
module LedgerRules {
  import opened Prelude

  // ---- states ---------------------------------------------------------------------------

  /** A canonical status token. */
  datatype Status =
    Pending | InProgress | Passed | VerifyPending | Blocked | Reopened | Regressed | Unknown(token: string)

  function Lower(c: char): char {
    if 'A' <= c <= 'Z' then ((c as int) + 32) as char else c
  }

  predicate Blank(c: char) {
    c == ' ' || c == '\t' || c == '\n' || c == '\r'
  }

  function Strip(s: string): string {
    if s == "" then ""
    else if Blank(s[0]) then Strip(s[1..])
    else if Blank(Last(s)) then Strip(Init(s))
    else s
  }

  function Respelled(s: string): string {
    if s == "" then "" else [if s[0] == '-' then '_' else Lower(s[0])] + Respelled(s[1..])
  }

  function TokenStatus(token: string): Status {
    if token == "pending" then Pending
    else if token == "in_progress" then InProgress
    else if token == "passed" then Passed
    else if token == "verify_pending" then VerifyPending
    else if token == "blocked" then Blocked
    else if token == "reopened" then Reopened
    else if token == "regressed" then Regressed
    else Unknown(token)
  }

  /** Spelling and separators are data, not identity. */
  function CanonState(raw: string): Status {
    TokenStatus(Respelled(Strip(raw)))
  }

  /** The edges of the ledger state machine. */
  predicate Legal(prev: Status, next: Status) {
    match prev
    case Pending => next in {InProgress, Passed, VerifyPending, Blocked}
    case InProgress => next in {Passed, VerifyPending, Blocked, Reopened, Regressed}
    case VerifyPending => next in {Passed, Blocked}
    case Blocked => next in {InProgress, Passed}
    case Passed => next in {Reopened, Regressed}
    case Reopened => next in {InProgress, Passed}
    case Regressed => next in {InProgress, Passed}
    case Unknown(_) => false
  }

  predicate Outstanding(s: Status) {
    s == VerifyPending || s == Blocked
  }

  // ---- rows -----------------------------------------------------------------------------

  datatype Txn = Txn(step: string, prev: Status, next: Status)

  datatype GateState = PendingMandatory | Satisfied | DeferredProgress | ReleaseGate | UnknownGate(token: string)

  datatype Gate = Gate(state: GateState, note: string)

  type Statuses = map<string, string>
  type Gates = map<string, seq<Gate>>

  datatype Violation =
    | NotInTable(step: string)
    | UnknownPrevious(step: string)
    | UnknownNext(step: string)
    | BrokenChain(step: string, prev: Status, current: Status)
    | IllegalEdge(step: string, prev: Status, next: Status)
    | Unlogged(step: string)
    | Diverged(step: string, derived: Status, table: Status)
    | GateOffTable(step: string)
    | UnmetGate(step: string, note: string)
    | Unclassified(step: string)
    | NoEvidence(step: string)
    | NoTable
    | GateBlock(error: BlockError)
    | TxnBlock(error: BlockError)
    | UnknownGateState(step: string, token: string)

  datatype BlockError =
    | MarksCollapsed
    | BeginCount(n: nat)
    | EndCount(n: nat)
    | EndBeforeBegin
    | MalformedRow(line: nat)
    | BlockMissing

  // ---- replaying the log -------------------------------------------------------------------

  /** The state the log leaves a step in. */
  function Derived(txns: seq<Txn>, step: string): Status {
    if txns == [] then Pending else if Last(txns).step == step then Last(txns).next else Derived(Init(txns), step)
  }

  /** What the replay reports about one row, given the state it found the step in. */
  function RowViolations(statuses: Statuses, current: Status, t: Txn): seq<Violation> {
    (if t.step in statuses then [] else [NotInTable(t.step)])
    + (if t.prev.Unknown? then [UnknownPrevious(t.step)] else [])
    + (if t.next.Unknown? then [UnknownNext(t.step)] else [])
    + (if t.prev != current then [BrokenChain(t.step, t.prev, current)]
       else if !Legal(t.prev, t.next) then [IllegalEdge(t.step, t.prev, t.next)] else [])
  }

  function LogViolations(statuses: Statuses, txns: seq<Txn>): seq<Violation> {
    if txns == [] then []
    else LogViolations(statuses, Init(txns))
         + RowViolations(statuses, Derived(Init(txns), Last(txns).step), Last(txns))
  }

  predicate Mentions(txns: seq<Txn>, step: string) {
    exists i :: 0 <= i < |txns| && txns[i].step == step
  }

  /** What the table check reports about one step of the table. */
  function TableViolation(statuses: Statuses, txns: seq<Txn>, step: string): Option<Violation>
    requires step in statuses
  {
    var table := CanonState(statuses[step]);
    if table == Pending then None
    else if !Mentions(txns, step) then Some(Unlogged(step))
    else if Derived(txns, step) != table then Some(Diverged(step, Derived(txns, step), table))
    else None
  }

  // ---- the declarative reading of parity -----------------------------------------------------

  /** The rows of one step, in order. */
  function RowsOf(txns: seq<Txn>, step: string): seq<Txn> {
    if txns == [] then []
    else RowsOf(Init(txns), step) + if Last(txns).step == step then [Last(txns)] else []
  }

  function PathEnd(rows: seq<Txn>): Status {
    if rows == [] then Pending else Last(rows).next
  }

  /** A walk of the state machine from pending, each row starting where the one before ended. */
  predicate LegalPath(rows: seq<Txn>) {
    rows == []
      || (LegalPath(Init(rows)) && Last(rows).prev == PathEnd(Init(rows)) && Legal(Last(rows).prev, Last(rows).next))
  }

  ghost predicate AllInTable(statuses: Statuses, txns: seq<Txn>) {
    forall t :: t in txns ==> t.step in statuses
  }

  ghost predicate AllLegal(txns: seq<Txn>) {
    forall step :: LegalPath(RowsOf(txns, step))
  }

  /** The step's log, if its cell does not say pending, is there and ends where the cell says. */
  predicate Matches(statuses: Statuses, txns: seq<Txn>, step: string)
    requires step in statuses
  {
    CanonState(statuses[step]) != Pending ==>
      RowsOf(txns, step) != [] && PathEnd(RowsOf(txns, step)) == CanonState(statuses[step])
  }

  ghost predicate TableMatches(statuses: Statuses, txns: seq<Txn>) {
    forall step :: step in statuses ==> Matches(statuses, txns, step)
  }

  /** What a ledger in parity is. */
  ghost predicate InParity(statuses: Statuses, txns: seq<Txn>) {
    AllInTable(statuses, txns) && AllLegal(txns) && TableMatches(statuses, txns)
  }

  /** A legal path read row by row. */
  lemma {:induction false} LegalPathRowByRow(rows: seq<Txn>, k: nat)
    requires LegalPath(rows) && k < |rows|
    ensures rows[k].prev == (if k == 0 then Pending else rows[k - 1].next) && Legal(rows[k].prev, rows[k].next)
  {
    if k < |rows| - 1 {
      LegalPathRowByRow(Init(rows), k);
    }
  }

  lemma {:induction false} DerivedIsPathEnd(txns: seq<Txn>, step: string)
    ensures Derived(txns, step) == PathEnd(RowsOf(txns, step))
    ensures Mentions(txns, step) <==> RowsOf(txns, step) != []
  {
    if txns != [] {
      DerivedIsPathEnd(Init(txns), step);
      assert txns == Init(txns) + [Last(txns)];
      if Last(txns).step == step {
        assert txns[|txns| - 1].step == step;
      } else {
        assert RowsOf(txns, step) == RowsOf(Init(txns), step);
        assert forall i :: 0 <= i < |txns| - 1 ==> Init(txns)[i] == txns[i];
      }
    }
  }

  lemma RowIsClean(statuses: Statuses, current: Status, t: Txn)
    ensures RowViolations(statuses, current, t) == [] <==>
      t.step in statuses && t.prev == current && Legal(t.prev, t.next)
  {
  }

  lemma TableExtends(statuses: Statuses, rest: seq<Txn>, t: Txn)
    ensures AllInTable(statuses, rest + [t]) <==> AllInTable(statuses, rest) && t.step in statuses
  {
    assert t in rest + [t];
    assert forall u :: u in rest ==> u in rest + [t];
  }

  lemma RowsExtend(rest: seq<Txn>, t: Txn, step: string)
    ensures RowsOf(rest + [t], step) == RowsOf(rest, step) + if t.step == step then [t] else []
  {
    assert Init(rest + [t]) == rest;
  }

  lemma PathExtends(rows: seq<Txn>, t: Txn)
    ensures LegalPath(rows + [t]) <==> LegalPath(rows) && t.prev == PathEnd(rows) && Legal(t.prev, t.next)
  {
    assert Init(rows + [t]) == rows;
  }

  lemma PathsExtend(rest: seq<Txn>, t: Txn)
    ensures AllLegal(rest + [t]) <==> AllLegal(rest) && t.prev == PathEnd(RowsOf(rest, t.step)) && Legal(t.prev, t.next)
  {
    PathExtends(RowsOf(rest, t.step), t);
    RowsExtend(rest, t, t.step);
    forall step
      ensures step != t.step ==> RowsOf(rest + [t], step) == RowsOf(rest, step)
    {
      RowsExtend(rest, t, step);
      assert RowsOf(rest, step) + [] == RowsOf(rest, step);
    }
    if AllLegal(rest + [t]) {
      assert LegalPath(RowsOf(rest + [t], t.step));
      forall step ensures LegalPath(RowsOf(rest, step)) { assert LegalPath(RowsOf(rest + [t], step)); }
    }
  }

  /** The replay is silent exactly when every row's step is in the table and every step's rows are a legal path. */
  lemma {:induction false} LogIsCleanIff(statuses: Statuses, txns: seq<Txn>)
    ensures LogViolations(statuses, txns) == [] <==> AllInTable(statuses, txns) && AllLegal(txns)
  {
    if txns != [] {
      var rest, t := Init(txns), Last(txns);
      assert txns == rest + [t];
      LogIsCleanIff(statuses, rest);
      RowIsClean(statuses, Derived(rest, t.step), t);
      DerivedIsPathEnd(rest, t.step);
      TableExtends(statuses, rest, t);
      PathsExtend(rest, t);
    }
  }

  lemma TableIsCleanIff(statuses: Statuses, txns: seq<Txn>, step: string)
    requires step in statuses
    ensures TableViolation(statuses, txns, step) == None <==> Matches(statuses, txns, step)
  {
    DerivedIsPathEnd(txns, step);
  }

  ghost predicate TableIsClean(statuses: Statuses, txns: seq<Txn>) {
    forall step :: step in statuses ==> TableViolation(statuses, txns, step) == None
  }

  /** Nothing is reported exactly when the ledger is in parity. */
  lemma ParityIff(statuses: Statuses, txns: seq<Txn>)
    ensures LogViolations(statuses, txns) == [] && TableIsClean(statuses, txns) <==> InParity(statuses, txns)
  {
    LogIsCleanIff(statuses, txns);
    forall step | step in statuses
      ensures TableViolation(statuses, txns, step) == None <==> Matches(statuses, txns, step)
    {
      TableIsCleanIff(statuses, txns, step);
    }
  }

  /** A pending cell is exempt: the log may say the step passed and nothing is reported. */
  lemma PendingCellIsExempt()
    ensures var statuses := map["S1" := "pending"];
      var txns := [Txn("S1", Pending, Passed)];
      InParity(statuses, txns) && Derived(txns, "S1") == Passed && CanonState(statuses["S1"]) == Pending
  {
    var t := Txn("S1", Pending, Passed);
    assert [] + [t] == [t];
    PathsExtend([], t);
    assert Strip("pending") == "pending";
    assert Respelled("pending") == "pending";
  }

  /**
    In parity, the state the log leaves a step in is the state its cell shows exactly when the
    cell does not say pending or the log never names the step: no legal path returns to pending.
   */
  lemma ParityAgreesExceptPending(statuses: Statuses, txns: seq<Txn>, step: string)
    requires InParity(statuses, txns) && step in statuses
    ensures Derived(txns, step) == CanonState(statuses[step]) <==>
      CanonState(statuses[step]) != Pending || !Mentions(txns, step)
  {
    DerivedIsPathEnd(txns, step);
    assert Matches(statuses, txns, step);
    assert LegalPath(RowsOf(txns, step));
  }

  /** In parity, a step the table shows as passed was walked there from pending. */
  lemma PassedHasLegalPath(statuses: Statuses, txns: seq<Txn>, step: string)
    requires InParity(statuses, txns) && step in statuses && CanonState(statuses[step]) == Passed
    ensures RowsOf(txns, step) != [] && LegalPath(RowsOf(txns, step))
    ensures RowsOf(txns, step)[0].prev == Pending && Last(RowsOf(txns, step)).next == Passed
    ensures Derived(txns, step) == Passed
  {
    assert Matches(statuses, txns, step);
    DerivedIsPathEnd(txns, step);
    LegalPathRowByRow(RowsOf(txns, step), 0);
  }

  // ---- evidence --------------------------------------------------------------------------------

  predicate Filler(c: char) {
    c in {'\U{115F}', '\U{1160}', '\U{3164}', '\U{FFA0}'}
  }

  /** The note says something: one letter, digit or numeric character that is not an invisible filler. */
  predicate HasContent(note: string, alnum: char -> bool) {
    exists i :: 0 <= i < |note| && !Filler(note[i]) && alnum(note[i])
  }

  /** The step's history entered a state in which its verification was outstanding. */
  predicate EverOutstanding(txns: seq<Txn>, step: string) {
    exists i :: 0 <= i < |txns| && txns[i].step == step && (Outstanding(txns[i].prev) || Outstanding(txns[i].next))
  }

  function GatesOf(gates: Gates, step: string): seq<Gate> {
    if step in gates then gates[step] else []
  }

  predicate Evidenced(entries: seq<Gate>, alnum: char -> bool) {
    exists i :: 0 <= i < |entries| && entries[i].state == Satisfied && HasContent(entries[i].note, alnum)
  }

  predicate LacksEvidence(gates: Gates, txns: seq<Txn>, step: string, alnum: char -> bool) {
    EverOutstanding(txns, step) && Derived(txns, step) == Passed && !Evidenced(GatesOf(gates, step), alnum)
  }

  /** One registry holds nothing the other does not. */
  ghost predicate Within(fewer: Gates, more: Gates) {
    forall step, g :: g in GatesOf(fewer, step) ==> g in GatesOf(more, step)
  }

  /** A registry that holds more gives no less evidence. */
  lemma EvidenceGrows(fewer: seq<Gate>, more: seq<Gate>, alnum: char -> bool)
    requires forall g :: g in fewer ==> g in more
    ensures Evidenced(fewer, alnum) ==> Evidenced(more, alnum)
  {
    forall i | 0 <= i < |fewer| && fewer[i].state == Satisfied && HasContent(fewer[i].note, alnum)
      ensures Evidenced(more, alnum)
    {
      assert fewer[i] in fewer;
      var j :| 0 <= j < |more| && more[j] == fewer[i];
    }
  }

  /** Deleting gate rows never clears a missing-evidence violation. */
  lemma DeletionNeverSatisfies(fewer: Gates, more: Gates, txns: seq<Txn>, step: string, alnum: char -> bool)
    requires Within(fewer, more) && LacksEvidence(more, txns, step, alnum)
    ensures LacksEvidence(fewer, txns, step, alnum)
  {
    EvidenceGrows(GatesOf(fewer, step), GatesOf(more, step), alnum);
  }

  /**
    A path that ends in passed and ever visits an outstanding state is one the evidence rule catches,
    by any detour.
   */
  lemma AnyDetourIsCaught(txns: seq<Txn>, step: string, k: nat)
    requires k < |RowsOf(txns, step)|
    requires Outstanding(RowsOf(txns, step)[k].prev) || Outstanding(RowsOf(txns, step)[k].next)
    ensures EverOutstanding(txns, step)
  {
    RowIsInLog(txns, step, k);
    var i :| 0 <= i < |txns| && txns[i] == RowsOf(txns, step)[k];
    assert txns[i].step == step;
  }

  lemma {:induction false} RowIsInLog(txns: seq<Txn>, step: string, k: nat)
    requires k < |RowsOf(txns, step)|
    ensures RowsOf(txns, step)[k].step == step
    ensures exists i :: 0 <= i < |txns| && txns[i] == RowsOf(txns, step)[k]
  {
    var rest := RowsOf(Init(txns), step);
    if k < |rest| {
      RowIsInLog(Init(txns), step, k);
      var i :| 0 <= i < |Init(txns)| && Init(txns)[i] == rest[k];
      assert txns[i] == RowsOf(txns, step)[k];
    } else {
      assert txns[|txns| - 1] == RowsOf(txns, step)[k];
    }
  }
}
