/**
  The four rules of the ledger validator as the loops that collect violations, and what an
  empty collection means.
 */
module LedgerValidator {
  import opened Prelude
  import opened LedgerRules
  import opened LedgerReading
  import opened LedgerBlocks

  // ---- the order of the reports --------------------------------------------------------------

  /** The order of strings: by the first character in which they differ, a prefix first. */
  predicate Precedes(a: string, b: string) {
    b != "" && (a == "" || a[0] < b[0] || (a[0] == b[0] && Precedes(a[1..], b[1..])))
  }

  predicate Ascending(order: seq<string>) {
    forall i, j :: 0 <= i < j < |order| ==> Precedes(order[i], order[j])
  }

  /** Every step of the set, once, in ascending order. */
  ghost predicate Enumerates(order: seq<string>, steps: set<string>) {
    Ascending(order) && (forall step :: step in order <==> step in steps)
  }

  /** Of two strings exactly one precedes the other, unless they are equal. */
  lemma {:induction false} OnePrecedes(a: string, b: string)
    ensures a != b <==> Precedes(a, b) || Precedes(b, a)
    ensures !(Precedes(a, b) && Precedes(b, a))
  {
    if a != "" && b != "" && a[0] == b[0] {
      OnePrecedes(a[1..], b[1..]);
      assert a == [a[0]] + a[1..] && b == [b[0]] + b[1..];
    }
  }

  /** The strings agree before `n`, where the first ends or has the smaller character. */
  predicate SmallerAt(a: string, b: string, n: nat) {
    && n <= |a| && n < |b| && (forall i :: 0 <= i < n ==> a[i] == b[i])
    && (n == |a| || a[n] < b[n])
  }

  lemma SmallerBelow(a: string, b: string, n: nat)
    requires a != "" && b != "" && a[0] == b[0]
    ensures SmallerAt(a, b, n + 1) <==> SmallerAt(a[1..], b[1..], n)
    ensures !SmallerAt(a, b, 0)
  {
    assert forall i :: 0 < i < |a| ==> a[i] == a[1..][i - 1];
    assert forall i :: 0 < i < |b| ==> b[i] == b[1..][i - 1];
  }

  /** The order is that of the first difference. */
  lemma {:induction false} PrecedesIff(a: string, b: string)
    ensures Precedes(a, b) <==> exists n: nat :: SmallerAt(a, b, n)
  {
    if a != "" && b != "" && a[0] == b[0] {
      PrecedesIff(a[1..], b[1..]);
      SmallerBelow(a, b, 0);
      if n: nat :| SmallerAt(a, b, n) { SmallerBelow(a, b, n - 1); }
      if n: nat :| SmallerAt(a[1..], b[1..], n) { SmallerBelow(a, b, n); }
    } else if Precedes(a, b) {
      assert SmallerAt(a, b, 0);
    }
  }

  lemma {:induction false} PrecedesOn(a: string, b: string, c: string)
    requires Precedes(a, b) && Precedes(b, c)
    ensures Precedes(a, c)
  {
    if a != "" && a[0] == b[0] == c[0] {
      PrecedesOn(a[1..], b[1..], c[1..]);
    }
  }

  predicate IsLeast(step: string, steps: set<string>) {
    step in steps && forall other :: other in steps ==> other == step || Precedes(step, other)
  }

  lemma {:induction false} LeastExists(steps: set<string>)
    requires steps != {}
    ensures exists step :: IsLeast(step, steps)
    decreases |steps|
  {
    var some :| some in steps;
    var rest := steps - {some};
    if rest == {} {
      assert steps == {some};
      assert IsLeast(some, steps);
    } else {
      LeastExists(rest);
      var least :| IsLeast(least, rest);
      OnePrecedes(some, least);
      if Precedes(least, some) {
        assert IsLeast(least, steps);
      } else {
        forall other | other in steps && other != some
          ensures Precedes(some, other)
        {
          if other != least { PrecedesOn(some, least, other); }
        }
        assert IsLeast(some, steps);
      }
    }
  }

  /** Lists a set in ascending order. */
  method Ordered(steps: set<string>) returns (order: seq<string>)
    ensures Enumerates(order, steps)
  {
    order := [];
    var left := steps;
    while left != {}
      invariant left <= steps && Ascending(order)
      invariant forall i, step :: 0 <= i < |order| && step in left ==> Precedes(order[i], step)
      invariant forall step :: step in order <==> step in steps && step !in left
      decreases |left|
    {
      LeastExists(left);
      var step :| step in left && IsLeast(step, left);
      order, left := order + [step], left - {step};
    }
  }

  /** A set is listed in ascending order in one way only. */
  lemma {:induction false} OneOrder(a: seq<string>, b: seq<string>, steps: set<string>)
    requires Enumerates(a, steps) && Enumerates(b, steps)
    ensures a == b
    decreases |a|
  {
    HeadOf(a);
    HeadOf(b);
    if a != [] && b != [] {
      GreatestIsLast(a, steps, Last(b));
      GreatestIsLast(b, steps, Last(a));
      OnePrecedes(Last(a), Last(b));
      WithoutLast(a, steps);
      WithoutLast(b, steps);
      OneOrder(Init(a), Init(b), steps - {Last(a)});
      assert a == Init(a) + [Last(a)] && b == Init(b) + [Last(b)];
    }
  }

  lemma GreatestIsLast(a: seq<string>, steps: set<string>, step: string)
    requires a != [] && Enumerates(a, steps) && step in steps
    ensures step == Last(a) || Precedes(step, Last(a))
  {
    var i :| 0 <= i < |a| && a[i] == step;
  }

  lemma WithoutLast(a: seq<string>, steps: set<string>)
    requires a != [] && Enumerates(a, steps)
    ensures Enumerates(Init(a), steps - {Last(a)})
  {
    forall step
      ensures step in Init(a) <==> step in steps - {Last(a)}
    {
      if step in Init(a) {
        var i :| 0 <= i < |a| - 1 && a[i] == step;
        OnePrecedes(step, Last(a));
      }
      if step in steps && step != Last(a) {
        var i :| 0 <= i < |a| && a[i] == step;
        assert Init(a)[i] == step;
      }
    }
  }

  // ---- parity ------------------------------------------------------------------------------------

  function Lookup(derived: map<string, Status>, step: string): Status {
    if step in derived then derived[step] else Pending
  }

  /** The map holds the replayed state of every step. */
  ghost predicate Tracks(derived: map<string, Status>, txns: seq<Txn>) {
    forall step :: Lookup(derived, step) == Derived(txns, step)
  }

  ghost predicate Collects(logged: set<string>, txns: seq<Txn>) {
    forall step :: step in logged <==> Mentions(txns, step)
  }

  lemma TracksOn(derived: map<string, Status>, txns: seq<Txn>, t: Txn)
    requires Tracks(derived, txns)
    ensures Tracks(derived[t.step := t.next], txns + [t])
  {
    assert Init(txns + [t]) == txns;
    forall step
      ensures Derived(txns + [t], step) == if t.step == step then t.next else Derived(txns, step)
    {
    }
  }

  lemma CollectsOn(logged: set<string>, txns: seq<Txn>, t: Txn)
    requires Collects(logged, txns)
    ensures Collects(logged + {t.step}, txns + [t])
  {
    assert forall i :: 0 <= i < |txns| ==> (txns + [t])[i] == txns[i];
    assert (txns + [t])[|txns|] == t;
  }

  lemma LogGrows(statuses: Statuses, txns: seq<Txn>, t: Txn)
    ensures LogViolations(statuses, txns + [t])
      == LogViolations(statuses, txns) + RowViolations(statuses, Derived(txns, t.step), t)
  {
    var all := txns + [t];
    assert Init(all) == txns && Last(all) == t && all != [];
    assert LogViolations(statuses, all) == LogViolations(statuses, Init(all))
      + RowViolations(statuses, Derived(Init(all), Last(all).step), Last(all));
  }

  function CellReport(statuses: Statuses, txns: seq<Txn>, step: string): seq<Violation> {
    if step !in statuses then []
    else match TableViolation(statuses, txns, step)
      case None => []
      case Some(v) => [v]
  }

  /** What the table check reports, step by step. */
  function TableViolations(statuses: Statuses, txns: seq<Txn>, order: seq<string>): seq<Violation> {
    if order == [] then [] else TableViolations(statuses, txns, Init(order)) + CellReport(statuses, txns, Last(order))
  }

  lemma TableGrows(statuses: Statuses, txns: seq<Txn>, order: seq<string>, step: string)
    ensures TableViolations(statuses, txns, order + [step])
      == TableViolations(statuses, txns, order) + CellReport(statuses, txns, step)
  {
    assert Init(order + [step]) == order;
  }

  predicate CellFine(statuses: Statuses, txns: seq<Txn>, step: string) {
    step in statuses && TableViolation(statuses, txns, step) == None
  }

  lemma {:induction false} TableSilent(statuses: Statuses, txns: seq<Txn>, order: seq<string>)
    requires forall step :: step in order ==> step in statuses
    ensures TableViolations(statuses, txns, order) == [] <==>
      forall step :: step in order ==> CellFine(statuses, txns, step)
  {
    if order != [] {
      var rest, step := Init(order), Last(order);
      assert order == rest + [step];
      TableGrows(statuses, txns, rest, step);
      TableSilent(statuses, txns, rest);
      assert CellReport(statuses, txns, step) == [] <==> CellFine(statuses, txns, step);
    }
  }

  /** Replays the log: where every step ends, which steps it names, and what is wrong with it. */
  method ReplayLog(statuses: Statuses, txns: seq<Txn>)
    returns (derived: map<string, Status>, logged: set<string>, violations: seq<Violation>)
    ensures Tracks(derived, txns) && Collects(logged, txns)
    ensures violations == LogViolations(statuses, txns)
  {
    derived, logged, violations := map[], {}, [];
    for i := 0 to |txns|
      invariant Tracks(derived, txns[..i]) && Collects(logged, txns[..i])
      invariant violations == LogViolations(statuses, txns[..i])
    {
      var t := txns[i];
      assert txns[..i + 1] == txns[..i] + [t];
      CollectsOn(logged, txns[..i], t);
      LogGrows(statuses, txns[..i], t);
      TracksOn(derived, txns[..i], t);
      logged := logged + {t.step};
      var report := CheckRow(statuses, Lookup(derived, t.step), t);
      violations := violations + report;
      derived := derived[t.step := t.next];
    }
    assert txns[..|txns|] == txns;
  }

  /** The tests on one row. A broken chain hides the edge test. */
  method CheckRow(statuses: Statuses, current: Status, t: Txn) returns (report: seq<Violation>)
    ensures report == RowViolations(statuses, current, t)
  {
    report := [];
    if t.step !in statuses {
      report := report + [NotInTable(t.step)];
    }
    if t.prev.Unknown? {
      report := report + [UnknownPrevious(t.step)];
    }
    if t.next.Unknown? {
      report := report + [UnknownNext(t.step)];
    }
    if t.prev != current {
      report := report + [BrokenChain(t.step, t.prev, current)];
    } else if !Legal(t.prev, t.next) {
      report := report + [IllegalEdge(t.step, t.prev, t.next)];
    }
  }

  /** One step's cell against the replay; a pending cell needs no log. */
  method CheckCell(statuses: Statuses, ghost txns: seq<Txn>, derived: map<string, Status>, logged: set<string>,
                   step: string)
    returns (report: seq<Violation>)
    requires Tracks(derived, txns) && Collects(logged, txns) && step in statuses
    ensures report == CellReport(statuses, txns, step)
  {
    report := [];
    var table := CanonState(statuses[step]);
    if table != Pending {
      if step !in logged {
        report := [Unlogged(step)];
      } else if Lookup(derived, step) != table {
        report := [Diverged(step, Lookup(derived, step), table)];
      }
    }
  }

  lemma TableStep(statuses: Statuses, txns: seq<Txn>, order: seq<string>, i: nat)
    requires i < |order|
    ensures TableViolations(statuses, txns, order[..i + 1])
      == TableViolations(statuses, txns, order[..i]) + CellReport(statuses, txns, order[i])
  {
    assert order[..i + 1] == order[..i] + [order[i]];
    TableGrows(statuses, txns, order[..i], order[i]);
  }

  method CheckCells(statuses: Statuses, ghost txns: seq<Txn>, derived: map<string, Status>, logged: set<string>,
                    order: seq<string>)
      returns (violations: seq<Violation>)
    requires Tracks(derived, txns) && Collects(logged, txns) && forall step :: step in order ==> step in statuses
    ensures violations == TableViolations(statuses, txns, order)
  {
    violations := [];
    for i := 0 to |order|
      invariant violations == TableViolations(statuses, txns, order[..i])
    {
      TableStep(statuses, txns, order, i);
      var report := CheckCell(statuses, txns, derived, logged, order[i]);
      violations := violations + report;
    }
    assert order[..|order|] == order;
  }

  method CheckTable(statuses: Statuses, ghost txns: seq<Txn>, derived: map<string, Status>, logged: set<string>)
      returns (violations: seq<Violation>)
    requires Tracks(derived, txns) && Collects(logged, txns)
    ensures exists order :: Enumerates(order, statuses.Keys) && violations == TableViolations(statuses, txns, order)
  {
    var order := Ordered(statuses.Keys);
    violations := CheckCells(statuses, txns, derived, logged, order);
  }

  /** The rows in file order, then the table's steps in ascending order. */
  ghost predicate ParityReport(statuses: Statuses, txns: seq<Txn>, order: seq<string>, violations: seq<Violation>) {
    Enumerates(order, statuses.Keys)
    && violations == LogViolations(statuses, txns) + TableViolations(statuses, txns, order)
  }

  /** Silent exactly when the ledger is in parity. */
  method ValidateParity(statuses: Statuses, txns: seq<Txn>) returns (violations: seq<Violation>)
    ensures violations == [] <==> InParity(statuses, txns)
    ensures exists order :: ParityReport(statuses, txns, order, violations)
  {
    var derived, logged;
    derived, logged, violations := ReplayLog(statuses, txns);
    var fromTable := CheckTable(statuses, txns, derived, logged);
    ghost var order :| Enumerates(order, statuses.Keys) && fromTable == TableViolations(statuses, txns, order);
    violations := violations + fromTable;
    assert ParityReport(statuses, txns, order, violations);
    TableSilent(statuses, txns, order);
    ParityIff(statuses, txns);
  }

  // ---- evidence --------------------------------------------------------------------------------

  function EvidenceViolations(gates: Gates, txns: seq<Txn>, order: seq<string>, alnum: char -> bool): seq<Violation> {
    if order == [] then []
    else
      var before := EvidenceViolations(gates, txns, Init(order), alnum);
      if LacksEvidence(gates, txns, Last(order), alnum) then before + [NoEvidence(Last(order))] else before
  }

  ghost predicate Gathers(outstanding: set<string>, txns: seq<Txn>) {
    forall step :: step in outstanding <==> EverOutstanding(txns, step)
  }

  lemma GathersOn(outstanding: set<string>, txns: seq<Txn>, t: Txn)
    requires Gathers(outstanding, txns)
    ensures var more := if Outstanding(t.prev) || Outstanding(t.next) then outstanding + {t.step} else outstanding;
      Gathers(more, txns + [t])
  {
    assert forall i :: 0 <= i < |txns| ==> (txns + [t])[i] == txns[i];
    assert (txns + [t])[|txns|] == t;
  }

  lemma {:induction false} EvidenceSilent(gates: Gates, txns: seq<Txn>, order: seq<string>, alnum: char -> bool)
    ensures EvidenceViolations(gates, txns, order, alnum) == []
      <==> forall step :: step in order ==> !LacksEvidence(gates, txns, step, alnum)
  {
    if order != [] {
      EvidenceSilent(gates, txns, Init(order), alnum);
      assert order == Init(order) + [Last(order)];
    }
  }

  /** Some satisfied row of the list carries a note that says something. */
  method HasEvidence(entries: seq<Gate>, alnum: char -> bool) returns (found: bool)
    ensures found == Evidenced(entries, alnum)
  {
    found := false;
    for i := 0 to |entries|
      invariant found <==> exists j :: 0 <= j < i && entries[j].state == Satisfied && HasContent(entries[j].note, alnum)
    {
      if entries[i].state == Satisfied && HasContent(entries[i].note, alnum) {
        found := true;
      }
    }
  }

  /** The steps whose history was ever outstanding, and where every step ends. */
  method ReplayHistory(txns: seq<Txn>) returns (outstanding: set<string>, derived: map<string, Status>)
    ensures Gathers(outstanding, txns) && Tracks(derived, txns)
  {
    outstanding, derived := {}, map[];
    for i := 0 to |txns|
      invariant Gathers(outstanding, txns[..i]) && Tracks(derived, txns[..i])
    {
      var t := txns[i];
      assert txns[..i + 1] == txns[..i] + [t];
      GathersOn(outstanding, txns[..i], t);
      TracksOn(derived, txns[..i], t);
      if Outstanding(t.prev) || Outstanding(t.next) {
        outstanding := outstanding + {t.step};
      }
      derived := derived[t.step := t.next];
    }
    assert txns[..|txns|] == txns;
  }

  /** The steps that were ever outstanding, once each, in ascending order. */
  ghost predicate EvidenceReport(gates: Gates, txns: seq<Txn>, alnum: char -> bool, order: seq<string>,
                                 violations: seq<Violation>) {
    Ascending(order) && (forall step :: step in order <==> EverOutstanding(txns, step))
    && violations == EvidenceViolations(gates, txns, order, alnum)
  }

  /** Reports exactly the steps that were ever outstanding, end in passed and show no evidence, each once. */
  method ValidateUnlockEvidence(gates: Gates, txns: seq<Txn>, alnum: char -> bool) returns (violations: seq<Violation>)
    ensures violations == [] <==> forall step :: !LacksEvidence(gates, txns, step, alnum)
    ensures exists order :: EvidenceReport(gates, txns, alnum, order, violations)
  {
    var outstanding, derived := ReplayHistory(txns);
    var order := Ordered(outstanding);
    violations := [];
    for i := 0 to |order|
      invariant violations == EvidenceViolations(gates, txns, order[..i], alnum)
    {
      var step := order[i];
      assert Init(order[..i + 1]) == order[..i];
      var entries := if step in gates then gates[step] else [];
      var found := HasEvidence(entries, alnum);
      if Lookup(derived, step) == Passed && !found {
        violations := violations + [NoEvidence(step)];
      }
    }
    assert order[..|order|] == order;
    assert EvidenceReport(gates, txns, alnum, order, violations);
    EvidenceSilent(gates, txns, order, alnum);
  }

  // ---- gates against the table ------------------------------------------------------------------

  predicate Blocking(g: Gate) {
    g.state == PendingMandatory
  }

  /** The gates of one step against its cell. */
  predicate GatesHold(statuses: Statuses, gates: Gates, step: string)
    requires step in gates
  {
    step in statuses
    && (CanonState(statuses[step]) == Passed ==> forall i :: 0 <= i < |gates[step]| ==> !Blocking(gates[step][i]))
  }

  /** One report for each pending mandatory gate, in file order. */
  function Unmet(step: string, entries: seq<Gate>): seq<Violation> {
    if entries == [] then []
    else if Blocking(Last(entries)) then Unmet(step, Init(entries)) + [UnmetGate(step, Last(entries).note)]
    else Unmet(step, Init(entries))
  }

  /** What the gates of one step call for. */
  function GateReports(statuses: Statuses, gates: Gates, step: string): seq<Violation> {
    if step !in statuses then [GateOffTable(step)]
    else if CanonState(statuses[step]) == Passed then Unmet(step, GatesOf(gates, step))
    else []
  }

  function AllGateReports(statuses: Statuses, gates: Gates, steps: seq<string>): seq<Violation> {
    if steps == [] then [] else AllGateReports(statuses, gates, Init(steps)) + GateReports(statuses, gates, Last(steps))
  }

  predicate BlockingNote(entries: seq<Gate>, note: string) {
    exists i :: 0 <= i < |entries| && Blocking(entries[i]) && entries[i].note == note
  }

  lemma {:induction false} UnmetNames(step: string, entries: seq<Gate>, other: string, note: string)
    ensures UnmetGate(other, note) in Unmet(step, entries) <==> other == step && BlockingNote(entries, note)
    ensures Unmet(step, entries) == [] <==> forall i :: 0 <= i < |entries| ==> !Blocking(entries[i])
    ensures forall v :: v in Unmet(step, entries) ==> v.UnmetGate?
  {
    if entries != [] {
      UnmetNames(step, Init(entries), other, note);
      assert forall i :: 0 <= i < |entries| - 1 ==> Init(entries)[i] == entries[i];
    }
  }

  /** The step has a pending mandatory gate with this note although its cell says passed. */
  predicate UnmetAt(statuses: Statuses, gates: Gates, step: string, note: string) {
    step in statuses && CanonState(statuses[step]) == Passed && BlockingNote(GatesOf(gates, step), note)
  }

  lemma StepReportsName(statuses: Statuses, gates: Gates, last: string, step: string, note: string)
    requires last in gates
    ensures GateOffTable(step) in GateReports(statuses, gates, last) <==> step == last && step !in statuses
    ensures UnmetGate(step, note) in GateReports(statuses, gates, last) <==>
      step == last && UnmetAt(statuses, gates, step, note)
    ensures GateReports(statuses, gates, last) == [] <==> GatesHold(statuses, gates, last)
  {
    UnmetNames(last, GatesOf(gates, last), step, note);
  }

  lemma InBoth(a: seq<Violation>, b: seq<Violation>, v: Violation)
    ensures v in a + b <==> v in a || v in b
  {
  }

  /**
    The reports name exactly the steps that are not in the table, and exactly the pending
    mandatory gates of steps that the table shows as passed.
   */
  lemma {:induction false} GateReportsName(statuses: Statuses, gates: Gates, steps: seq<string>, step: string,
                                           note: string)
    requires forall s :: s in steps ==> s in gates
    ensures GateOffTable(step) in AllGateReports(statuses, gates, steps) <==> step in steps && step !in statuses
    ensures UnmetGate(step, note) in AllGateReports(statuses, gates, steps) <==>
      step in steps && UnmetAt(statuses, gates, step, note)
    ensures AllGateReports(statuses, gates, steps) == [] <==> forall s :: s in steps ==> GatesHold(statuses, gates, s)
  {
    if steps != [] {
      var last := Last(steps);
      assert steps == Init(steps) + [last];
      GateReportsName(statuses, gates, Init(steps), step, note);
      StepReportsName(statuses, gates, last, step, note);
      var before, now := AllGateReports(statuses, gates, Init(steps)), GateReports(statuses, gates, last);
      InBoth(before, now, GateOffTable(step));
      InBoth(before, now, UnmetGate(step, note));
    }
  }

  lemma WholeReportNames(statuses: Statuses, gates: Gates, steps: seq<string>)
    requires Keys(steps, gates)
    ensures var report := AllGateReports(statuses, gates, steps);
      && (report == [] <==> forall step :: step in gates ==> GatesHold(statuses, gates, step))
      && (forall step :: GateOffTable(step) in report <==> step in gates && step !in statuses)
      && (forall step, note :: UnmetGate(step, note) in report <==>
        step in gates && UnmetAt(statuses, gates, step, note))
  {
    var report := AllGateReports(statuses, gates, steps);
    GateReportsName(statuses, gates, steps, "", "");
    forall step
      ensures GateOffTable(step) in report <==> step in gates && step !in statuses
    {
      GateReportsName(statuses, gates, steps, step, "");
    }
    forall step, note
      ensures UnmetGate(step, note) in report <==> step in gates && UnmetAt(statuses, gates, step, note)
    {
      GateReportsName(statuses, gates, steps, step, note);
    }
  }

  /** The steps in the order of the registry; silent exactly when every gate holds of the table. */
  method CheckGates(statuses: Statuses, gates: Gates, steps: seq<string>) returns (violations: seq<Violation>)
    requires Keys(steps, gates)
    ensures violations == AllGateReports(statuses, gates, steps)
    ensures violations == [] <==> forall step :: step in gates ==> GatesHold(statuses, gates, step)
    ensures forall step :: GateOffTable(step) in violations <==> step in gates && step !in statuses
    ensures forall step, note :: UnmetGate(step, note) in violations <==>
      step in gates && UnmetAt(statuses, gates, step, note)
  {
    violations := [];
    for i := 0 to |steps|
      invariant violations == AllGateReports(statuses, gates, steps[..i])
    {
      var step := steps[i];
      assert Init(steps[..i + 1]) == steps[..i];
      assert step in steps;
      if step !in statuses {
        violations := violations + [GateOffTable(step)];
      } else {
        var unmet := UnmetGates(step, CanonState(statuses[step]), gates[step]);
        violations := violations + unmet;
      }
    }
    assert steps[..|steps|] == steps;
    WholeReportNames(statuses, gates, steps);
  }

  method UnmetGates(step: string, status: Status, entries: seq<Gate>) returns (unmet: seq<Violation>)
    ensures unmet == if status == Passed then Unmet(step, entries) else []
  {
    unmet := [];
    for i := 0 to |entries|
      invariant unmet == if status == Passed then Unmet(step, entries[..i]) else []
    {
      assert Init(entries[..i + 1]) == entries[..i];
      if Blocking(entries[i]) && status == Passed {
        unmet := unmet + [UnmetGate(step, entries[i].note)];
      }
    }
    assert entries[..|entries|] == entries;
  }

  function UnclassifiedReports(gates: Gates, order: seq<string>): seq<Violation> {
    if order == [] then []
    else if Last(order) in gates then UnclassifiedReports(gates, Init(order))
    else UnclassifiedReports(gates, Init(order)) + [Unclassified(Last(order))]
  }

  lemma {:induction false} UnclassifiedName(gates: Gates, order: seq<string>, step: string)
    ensures Unclassified(step) in UnclassifiedReports(gates, order) <==> step in order && step !in gates
    ensures UnclassifiedReports(gates, order) == [] <==> forall s :: s in order ==> s in gates
  {
    if order != [] {
      UnclassifiedName(gates, Init(order), step);
      assert order == Init(order) + [Last(order)];
    }
  }

  ghost predicate DeferredReport(deferred: set<string>, gates: Gates, order: seq<string>, violations: seq<Violation>) {
    Enumerates(order, deferred) && violations == UnclassifiedReports(gates, order)
  }

  /** Names exactly the deferred steps without a gate row, in ascending order. */
  method CheckDeferred(deferred: set<string>, gates: Gates) returns (violations: seq<Violation>)
    ensures exists order :: DeferredReport(deferred, gates, order, violations)
    ensures forall step :: Unclassified(step) in violations <==> step in deferred && step !in gates
    ensures violations == [] <==> deferred <= gates.Keys
  {
    var order := Ordered(deferred);
    violations := [];
    for i := 0 to |order|
      invariant violations == UnclassifiedReports(gates, order[..i])
    {
      var step := order[i];
      assert Init(order[..i + 1]) == order[..i];
      if step !in gates {
        violations := violations + [Unclassified(step)];
      }
    }
    assert order[..|order|] == order;
    assert DeferredReport(deferred, gates, order, violations);
    forall step
      ensures Unclassified(step) in violations <==> step in deferred && step !in gates
    {
      UnclassifiedName(gates, order, step);
    }
    UnclassifiedName(gates, order, "");
  }

  // ---- the whole validator --------------------------------------------------------------------------

  /** The ledger as its parsers see it. */
  datatype Ledger = Ledger(
    statuses: Statuses, deferred: set<string>, gateLines: seq<Line<GateRow>>, txnLines: seq<Line<Txn>>)

  ghost predicate BlocksHold(ledger: Ledger) {
    WellFormed(ledger.gateLines) && Reported(ledger.gateLines) == [] && AllKnown(Honoured(ledger.gateLines))
    && WellFormed(ledger.txnLines) && Reported(ledger.txnLines) == []
  }

  /** The rules between the parts, given the registry and the log the blocks declare. */
  ghost predicate RulesHold(statuses: Statuses, deferred: set<string>, gates: Gates, txns: seq<Txn>,
                            alnum: char -> bool) {
    statuses != map[]
    && (forall step :: step in gates ==> GatesHold(statuses, gates, step))
    && deferred <= gates.Keys
    && InParity(statuses, txns)
    && (forall step :: !LacksEvidence(gates, txns, step, alnum))
  }

  ghost predicate Clean(ledger: Ledger, alnum: char -> bool) {
    BlocksHold(ledger)
    && RulesHold(ledger.statuses, ledger.deferred, Registry(Honoured(ledger.gateLines)), Honoured(ledger.txnLines),
                 alnum)
  }

  ghost predicate RulesOnText(statuses: Statuses, deferred: set<string>, gates: Gates, txns: seq<Txn>,
                              alnum: char -> bool) {
    && statuses != map[]
    && GatesOnText(statuses, gates)
    && deferred <= gates.Keys
    && (forall t :: t in txns ==> t.step in statuses)
    && (forall step :: Walks(RowsOf(txns, step)))
    && CellsOnText(statuses, txns)
    && EvidenceOnText(gates, txns, alnum)
  }

  lemma AllGatesIff(statuses: Statuses, gates: Gates)
    ensures (forall step :: step in gates ==> GatesHold(statuses, gates, step)) <==> GatesOnText(statuses, gates)
  {
    forall step | step in gates && step in statuses
      ensures GatesHold(statuses, gates, step) <==>
        (Reads(statuses[step], "passed") ==> forall g :: g in gates[step] ==> g.state != PendingMandatory)
    {
      GatesOnTextIff(statuses, gates, step);
    }
  }

  /** The rules hold exactly if they hold of the text of the cells. */
  lemma RulesHoldIff(statuses: Statuses, deferred: set<string>, gates: Gates, txns: seq<Txn>, alnum: char -> bool)
    ensures RulesHold(statuses, deferred, gates, txns, alnum) <==> RulesOnText(statuses, deferred, gates, txns, alnum)
  {
    AllGatesIff(statuses, gates);
    EvidenceOnTextIff(gates, txns, alnum);
    forall step
      ensures LegalPath(RowsOf(txns, step)) <==> Walks(RowsOf(txns, step))
    {
      LegalPathIff(RowsOf(txns, step));
    }
    if AllLegal(txns) { CellsOnTextIff(statuses, txns); }
  }

  ghost predicate CleanOnText(ledger: Ledger, alnum: char -> bool) {
    BlocksHold(ledger)
    && RulesOnText(ledger.statuses, ledger.deferred, Registry(Honoured(ledger.gateLines)), Honoured(ledger.txnLines),
                   alnum)
  }

  /** Silent exactly when both blocks are well formed and every rule holds of what they declare. */
  method Validate(ledger: Ledger, alnum: char -> bool) returns (violations: seq<Violation>)
    ensures violations == [] <==> Clean(ledger, alnum)
    ensures violations == [] <==> CleanOnText(ledger, alnum)
  {
    RulesHoldIff(ledger.statuses, ledger.deferred, Registry(Honoured(ledger.gateLines)), Honoured(ledger.txnLines),
                 alnum);
    var gates, steps, gateErrors := ParseGateRegistry(ledger.gateLines);
    StepsAreKeys(Honoured(ledger.gateLines));
    var txns, txnErrors := ParseTransitionLog(ledger.txnLines);
    violations := gateErrors + txnErrors;
    if ledger.statuses == map[] {
      violations := violations + [NoTable];
    }
    var ruleErrors := CheckRules(ledger.statuses, ledger.deferred, gates, steps, txns, alnum);
    violations := violations + ruleErrors;
  }

  method CheckRules(statuses: Statuses, deferred: set<string>, gates: Gates, steps: seq<string>, txns: seq<Txn>,
                    alnum: char -> bool)
      returns (violations: seq<Violation>)
    requires Keys(steps, gates)
    ensures violations == [] && statuses != map[] <==> RulesHold(statuses, deferred, gates, txns, alnum)
  {
    violations := CheckGates(statuses, gates, steps);
    var report := CheckDeferred(deferred, gates);
    violations := violations + report;
    report := ValidateParity(statuses, txns);
    violations := violations + report;
    report := ValidateUnlockEvidence(gates, txns, alnum);
    violations := violations + report;
  }

  // ---- what a clean ledger guarantees ------------------------------------------------------------------

  /**
    A passed step of a clean ledger: no mandatory gate of it is pending, its rows lead
    legally from pending to passed, and if they ever pass through an outstanding state
    there is a satisfied gate whose note says something.
   */
  lemma PassedIsEarned(statuses: Statuses, deferred: set<string>, rows: seq<GateRow>, txns: seq<Txn>,
                       alnum: char -> bool, step: string, k: nat)
    requires RulesHold(statuses, deferred, Registry(rows), txns, alnum)
    requires step in statuses && CanonState(statuses[step]) == Passed
    ensures forall g :: g in GatesIn(rows, step) ==> g.state != PendingMandatory
    ensures var path := RowsOf(txns, step);
      path != [] && LegalPath(path) && path[0].prev == Pending && Last(path).next == Passed
      && (k < |path| && (Outstanding(path[k].prev) || Outstanding(path[k].next)) ==>
          exists i :: 0 <= i < |GatesIn(rows, step)| && GatesIn(rows, step)[i].state == Satisfied
                      && HasContent(GatesIn(rows, step)[i].note, alnum))
  {
    PassedHasLegalPath(statuses, txns, step);
    RegistryHolds(rows, step);
    if step in Registry(rows) {
      assert GatesHold(statuses, Registry(rows), step);
      forall g | g in GatesIn(rows, step)
        ensures g.state != PendingMandatory
      {
        var i :| 0 <= i < |GatesIn(rows, step)| && GatesIn(rows, step)[i] == g;
        assert !Blocking(Registry(rows)[step][i]);
      }
    }
    var path := RowsOf(txns, step);
    if k < |path| && (Outstanding(path[k].prev) || Outstanding(path[k].next)) {
      AnyDetourIsCaught(txns, step, k);
      assert !LacksEvidence(Registry(rows), txns, step, alnum);
    }
  }

  /** Erasing a step's gates does not help: shown as passed and ever outstanding, it must have a row. */
  lemma ErasureIsCaught(statuses: Statuses, deferred: set<string>, rows: seq<GateRow>, txns: seq<Txn>,
                        alnum: char -> bool, step: string)
    requires RulesHold(statuses, deferred, Registry(rows), txns, alnum)
    requires step in statuses && CanonState(statuses[step]) == Passed && EverOutstanding(txns, step)
    ensures Names(rows, step) && Evidenced(GatesIn(rows, step), alnum)
  {
    RegistryHolds(rows, step);
    PassedHasLegalPath(statuses, txns, step);
    assert !LacksEvidence(Registry(rows), txns, step, alnum);
  }

  /** The rows strictly between the marks. */
  function Between<T>(lines: seq<Line<T>>, b: nat, e: nat): seq<T>
    requires b < e <= |lines|
  {
    ParsedRows(lines[b + 1..e])
  }

  /** A clean ledger's rules hold of exactly what stands between its marks. */
  lemma CleanByPosition(ledger: Ledger, alnum: char -> bool, gb: nat, ge: nat, tb: nat, te: nat)
    requires Clean(ledger, alnum) && Delimits(ledger.gateLines, gb, ge) && Delimits(ledger.txnLines, tb, te)
    ensures RulesHold(ledger.statuses, ledger.deferred, Registry(Between(ledger.gateLines, gb, ge)),
                      Between(ledger.txnLines, tb, te), alnum)
  {
    ExactlyTheBlockCounts(ledger.gateLines, gb, ge);
    ExactlyTheBlockCounts(ledger.txnLines, tb, te);
  }

  /**
    What an empty report says of the document: a step its table shows as passed has no
    `pending-mandatory` row between the gate marks, its rows between the transition marks lead
    legally from pending to passed, and if they pass through an outstanding state there is
    a satisfied row between the gate marks whose note says something.
   */
  lemma CleanPassedIsEarned(ledger: Ledger, alnum: char -> bool, gb: nat, ge: nat, tb: nat, te: nat, step: string,
                            k: nat)
    requires Clean(ledger, alnum) && Delimits(ledger.gateLines, gb, ge) && Delimits(ledger.txnLines, tb, te)
    requires step in ledger.statuses && CanonState(ledger.statuses[step]) == Passed
    ensures forall g :: GateRow(step, g) in Between(ledger.gateLines, gb, ge) ==> g.state != PendingMandatory
    ensures var path := RowsOf(Between(ledger.txnLines, tb, te), step);
      path != [] && LegalPath(path) && path[0].prev == Pending && Last(path).next == Passed
      && (k < |path| && (Outstanding(path[k].prev) || Outstanding(path[k].next)) ==>
          exists g :: GateRow(step, g) in Between(ledger.gateLines, gb, ge)
                      && g.state == Satisfied && HasContent(g.note, alnum))
  {
    var rows, txns := Between(ledger.gateLines, gb, ge), Between(ledger.txnLines, tb, te);
    CleanByPosition(ledger, alnum, gb, ge, tb, te);
    PassedIsEarned(ledger.statuses, ledger.deferred, rows, txns, alnum, step, k);
    forall g
      ensures GateRow(step, g) in rows <==> g in GatesIn(rows, step)
    {
      GateIsARow(rows, step, g);
    }
  }

  /**
    The same on the text of the cell, however it spells `passed`: no pending mandatory row, a walk of the
    state machine from pending that ends in passed, and evidence that shows if the walk was outstanding.
   */
  lemma PassedCellIsEarned(ledger: Ledger, alnum: char -> bool, gb: nat, ge: nat, tb: nat, te: nat, step: string,
                           k: nat)
    requires Clean(ledger, alnum) && Delimits(ledger.gateLines, gb, ge) && Delimits(ledger.txnLines, tb, te)
    requires step in ledger.statuses && Reads(ledger.statuses[step], "passed")
    ensures forall g :: GateRow(step, g) in Between(ledger.gateLines, gb, ge) ==> g.state != PendingMandatory
    ensures var path := RowsOf(Between(ledger.txnLines, tb, te), step);
      path != [] && Walks(path) && Last(path).next == Passed
      && (k < |path| && (path[k].prev in {VerifyPending, Blocked} || path[k].next in {VerifyPending, Blocked}) ==>
          exists g :: GateRow(step, g) in Between(ledger.gateLines, gb, ge)
                      && g.state == Satisfied && exists c :: c in g.note && Shows(c, alnum))
  {
    CellReadsIff(ledger.statuses[step], "passed", Passed);
    CleanPassedIsEarned(ledger, alnum, gb, ge, tb, te, step, k);
    LegalPathIff(RowsOf(Between(ledger.txnLines, tb, te), step));
    if g :| GateRow(step, g) in Between(ledger.gateLines, gb, ge) && g.state == Satisfied && HasContent(g.note, alnum) {
      HasContentIff(g.note, alnum);
    }
  }

  /** So a passed step that was ever outstanding has a row between the gate marks: erasing its gates is reported. */
  lemma CleanErasureIsCaught(ledger: Ledger, alnum: char -> bool, gb: nat, ge: nat, tb: nat, te: nat, step: string)
    requires Clean(ledger, alnum) && Delimits(ledger.gateLines, gb, ge) && Delimits(ledger.txnLines, tb, te)
    requires step in ledger.statuses && CanonState(ledger.statuses[step]) == Passed
    requires EverOutstanding(Between(ledger.txnLines, tb, te), step)
    ensures Names(Between(ledger.gateLines, gb, ge), step)
    ensures Evidenced(GatesIn(Between(ledger.gateLines, gb, ge), step), alnum)
  {
    CleanByPosition(ledger, alnum, gb, ge, tb, te);
    ErasureIsCaught(ledger.statuses, ledger.deferred, Between(ledger.gateLines, gb, ge),
                    Between(ledger.txnLines, tb, te),
                    alnum, step);
  }

  /** Deleting rows of the gate block, or moving them, never clears a missing-evidence report. */
  lemma DeletedRowsNeverSatisfy(fewer: seq<GateRow>, more: seq<GateRow>, txns: seq<Txn>, step: string,
                                alnum: char -> bool)
    requires forall r :: r in fewer ==> r in more
    requires LacksEvidence(Registry(more), txns, step, alnum)
    ensures LacksEvidence(Registry(fewer), txns, step, alnum)
  {
    forall s, g | g in GatesOf(Registry(fewer), s)
      ensures g in GatesOf(Registry(more), s)
    {
      RegistryHolds(fewer, s);
      RegistryHolds(more, s);
      GateIsARow(fewer, s, g);
      GateIsARow(more, s, g);
    }
    DeletionNeverSatisfies(Registry(fewer), Registry(more), txns, step, alnum);
  }

  lemma {:induction false} GateIsARow(rows: seq<GateRow>, step: string, g: Gate)
    ensures g in GatesIn(rows, step) <==> GateRow(step, g) in rows
  {
    if rows != [] {
      GateIsARow(Init(rows), step, g);
      assert rows == Init(rows) + [Last(rows)];
    }
  }
}
