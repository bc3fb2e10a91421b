/**
  The rules of the ledger said on the text of the status cells: what a cell reads as, by which
  states each state is entered, and which notes are evidence.
 */
module LedgerReading {
  import opened Prelude
  import opened LedgerRules

  // ---- what a status cell reads as ---------------------------------------------------------

  /** The seven states and how the ledger writes them. */
  const WORDS: seq<(string, Status)> :=
    [("pending", Pending), ("in_progress", InProgress), ("passed", Passed), ("verify_pending", VerifyPending),
     ("blocked", Blocked), ("reopened", Reopened), ("regressed", Regressed)]

  /** The character is written for that of the word: in either case, and a hyphen for an underscore. */
  predicate WrittenFor(c: char, w: char) {
    || c == w
    || (w == '_' && c == '-')
    || ('a' <= w <= 'z' && 'A' <= c <= 'Z' && c as int - 'A' as int == w as int - 'a' as int)
  }

  predicate Spells(text: string, word: string) {
    |text| == |word| && forall i :: 0 <= i < |text| ==> WrittenFor(text[i], word[i])
  }

  predicate AllBlank(s: string) {
    forall i :: 0 <= i < |s| ==> s[i] in " \t\n\r"
  }

  /** The cell says the word, in any such spelling and with blanks around it. */
  ghost predicate Reads(cell: string, word: string) {
    exists before: string, text: string, after: string ::
      cell == before + text + after && AllBlank(before) && AllBlank(after) && Spells(text, word)
  }

  predicate LowerWord(word: string) {
    word != "" && forall i :: 0 <= i < |word| ==> 'a' <= word[i] <= 'z' || word[i] == '_'
  }

  lemma {:induction false} RespelledAt(s: string)
    ensures |Respelled(s)| == |s|
    ensures forall i :: 0 <= i < |s| ==> Respelled(s)[i] == if s[i] == '-' then '_' else Lower(s[i])
  {
    if s != "" { RespelledAt(s[1..]); }
  }

  lemma WrittenForIff(c: char, w: char)
    requires 'a' <= w <= 'z' || w == '_'
    ensures WrittenFor(c, w) <==> (if c == '-' then '_' else Lower(c)) == w
  {
  }

  lemma SpellsIff(text: string, word: string)
    requires LowerWord(word)
    ensures Spells(text, word) <==> Respelled(text) == word
  {
    RespelledAt(text);
    forall i | 0 <= i < |text| && |text| == |word|
      ensures WrittenFor(text[i], word[i]) <==> Respelled(text)[i] == word[i]
    {
      WrittenForIff(text[i], word[i]);
    }
  }

  /** The text without its first `b` characters and from `e` on, and nothing but blanks goes. */
  predicate CutsBlanks(s: string, b: nat, e: nat) {
    && b <= e <= |s|
    && (forall i :: 0 <= i < b ==> Blank(s[i]))
    && (forall i :: e <= i < |s| ==> Blank(s[i]))
  }

  /** Stripping takes off blanks and nothing else. */
  lemma {:induction false} StripTakesBlanks(s: string) returns (b: nat, e: nat)
    ensures CutsBlanks(s, b, e) && Strip(s) == s[b..e]
  {
    if s != "" && Blank(s[0]) {
      b, e := StripTakesBlanks(s[1..]);
      assert forall i :: 0 < i < |s| ==> s[i] == s[1..][i - 1];
      b, e := b + 1, e + 1;
    } else if s != "" && Blank(Last(s)) {
      b, e := StripTakesBlanks(Init(s));
      assert forall i :: 0 <= i < |s| - 1 ==> s[i] == Init(s)[i];
    } else {
      b, e := 0, |s|;
    }
  }

  lemma {:induction false} StripOf(before: string, text: string, after: string)
    requires AllBlank(before) && AllBlank(after) && text != "" && !Blank(text[0]) && !Blank(Last(text))
    ensures Strip(before + text + after) == text
    decreases |before| + |after|
  {
    var s := before + text + after;
    if before != "" {
      assert s[1..] == before[1..] + text + after;
      StripOf(before[1..], text, after);
    } else if after != "" {
      assert s[0] == text[0] && Last(s) == Last(after);
      assert Init(s) == before + text + Init(after);
      StripOf(before, text, Init(after));
    } else {
      assert s == text;
    }
  }

  lemma BlankIffListed(s: string)
    ensures AllBlank(s) <==> forall i :: 0 <= i < |s| ==> Blank(s[i])
  {
  }

  lemma StrippedIsAround(s: string) returns (before: string, after: string)
    ensures s == before + Strip(s) + after && AllBlank(before) && AllBlank(after)
  {
    var b, e := StripTakesBlanks(s);
    before, after := s[..b], s[e..];
    BlankIffListed(before);
    BlankIffListed(after);
  }

  lemma StrippedReads(cell: string, word: string)
    requires LowerWord(word) && Respelled(Strip(cell)) == word
    ensures Reads(cell, word)
  {
    var before, after := StrippedIsAround(cell);
    SpellsIff(Strip(cell), word);
  }

  lemma ReadsStripped(cell: string, before: string, text: string, after: string, word: string)
    requires LowerWord(word) && Spells(text, word)
    requires cell == before + text + after && AllBlank(before) && AllBlank(after)
    ensures Respelled(Strip(cell)) == word
  {
    SpellsIff(text, word);
    assert WrittenFor(text[0], word[0]) && WrittenFor(Last(text), Last(word));
    StripOf(before, text, after);
  }

  lemma ReadsIffStripped(cell: string, word: string)
    requires LowerWord(word)
    ensures Reads(cell, word) <==> Respelled(Strip(cell)) == word
  {
    if Respelled(Strip(cell)) == word { StrippedReads(cell, word); }
    if before: string, text: string, after: string :|
      cell == before + text + after && AllBlank(before) && AllBlank(after) && Spells(text, word)
    {
      ReadsStripped(cell, before, text, after, word);
    }
  }

  lemma WordsAreLower(word: string, status: Status)
    requires (word, status) in WORDS
    ensures LowerWord(word)
  {
  }

  lemma WordIff(word: string, status: Status, token: string)
    requires (word, status) in WORDS
    ensures TokenStatus(token) == status <==> token == word
  {
  }

  /** Each known state is read off exactly the spellings of its word. */
  lemma CellReadsIff(cell: string, word: string, status: Status)
    requires (word, status) in WORDS
    ensures CanonState(cell) == status <==> Reads(cell, word)
  {
    WordsAreLower(word, status);
    ReadsIffStripped(cell, word);
    WordIff(word, status, Respelled(Strip(cell)));
  }

  /** No cell says two of the seven words. */
  lemma NoCellReadsTwoWays(cell: string, a: string, b: string, asA: Status, asB: Status)
    requires (a, asA) in WORDS && (b, asB) in WORDS && Reads(cell, a) && Reads(cell, b)
    ensures a == b && asA == asB
  {
    CellReadsIff(cell, a, asA);
    CellReadsIff(cell, b, asB);
    WordIff(b, asB, a);
    WordIff(a, asA, a);
  }

  // ---- how each state is entered -----------------------------------------------------------

  /** The states from which a state may be entered; pending is where a step starts, and never entered. */
  function EnteredFrom(status: Status): set<Status> {
    match status
    case InProgress => {Pending, Blocked, Reopened, Regressed}
    case Passed => {Pending, InProgress, VerifyPending, Blocked, Reopened, Regressed}
    case VerifyPending => {Pending, InProgress}
    case Blocked => {Pending, InProgress, VerifyPending}
    case Reopened => {InProgress, Passed}
    case Regressed => {InProgress, Passed}
    case _ => {}
  }

  lemma LegalIff(prev: Status, next: Status)
    ensures Legal(prev, next) <==> prev in EnteredFrom(next)
  {
  }

  /** Row `k` enters its state from the one before, or from pending if it is the first. */
  predicate Enters(rows: seq<Txn>, k: nat)
    requires k < |rows|
  {
    rows[k].prev == (if k == 0 then Pending else rows[k - 1].next) && rows[k].prev in EnteredFrom(rows[k].next)
  }

  predicate Walks(rows: seq<Txn>) {
    forall k :: 0 <= k < |rows| ==> Enters(rows, k)
  }

  lemma WalksOn(rest: seq<Txn>, t: Txn)
    ensures Walks(rest + [t]) <==> Walks(rest) && t.prev == PathEnd(rest) && t.prev in EnteredFrom(t.next)
  {
    forall k | 0 <= k < |rest|
      ensures Enters(rest + [t], k) <==> Enters(rest, k)
    {
    }
    assert Enters(rest + [t], |rest|) <==> t.prev == PathEnd(rest) && t.prev in EnteredFrom(t.next);
  }

  lemma {:induction false} LegalPathIff(rows: seq<Txn>)
    ensures LegalPath(rows) <==> Walks(rows)
  {
    if rows != [] {
      var last := Last(rows);
      LegalPathIff(Init(rows));
      LegalIff(last.prev, last.next);
      WalksOn(Init(rows), last);
      assert rows == Init(rows) + [last];
    }
  }

  /** A step that has passed leaves that state only by being reopened or by regressing, and says so. */
  lemma PassedIsLeftOpenly(rows: seq<Txn>, k: nat)
    requires LegalPath(rows) && k + 1 < |rows| && rows[k].next == Passed
    ensures rows[k + 1].prev == Passed && rows[k + 1].next in {Reopened, Regressed}
  {
    LegalPathIff(rows);
    assert Enters(rows, k + 1);
  }

  /** Every state a legal path comes to is known, and none but its start is pending. */
  lemma WalksAreKnown(rows: seq<Txn>, k: nat)
    requires LegalPath(rows) && k < |rows|
    ensures !rows[k].next.Unknown? && rows[k].next != Pending
  {
    LegalPathIff(rows);
    assert Enters(rows, k);
  }

  // ---- what is reported of a row and of a cell ------------------------------------------------

  /** Each defect of a row is named if it is there; an edge is judged only where the chain is whole. */
  lemma RowReportsName(statuses: Statuses, current: Status, t: Txn, v: Violation)
    ensures v in RowViolations(statuses, current, t) <==>
      || (v == NotInTable(t.step) && t.step !in statuses)
      || (v == UnknownPrevious(t.step) && t.prev.Unknown?)
      || (v == UnknownNext(t.step) && t.next.Unknown?)
      || (v == BrokenChain(t.step, t.prev, current) && t.prev != current)
      || (v == IllegalEdge(t.step, t.prev, t.next) && t.prev == current && t.prev !in EnteredFrom(t.next))
  {
    LegalIff(t.prev, t.next);
  }

  /** A cell that does not say pending is unlogged without rows, and diverged if they end in another state. */
  lemma CellReportsName(statuses: Statuses, txns: seq<Txn>, step: string, v: Violation)
    requires step in statuses
    ensures TableViolation(statuses, txns, step) == Some(v) <==>
      && !Reads(statuses[step], "pending")
      && if RowsOf(txns, step) == [] then v == Unlogged(step)
         else
           && Last(RowsOf(txns, step)).next != CanonState(statuses[step])
           && v == Diverged(step, Last(RowsOf(txns, step)).next, CanonState(statuses[step]))
  {
    CellReadsIff(statuses[step], "pending", Pending);
    DerivedIsPathEnd(txns, step);
  }

  // ---- which notes are evidence ---------------------------------------------------------------

  /** A letter, digit or number that shows: none of the four Hangul fillers. */
  predicate Shows(c: char, alnum: char -> bool) {
    alnum(c) && c != '\U{115F}' && c != '\U{1160}' && c != '\U{3164}' && c != '\U{FFA0}'
  }

  /** A note of fillers and punctuation alone is no evidence; one character that shows is enough, anywhere. */
  lemma HasContentIff(note: string, alnum: char -> bool)
    ensures HasContent(note, alnum) <==> exists c :: c in note && Shows(c, alnum)
  {
    if i :| 0 <= i < |note| && !Filler(note[i]) && alnum(note[i]) { assert Shows(note[i], alnum); }
  }

  /** A satisfied row whose note shows something. */
  predicate ShownSatisfied(entries: seq<Gate>, alnum: char -> bool) {
    exists g :: g in entries && g.state == Satisfied && exists c :: c in g.note && Shows(c, alnum)
  }

  lemma EvidencedIff(entries: seq<Gate>, alnum: char -> bool)
    ensures Evidenced(entries, alnum) <==> ShownSatisfied(entries, alnum)
  {
    forall g | g in entries
      ensures HasContent(g.note, alnum) <==> exists c :: c in g.note && Shows(c, alnum)
    {
      HasContentIff(g.note, alnum);
    }
    if Evidenced(entries, alnum) {
      var i :| 0 <= i < |entries| && entries[i].state == Satisfied && HasContent(entries[i].note, alnum);
      assert entries[i] in entries;
    }
  }

  // ---- the rules on the text ---------------------------------------------------------------------

  /** The cell says the state. */
  ghost predicate Says(cell: string, status: Status) {
    exists word :: (word, status) in WORDS && Reads(cell, word)
  }

  lemma SaysIff(cell: string, status: Status)
    requires !status.Unknown?
    ensures Says(cell, status) <==> CanonState(cell) == status
  {
    var word := match status
      case Pending => "pending" case InProgress => "in_progress" case Passed => "passed" case Blocked => "blocked"
      case VerifyPending => "verify_pending" case Reopened => "reopened" case _ => "regressed";
    assert (word, status) in WORDS;
    CellReadsIff(cell, word, status);
    forall w | (w, status) in WORDS
      ensures Reads(cell, w) <==> CanonState(cell) == status
    {
      CellReadsIff(cell, w, status);
    }
  }

  /** No cell that says passed has a mandatory gate pending. */
  ghost predicate GatesOnText(statuses: Statuses, gates: Gates) {
    forall step :: step in gates ==>
      step in statuses
      && (Reads(statuses[step], "passed") ==> forall g :: g in gates[step] ==> g.state != PendingMandatory)
  }

  /** Every cell says pending, or what the last of the step's rows says. */
  ghost predicate CellsOnText(statuses: Statuses, txns: seq<Txn>) {
    forall step :: step in statuses ==>
      || Reads(statuses[step], "pending")
      || (RowsOf(txns, step) != [] && Says(statuses[step], Last(RowsOf(txns, step)).next))
  }

  lemma GatesOnTextIff(statuses: Statuses, gates: Gates, step: string)
    requires step in gates && step in statuses
    ensures (CanonState(statuses[step]) == Passed ==>
               forall i :: 0 <= i < |gates[step]| ==> gates[step][i].state != PendingMandatory)
      <==> (Reads(statuses[step], "passed") ==> forall g :: g in gates[step] ==> g.state != PendingMandatory)
  {
    CellReadsIff(statuses[step], "passed", Passed);
  }

  lemma CellsOnTextIff(statuses: Statuses, txns: seq<Txn>)
    requires AllLegal(txns)
    ensures TableMatches(statuses, txns) <==> CellsOnText(statuses, txns)
  {
    forall step | step in statuses
      ensures Matches(statuses, txns, step) <==>
        || Reads(statuses[step], "pending")
        || (RowsOf(txns, step) != [] && Says(statuses[step], Last(RowsOf(txns, step)).next))
    {
      CellReadsIff(statuses[step], "pending", Pending);
      var rows := RowsOf(txns, step);
      if rows != [] {
        assert LegalPath(rows);
        WalksAreKnown(rows, |rows| - 1);
        SaysIff(statuses[step], Last(rows).next);
      }
    }
  }

  /** A row of the step is into or out of verify-pending or blocked. */
  predicate WasOutstanding(rows: seq<Txn>, step: string) {
    exists t :: t in rows && t.step == step
      && (t.prev in {VerifyPending, Blocked} || t.next in {VerifyPending, Blocked})
  }

  lemma WasOutstandingIff(txns: seq<Txn>, step: string)
    ensures WasOutstanding(txns, step) <==> EverOutstanding(txns, step)
  {
    if EverOutstanding(txns, step) {
      var i :| 0 <= i < |txns| && txns[i].step == step && (Outstanding(txns[i].prev) || Outstanding(txns[i].next));
      assert txns[i] in txns;
    }
  }

  /** A step that was outstanding and comes to passed has a satisfied row whose note shows something. */
  ghost predicate EvidenceOnText(gates: Gates, txns: seq<Txn>, alnum: char -> bool) {
    forall step :: WasOutstanding(txns, step) && PathEnd(RowsOf(txns, step)) == Passed ==>
      step in gates && ShownSatisfied(gates[step], alnum)
  }

  lemma EvidenceOnTextIff(gates: Gates, txns: seq<Txn>, alnum: char -> bool)
    ensures (forall step :: !LacksEvidence(gates, txns, step, alnum)) <==> EvidenceOnText(gates, txns, alnum)
  {
    forall step
      ensures !LacksEvidence(gates, txns, step, alnum) <==>
        (WasOutstanding(txns, step) && PathEnd(RowsOf(txns, step)) == Passed ==>
           step in gates && ShownSatisfied(gates[step], alnum))
    {
      WasOutstandingIff(txns, step);
      DerivedIsPathEnd(txns, step);
      EvidencedIff(GatesOf(gates, step), alnum);
    }
  }
}
