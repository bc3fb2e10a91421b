/** Path templates: which placeholders there are, and that each ends up declared. */
module NormalizePaths {
  import opened Prelude
  import opened YamlTree
  import opened NormalizeSpec
  import opened NormalizeStable

  // ---- placeholders -----------------------------------------------------------------

  /** A template cut at its placeholders: literal text without '{', then a name without '}'. */
  datatype Piece = Piece(text: string, name: string)

  function Render(pieces: seq<Piece>, tail: string): string {
    if pieces == [] then tail
    else pieces[0].text + (['{'] + (pieces[0].name + (['}'] + Render(pieces[1..], tail))))
  }

  /** `tail` opens no placeholder that also closes. */
  predicate Unclosed(tail: string) {
    IndexOf(tail, '{') < |tail| ==> '}' !in tail[IndexOf(tail, '{') + 1..]
  }

  predicate Pieces(pieces: seq<Piece>) {
    forall i :: 0 <= i < |pieces| ==> '{' !in pieces[i].text && '}' !in pieces[i].name
  }

  function Names(pieces: seq<Piece>): seq<string> {
    if pieces == [] then [] else [pieces[0].name] + Names(pieces[1..])
  }

  lemma {:induction false} IndexOfIsFirst(s: string, c: char, i: nat)
    requires i <= |s| && (i < |s| ==> s[i] == c)
    requires forall j :: 0 <= j < i ==> s[j] != c
    ensures IndexOf(s, c) == i
  {
  }

  /** Splitting a text at the first occurrence of a character. */
  lemma SplitAt(a: string, c: char, b: string)
    requires c !in a
    ensures var s := a + ([c] + b);
      IndexOf(s, c) == |a| && s[..|a|] == a && s[|a| + 1..] == b && |a| < |s|
  {
    IndexOfIsFirst(a + ([c] + b), c, |a|);
  }

  /** Reading one piece off the front of a template. */
  lemma ScanPiece(p: Piece, rest: string)
    requires '{' !in p.text && '}' !in p.name
    ensures RawPlaceholders(p.text + (['{'] + (p.name + (['}'] + rest)))) == [p.name] + RawPlaceholders(rest)
  {
    SplitAt(p.text, '{', p.name + (['}'] + rest));
    SplitAt(p.name, '}', rest);
  }

  lemma ScanTail(tail: string)
    requires Unclosed(tail)
    ensures RawPlaceholders(tail) == []
  {
    var start := IndexOf(tail, '{');
    if start < |tail| { IndexOfIsFirst(tail[start + 1..], '}', |tail| - start - 1); }
  }

  lemma {:induction false} ScanOfRendered(pieces: seq<Piece>, tail: string)
    requires Pieces(pieces) && Unclosed(tail)
    ensures RawPlaceholders(Render(pieces, tail)) == Names(pieces)
  {
    if pieces == [] {
      ScanTail(tail);
    } else {
      ScanOfRendered(pieces[1..], tail);
      ScanPiece(pieces[0], Render(pieces[1..], tail));
    }
  }

  predicate FirstIs(s: string, c: char, i: nat) {
    i < |s| && s[i] == c && forall j :: 0 <= j < i ==> s[j] != c
  }

  lemma JoinAt(s: string, c: char, i: nat)
    requires FirstIs(s, c, i)
    ensures c !in s[..i] && s == s[..i] + ([c] + s[i + 1..])
  {
    assert forall j :: 0 <= j < i ==> s[..i][j] == s[j];
    assert s[i..] == [c] + s[i + 1..];
    assert s == s[..i] + s[i..];
  }

  /** A template that has a placeholder is its first piece and the rest. */
  lemma CutFirst(tmpl: string, start: nat, body: string, end: nat)
    requires FirstIs(tmpl, '{', start) && body == tmpl[start + 1..] && FirstIs(body, '}', end)
    ensures '{' !in tmpl[..start] && '}' !in body[..end]
    ensures tmpl == tmpl[..start] + (['{'] + (body[..end] + (['}'] + body[end + 1..])))
  {
    JoinAt(tmpl, '{', start);
    JoinAt(body, '}', end);
  }

  lemma RenderCons(p: Piece, pieces: seq<Piece>, tail: string)
    requires Pieces(pieces) && '{' !in p.text && '}' !in p.name
    ensures Render([p] + pieces, tail) == p.text + (['{'] + (p.name + (['}'] + Render(pieces, tail))))
    ensures Pieces([p] + pieces)
  {
    assert ([p] + pieces)[1..] == pieces;
  }

  /** Where the first placeholder opens, and where it closes after that; none if there is none. */
  lemma FirstBraces(tmpl: string) returns (at: Option<(nat, nat)>)
    ensures at.None? ==> Unclosed(tmpl)
    ensures at.Some? ==>
      FirstIs(tmpl, '{', at.value.0) && FirstIs(tmpl[at.value.0 + 1..], '}', at.value.1)
  {
    var start := IndexOf(tmpl, '{');
    if start == |tmpl| {
      at := None;
    } else {
      var end := IndexOf(tmpl[start + 1..], '}');
      at := if end == |tmpl| - start - 1 then None else Some((start, end));
    }
  }

  /** A cut of what follows the first piece makes a cut of the whole. */
  lemma CutOnRenders(tmpl: string, start: nat, body: string, end: nat, pieces: seq<Piece>, tail: string)
    requires FirstIs(tmpl, '{', start) && body == tmpl[start + 1..] && FirstIs(body, '}', end)
    requires Pieces(pieces) && Render(pieces, tail) == body[end + 1..]
    ensures var all := [Piece(tmpl[..start], body[..end])] + pieces; Pieces(all) && Render(all, tail) == tmpl
  {
    CutFirst(tmpl, start, body, end);
    RenderCons(Piece(tmpl[..start], body[..end]), pieces, tail);
  }

  /** Every template can be cut at its placeholders: `PlaceholdersAreTheNames` speaks of all of them. */
  lemma {:induction false} CutRenders(tmpl: string) returns (pieces: seq<Piece>, tail: string)
    ensures Pieces(pieces) && Unclosed(tail) && Render(pieces, tail) == tmpl
    decreases |tmpl|
  {
    var at := FirstBraces(tmpl);
    if at.None? {
      pieces, tail := [], tmpl;
    } else {
      var start, end := at.value.0, at.value.1;
      var body := tmpl[start + 1..];
      pieces, tail := CutRenders(body[end + 1..]);
      CutOnRenders(tmpl, start, body, end, pieces, tail);
      pieces := [Piece(tmpl[..start], body[..end])] + pieces;
    }
  }

  predicate AllDifferent(names: seq<string>) {
    forall i, j :: 0 <= i < j < |names| ==> names[i] != names[j]
  }

  /** The position of the first occurrence of each name keeps the order of the result. */
  ghost predicate FirstOccurrences(out: seq<string>, names: seq<string>) {
    && AllDifferent(out)
    && (forall n :: n in out <==> n in names && n != "")
    && (forall i, j :: 0 <= i < j < |out| ==> FirstAt(names, out[i]) < FirstAt(names, out[j]))
  }

  function FirstAt(names: seq<string>, n: string): nat {
    if names == [] || names[0] == n then 0 else 1 + FirstAt(names[1..], n)
  }

  lemma {:induction false} DistinctFacts(names: seq<string>, seen: seq<string>)
    ensures var out := Distinct(names, seen);
      && AllDifferent(out)
      && (forall n :: n in out <==> n in names && n != "" && n !in seen)
      && (forall i, j :: 0 <= i < j < |out| ==> FirstAt(names, out[i]) < FirstAt(names, out[j]))
    decreases |names|
  {
    if names != [] {
      var head, tail := names[0], names[1..];
      assert names == [head] + tail;
      var isNew := head != "" && head !in seen;
      var seen' := if isNew then seen + [head] else seen;
      DistinctFacts(tail, seen');
      var rest := Distinct(tail, seen');
      forall i | 0 <= i < |rest|
        ensures rest[i] != head && FirstAt(names, rest[i]) == 1 + FirstAt(tail, rest[i])
      {
        assert rest[i] in rest;
      }
    }
  }

  /** `pathPlaceholders` lists exactly the non-empty names of the cut, once each, in order of first closing. */
  lemma PlaceholdersAreTheNames(pieces: seq<Piece>, tail: string)
    requires Pieces(pieces) && Unclosed(tail)
    ensures FirstOccurrences(Placeholders(Render(pieces, tail)), Names(pieces))
  {
    ScanOfRendered(pieces, tail);
    DistinctFacts(Names(pieces), []);
  }

  lemma NoBraceNoPlaceholder(tmpl: string)
    requires '{' !in tmpl
    ensures Placeholders(tmpl) == []
  {
    IndexOfIsFirst(tmpl, '{', |tmpl|);
  }

  /** No key the walk treats specially is a path template with placeholders. */
  lemma KeywordsHaveNoPlaceholder(name: string)
    requires KeywordOf(name) != Plain
    ensures Placeholders(name) == []
  {
    assert '{' !in name;
    NoBraceNoPlaceholder(name);
  }

  // ---- declared parameters survive the walk --------------------------------------------

  lemma DeclaredBySurvives(p: Tree)
    ensures DeclaredBy(Normalize(p)) == DeclaredBy(p)
  {
    if p.Mapping? {
      var isParam := IsParam(p.entries);
      var out := NormalizeEntries(p.entries, isParam);
      ReconcileKeepsOthers(out, "in", "");
      ReconcileKeepsOthers(out, "name", "");
      PlainTextSurvives(p.entries, isParam, "in", "");
      PlainTextSurvives(p.entries, isParam, "name", "");
    }
  }

  lemma {:induction false} DeclaredByAllSurvives(cs: seq<Tree>)
    ensures DeclaredByAll(NormalizeAll(cs)) == DeclaredByAll(cs)
  {
    if cs != [] {
      DeclaredBySurvives(cs[0]);
      DeclaredByAllSurvives(cs[1..]);
      assert NormalizeAll(cs)[1..] == NormalizeAll(cs[1..]);
    }
  }

  function Walked(t: Option<Tree>): Option<Tree> {
    match t case None => None case Some(v) => Some(Normalize(v))
  }

  lemma DeclaredInSurvives(params: Option<Tree>)
    ensures DeclaredIn(Walked(params)) == DeclaredIn(params)
  {
    if params.Some? && params.value.Sequence? { DeclaredByAllSurvives(params.value.children); }
  }

  lemma ValueInSurvives(t: Tree, key: string)
    requires KeywordOf(key) == Plain
    ensures ValueIn(Normalize(t), key) == Walked(ValueIn(t, key))
  {
    if t.Mapping? {
      PlainKeySurvives(t.entries, IsParam(t.entries), key);
      ReconcileKeepsOthers(NormalizeEntries(t.entries, IsParam(t.entries)), key, "");
    }
  }

  lemma MethodsArePlain(key: string)
    requires HttpMethod(key)
    ensures KeywordOf(key) == Plain && key != "parameters"
  {
  }

  /** An operation declares the same parameters after the walk; only keywords are ever dropped. */
  lemma OperationSurvives(e: Entry, isParam: bool)
    ensures Fix(e, isParam).None? ==> DeclaredByOperation(e) == {}
    ensures Fix(e, isParam).Some? ==>
      DeclaredByOperation(Entry(e.key, Normalize(Fix(e, isParam).value))) == DeclaredByOperation(e)
  {
    if HttpMethod(Name(e)) {
      MethodsArePlain(Name(e));
      ValueInSurvives(e.val, "parameters");
      DeclaredInSurvives(ValueIn(e.val, "parameters"));
    }
  }

  lemma {:induction false} OperationsSurvive(es: seq<Entry>, isParam: bool)
    ensures DeclaredByOperations(NormalizeEntries(es, isParam)) == DeclaredByOperations(es)
  {
    if es != [] {
      WalkHead(es, isParam);
      OperationsSurvive(es[1..], isParam);
      OperationSurvives(es[0], isParam);
      var rest := NormalizeEntries(es[1..], isParam);
      var w := Fix(es[0], isParam);
      if w.Some? {
        assert ([Entry(es[0].key, Normalize(w.value))] + rest)[1..] == rest;
      } else {
        assert [] + rest == rest;
      }
    }
  }

  lemma {:induction false} SetTypeKeepsOperations(es: seq<Entry>, want: string)
    ensures DeclaredByOperations(SetType(es, want)) == DeclaredByOperations(es)
  {
    var out := SetType(es, want);
    if es == [] {
      assert out[1..] == [];
    } else if Name(es[0]) == "type" {
      assert out[1..] == es[1..];
    } else {
      SetTypeKeepsOperations(es[1..], want);
      assert out[1..] == SetType(es[1..], want);
    }
  }

  /** The walk neither loses nor adds a declared path parameter of an item. */
  lemma DeclaredSurvives(es: seq<Entry>, isParam: bool)
    ensures Declared(Reconcile(NormalizeEntries(es, isParam))) == Declared(es)
  {
    var out := NormalizeEntries(es, isParam);
    PlainKeySurvives(es, isParam, "parameters");
    ReconcileKeepsOthers(out, "parameters", "");
    DeclaredInSurvives(MapValue(es, "parameters"));
    OperationsSurvive(es, isParam);
    var members := DecidingEnum(out);
    if members.Some? { SetTypeKeepsOperations(out, WantedType(members.value)); }
  }

  // ---- injecting ----------------------------------------------------------------------

  ghost function SetOf(names: seq<string>): set<string> {
    set n | n in names
  }

  lemma {:induction false} DeclaredByAllConcat(a: seq<Tree>, b: seq<Tree>)
    ensures DeclaredByAll(a + b) == DeclaredByAll(a) + DeclaredByAll(b)
  {
    if a == [] {
      assert a + b == b;
    } else {
      DeclaredByAllConcat(a[1..], b);
      assert (a + b)[1..] == a[1..] + b;
    }
  }

  lemma PathParamDeclares(name: string)
    requires name != ""
    ensures DeclaredBy(PathParam(name)) == {name}
  {
    var es := PathParam(name).entries;
    assert LastText(es, "in", "") == LastText(es[1..], "in", "path") == LastText(es[1..][1..], "in", "path")
        == LastText(es[1..][1..][1..], "in", "path") == LastText(es[1..][1..][1..][1..], "in", "path");
    assert LastText(es, "name", "") == LastText(es[1..], "name", "") == LastText(es[1..][1..], "name", name)
        == LastText(es[1..][1..][1..], "name", name) == LastText(es[1..][1..][1..][1..], "name", name);
  }

  lemma {:induction false} PathParamsDeclare(names: seq<string>)
    requires "" !in names
    ensures DeclaredByAll(PathParams(names)) == SetOf(names)
  {
    if names != [] {
      PathParamDeclares(names[0]);
      PathParamsDeclare(names[1..]);
      assert PathParams(names)[1..] == PathParams(names[1..]);
      assert names == [names[0]] + names[1..];
    }
  }

  lemma {:induction false} InjectKeepsOperations(item: seq<Entry>, names: seq<string>)
    ensures DeclaredByOperations(Inject(item, names)) == DeclaredByOperations(item)
  {
    var out := Inject(item, names);
    if item == [] {
      assert out[1..] == [];
    } else if Name(item[0]) == "parameters" {
      assert out[1..] == item[1..];
    } else {
      InjectKeepsOperations(item[1..], names);
      assert out[1..] == Inject(item[1..], names);
    }
  }

  /** The children of the item's parameter sequence; anything else counts as none. */
  function ParamList(item: seq<Entry>): seq<Tree> {
    match MapValue(item, "parameters") case None => [] case Some(p) => AsParameters(p).children
  }

  /** Existing parameters stay in front, in order, and the new ones follow. */
  lemma {:induction false} InjectAppends(item: seq<Entry>, names: seq<string>)
    ensures MapValue(Inject(item, names), "parameters").Some?
    ensures MapValue(Inject(item, names), "parameters").value.Sequence?
    ensures ParamList(Inject(item, names)) == ParamList(item) + PathParams(names)
  {
    var out := Inject(item, names);
    if item != [] && Name(item[0]) != "parameters" {
      InjectAppends(item[1..], names);
      assert out[1..] == Inject(item[1..], names);
    }
  }

  lemma DeclaredOfList(item: seq<Entry>)
    ensures DeclaredIn(MapValue(item, "parameters")) == DeclaredByAll(ParamList(item))
  {
  }

  /** Injecting declares exactly the injected names on top of what was declared. */
  lemma InjectDeclares(item: seq<Entry>, names: seq<string>)
    requires "" !in names
    ensures Declared(Inject(item, names)) == Declared(item) + SetOf(names)
  {
    InjectAppends(item, names);
    InjectKeepsOperations(item, names);
    DeclaredOfList(item);
    DeclaredOfList(Inject(item, names));
    DeclaredByAllConcat(ParamList(item), PathParams(names));
    PathParamsDeclare(names);
  }

  lemma {:induction false} MissingFacts(names: seq<string>, declared: set<string>)
    requires AllDifferent(names)
    ensures var m := Missing(names, declared);
      && (forall n :: n in m <==> n in names && n !in declared)
      && AllDifferent(m)
  {
    if names != [] {
      MissingFacts(names[1..], declared);
      assert names == [names[0]] + names[1..];
      var rest := Missing(names[1..], declared);
      assert forall i :: 0 <= i < |rest| ==> rest[i] in rest;
    }
  }

  /**
    Fixing a path item declares every placeholder of its template and nothing else,
    keeps every parameter that was declared, and injects no name twice.
   */
  lemma FixItemDeclares(tmpl: string, item: Tree)
    requires item.Mapping?
    ensures FixItem(tmpl, item).Mapping?
    ensures var out := FixItem(tmpl, item).entries;
      var missing := Missing(Placeholders(tmpl), Declared(item.entries));
      && Declared(out) == Declared(item.entries) + SetOf(Placeholders(tmpl))
      && ParamList(out) == ParamList(item.entries) + PathParams(missing)
      && AllDifferent(missing)
      && (forall n :: n in missing <==> n in Placeholders(tmpl) && n !in Declared(item.entries))
  {
    DistinctFacts(RawPlaceholders(tmpl), []);
    var missing := Missing(Placeholders(tmpl), Declared(item.entries));
    MissingFacts(Placeholders(tmpl), Declared(item.entries));
    InjectDeclares(item.entries, missing);
    InjectAppends(item.entries, missing);
    if missing == [] {
      assert forall n :: n in Placeholders(tmpl) ==> n in missing || n in Declared(item.entries);
      assert ParamList(item.entries) + PathParams(missing) == ParamList(item.entries);
    }
  }

  // ---- complete path items ---------------------------------------------------------------

  /** Every placeholder of the template is declared, where the item is a mapping. */
  predicate Complete(tmpl: string, item: Tree) {
    item.Mapping? ==> forall n :: n in Placeholders(tmpl) ==> n in Declared(item.entries)
  }

  predicate AllComplete(es: seq<Entry>) {
    es == [] || (Complete(Name(es[0]), es[0].val) && AllComplete(es[1..]))
  }

  lemma CompleteIsFixed(tmpl: string, item: Tree)
    requires Complete(tmpl, item)
    ensures FixItem(tmpl, item) == item
  {
    if item.Mapping? {
      DistinctFacts(RawPlaceholders(tmpl), []);
      MissingFacts(Placeholders(tmpl), Declared(item.entries));
      HeadOf(Missing(Placeholders(tmpl), Declared(item.entries)));
    }
  }

  lemma {:induction false} FixPathsCompletes(es: seq<Entry>)
    ensures AllComplete(FixPathEntries(es))
  {
    if es != [] {
      FixPathsCompletes(es[1..]);
      if es[0].val.Mapping? { FixItemDeclares(Name(es[0]), es[0].val); }
      assert FixPathEntries(es)[1..] == FixPathEntries(es[1..]);
    }
  }

  lemma {:induction false} AllCompleteIsFixed(es: seq<Entry>)
    requires AllComplete(es)
    ensures FixPathEntries(es) == es
  {
    if es != [] {
      AllCompleteIsFixed(es[1..]);
      CompleteIsFixed(Name(es[0]), es[0].val);
      assert es == [es[0]] + es[1..];
    }
  }

  lemma CompleteSurvives(e: Entry, isParam: bool)
    requires Complete(Name(e), e.val) && Fix(e, isParam).Some?
    ensures Complete(Name(e), Normalize(Fix(e, isParam).value))
  {
    if KeywordOf(Name(e)) == Plain {
      if e.val.Mapping? { DeclaredSurvives(e.val.entries, IsParam(e.val.entries)); }
    } else {
      KeywordsHaveNoPlaceholder(Name(e));
    }
  }

  lemma {:induction false} AllCompleteSurvives(es: seq<Entry>, isParam: bool)
    requires AllComplete(es)
    ensures AllComplete(NormalizeEntries(es, isParam))
  {
    if es != [] {
      WalkHead(es, isParam);
      AllCompleteSurvives(es[1..], isParam);
      var rest := NormalizeEntries(es[1..], isParam);
      var w := Fix(es[0], isParam);
      if w.Some? {
        CompleteSurvives(es[0], isParam);
        assert ([Entry(es[0].key, Normalize(w.value))] + rest)[1..] == rest;
      } else {
        assert [] + rest == rest;
      }
    }
  }

  lemma {:induction false} SetTypeKeepsComplete(es: seq<Entry>, want: string)
    requires AllComplete(es)
    ensures AllComplete(SetType(es, want))
  {
    var out := SetType(es, want);
    if es == [] {
      assert out[1..] == [];
    } else if Name(es[0]) == "type" {
      KeywordsHaveNoPlaceholder("type");
      assert out[1..] == es[1..];
    } else {
      SetTypeKeepsComplete(es[1..], want);
      assert out[1..] == SetType(es[1..], want);
    }
  }

  /** After fixing and walking a `paths` mapping, every template in it is complete. */
  lemma WalkedPathsAreComplete(val: Tree)
    requires val.Mapping?
    ensures Normalize(FixPaths(val)).Mapping? && AllComplete(Normalize(FixPaths(val)).entries)
  {
    var es := FixPaths(val).entries;
    FixPathsCompletes(val.entries);
    AllCompleteSurvives(es, IsParam(es));
    var out := NormalizeEntries(es, IsParam(es));
    var members := DecidingEnum(out);
    if members.Some? { SetTypeKeepsComplete(out, WantedType(members.value)); }
  }
}
