/**
  The flat key of a metric, its parser, and the meaning of a set of labels. A label list is
  what Object.entries yields: keys with their stringified values, None for undefined.
 */
module Metrics {
  import opened Prelude
  import opened StableSort

  datatype Entry = Entry(key: string, value: Option<string>)

  type Labels = map<string, string>

  datatype Metric = Metric(name: string, labels: Labels)

  type KeyOrder = (string, string) -> bool

  // ---- printing ----------------------------------------------------------------------------

  function Defined(entries: seq<Entry>): seq<Entry> {
    if entries == [] then []
    else if entries[0].value.Some? then [entries[0]] + Defined(entries[1..])
    else Defined(entries[1..])
  }

  function ByKey(leq: KeyOrder): (Entry, Entry) -> bool {
    (a: Entry, b: Entry) => leq(a.key, b.key)
  }

  function Pair(e: Entry): string {
    e.key + "=" + (if e.value.Some? then e.value.value else "")
  }

  /** Each segment after the first, with its bar in front. */
  function Tail(entries: seq<Entry>): string {
    if entries == [] then "" else "|" + Pair(entries[0]) + Tail(entries[1..])
  }

  function MetricKey(name: string, entries: seq<Entry>, leq: KeyOrder): string {
    name + Tail(Sort(Defined(entries), ByKey(leq)))
  }

  // ---- parsing -------------------------------------------------------------------------------

  /** The text up to the first c, or all of it. */
  function Before(text: string, c: char): string {
    if text == "" || text[0] == c then "" else [text[0]] + Before(text[1..], c)
  }

  /** The text from the first c on, or nothing. */
  function From(text: string, c: char): (rest: string)
    ensures |rest| <= |text|
    ensures rest != "" ==> rest[0] == c
  {
    if text == "" || text[0] == c then text else From(text[1..], c)
  }

  const PROTO := "__proto__"

  /**
    One segment read into the labels; without an equals sign it says nothing, and the
    name of an object's prototype sets no entry.
   */
  function ReadPair(labels: Labels, pair: string): Labels {
    var rest := From(pair, '=');
    if rest == "" || Before(pair, '=') == PROTO then labels else labels[Before(pair, '=') := rest[1..]]
  }

  /** The segments after the first, each starting at its bar. */
  function ReadPairs(labels: Labels, text: string): Labels
    decreases |text|
  {
    if text == "" then labels
    else ReadPairs(ReadPair(labels, Before(text[1..], '|')), From(text[1..], '|'))
  }

  function ParseMetricKey(key: string): Metric {
    Metric(Before(key, '|'), ReadPairs(map[], From(key, '|')))
  }

  /** The loop over the segments. */
  method Parse(key: string) returns (m: Metric)
    ensures m == ParseMetricKey(key)
  {
    var labels: Labels := map[];
    var rest := From(key, '|');
    while rest != ""
      invariant ReadPairs(labels, rest) == ReadPairs(map[], From(key, '|'))
      decreases |rest|
    {
      var pair := Before(rest[1..], '|');
      var value := From(pair, '=');
      rest := From(rest[1..], '|');
      if value != "" && Before(pair, '=') != PROTO {
        labels := labels[Before(pair, '=') := value[1..]];
      }
    }
    m := Metric(Before(key, '|'), labels);
  }

  // ---- what a label list means -------------------------------------------------------------------

  predicate DistinctKeys(entries: seq<Entry>) {
    forall i, j :: 0 <= i < j < |entries| ==> entries[i].key != entries[j].key
  }

  /** Entries that say the same of a key, however often and in whatever order. */
  predicate Consistent(entries: seq<Entry>) {
    forall a, b :: a in entries && b in entries && a.key == b.key ==> a == b
  }

  /** The labels a list gives: its keys that are not undefined. */
  function LabelsOf(entries: seq<Entry>): Labels
    requires Consistent(entries)
  {
    map e | e in entries && e.value.Some? :: e.key := e.value.value
  }

  predicate PlainEntry(e: Entry) {
    e.value.Some? ==> '|' !in e.key && '=' !in e.key && e.key != PROTO && '|' !in e.value.value
  }

  predicate PlainEntries(entries: seq<Entry>) {
    forall e :: e in entries ==> PlainEntry(e)
  }

  /** The condition a caller can check: no bar in the name, no bar or equals sign in a key, no bar in a value. */
  predicate Plain(name: string, entries: seq<Entry>) {
    '|' !in name && PlainEntries(entries)
  }

  // ---- cutting at a character -----------------------------------------------------------------------

  lemma {:induction false} CutAt(head: string, c: char, rest: string)
    requires c !in head && (rest == "" || rest[0] == c)
    ensures Before(head + rest, c) == head && From(head + rest, c) == rest
  {
    if head == "" {
      assert head + rest == rest;
    } else {
      CutAt(head[1..], c, rest);
      assert (head + rest)[1..] == head[1..] + rest;
    }
  }

  lemma {:induction false} BeforeHasNone(text: string, c: char)
    ensures c !in Before(text, c) && text == Before(text, c) + From(text, c)
  {
    if text != "" && text[0] != c {
      BeforeHasNone(text[1..], c);
    }
  }

  lemma ReadPairOf(labels: Labels, e: Entry)
    requires PlainEntry(e) && e.value.Some?
    ensures ReadPair(labels, Pair(e)) == labels[e.key := e.value.value]
    ensures '|' !in Pair(e)
  {
    CutAt(e.key, '=', "=" + e.value.value);
    assert Pair(e) == e.key + ("=" + e.value.value);
  }

  function Set(labels: Labels, e: Entry): Labels {
    if e.value.Some? then labels[e.key := e.value.value] else labels
  }

  /** Reading the printed segments sets each label in turn. */
  function SetAll(labels: Labels, entries: seq<Entry>): Labels
    decreases entries
  {
    if entries == [] then labels else SetAll(Set(labels, entries[0]), entries[1..])
  }

  lemma ReadsSegment(labels: Labels, e: Entry, rest: string)
    requires PlainEntry(e) && e.value.Some? && (rest == "" || rest[0] == '|')
    ensures ReadPairs(labels, "|" + Pair(e) + rest) == ReadPairs(Set(labels, e), rest)
  {
    ReadPairOf(labels, e);
    CutAt(Pair(e), '|', rest);
    var text := "|" + Pair(e) + rest;
    assert text[1..] == Pair(e) + rest;
  }

  lemma TailStartsWithBar(entries: seq<Entry>)
    ensures Tail(entries) == "" || Tail(entries)[0] == '|'
  {
  }

  lemma {:induction false} ReadsTail(labels: Labels, entries: seq<Entry>)
    requires PlainEntries(entries) && forall e :: e in entries ==> e.value.Some?
    ensures ReadPairs(labels, Tail(entries)) == SetAll(labels, entries)
    decreases |entries|
  {
    if entries != [] {
      TailStartsWithBar(entries[1..]);
      ReadsSegment(labels, entries[0], Tail(entries[1..]));
      ReadsTail(Set(labels, entries[0]), entries[1..]);
    }
  }

  // ---- the round trip -----------------------------------------------------------------------------

  lemma {:induction false} SetAllElsewhere(labels: Labels, entries: seq<Entry>, k: string)
    requires forall e :: e in entries ==> e.key != k
    ensures k in SetAll(labels, entries) <==> k in labels
    ensures k in labels ==> SetAll(labels, entries)[k] == labels[k]
    decreases entries
  {
    if entries != [] {
      SetAllElsewhere(Set(labels, entries[0]), entries[1..], k);
    }
  }

  lemma {:induction false} SetAllAt(labels: Labels, entries: seq<Entry>, e: Entry)
    requires Consistent(entries) && e in entries && e.value.Some?
    ensures e.key in SetAll(labels, entries) && SetAll(labels, entries)[e.key] == e.value.value
    decreases entries
  {
    var rest := entries[1..];
    assert entries == [entries[0]] + rest;
    if e in rest {
      SetAllAt(Set(labels, entries[0]), rest, e);
    } else {
      assert e == entries[0];
      assert forall b :: b in rest ==> b in entries;
      SetAllElsewhere(Set(labels, e), rest, e.key);
    }
  }

  lemma SetAllIsLabelsOf(entries: seq<Entry>)
    requires Consistent(entries)
    ensures SetAll(map[], entries) == LabelsOf(entries)
  {
    var labels := SetAll(map[], entries);
    forall k
      ensures k in labels <==> k in LabelsOf(entries)
      ensures k in labels ==> labels[k] == LabelsOf(entries)[k]
    {
      if e :| e in entries && e.key == k && e.value.Some? {
        SetAllAt(map[], entries, e);
      } else {
        NoneDefined(map[], entries, k);
      }
    }
  }

  lemma {:induction false} NoneDefined(labels: Labels, entries: seq<Entry>, k: string)
    requires forall e :: e in entries && e.key == k ==> e.value.None?
    ensures k in SetAll(labels, entries) <==> k in labels
    decreases entries
  {
    if entries != [] {
      NoneDefined(Set(labels, entries[0]), entries[1..], k);
    }
  }

  lemma {:induction false} DefinedHolds(entries: seq<Entry>)
    ensures forall e :: e in Defined(entries) <==> e in entries && e.value.Some?
    ensures DistinctKeys(entries) ==> DistinctKeys(Defined(entries))
  {
    if entries != [] {
      DefinedHolds(entries[1..]);
      assert entries == [entries[0]] + entries[1..];
    }
  }

  lemma DistinctIsConsistent(entries: seq<Entry>)
    requires DistinctKeys(entries)
    ensures Consistent(entries)
  {
  }

  /** The entries that are printed: the defined ones, in some order. */
  lemma SortedHolds(entries: seq<Entry>, leq: KeyOrder)
    ensures var printed := Sort(Defined(entries), ByKey(leq));
      forall e :: e in printed <==> e in entries && e.value.Some?
  {
    var printed := Sort(Defined(entries), ByKey(leq));
    SortKeepsElements(Defined(entries), ByKey(leq));
    DefinedHolds(entries);
    forall e
      ensures e in printed <==> e in Defined(entries)
    {
      assert e in printed <==> e in multiset(printed);
    }
  }

  /** The parser undoes the printer, for every label list and whatever the key order. */
  lemma RoundTrip(name: string, entries: seq<Entry>, leq: KeyOrder)
    requires Plain(name, entries) && Consistent(entries)
    ensures ParseMetricKey(MetricKey(name, entries, leq)) == Metric(name, LabelsOf(entries))
  {
    var printed := Sort(Defined(entries), ByKey(leq));
    SortedHolds(entries, leq);
    TailStartsWithBar(printed);
    CutAt(name, '|', Tail(printed));
    ReadsTail(map[], printed);
    SetAllIsLabelsOf(printed);
    assert LabelsOf(printed) == LabelsOf(entries);
  }

  /** What a key looks like: the bare name, or a bar and `key=value` for a label that has a value. */
  lemma KeyText(name: string, k: string, v: string, other: string, leq: KeyOrder)
    ensures MetricKey(name, [], leq) == name
    ensures MetricKey(name, [Entry(k, Some(v)), Entry(other, None)], leq) == name + "|" + k + "=" + v
  {
    var e, u := Entry(k, Some(v)), Entry(other, None);
    assert [e, u][1..] == [u] && [u][1..] == [] && [e][1..] == [];
    assert Defined([u]) == [];
    assert Defined([e, u]) == [e];
    assert Sort([e], ByKey(leq)) == [e];
    assert Tail([e]) == "|" + (k + "=" + v);
    assert "|" + (k + "=" + v) == "|" + k + "=" + v;
  }

  // ---- and only then -------------------------------------------------------------------------------

  predicate PlainLabels(labels: Labels) {
    forall k :: k in labels ==> '|' !in k && '=' !in k && k != PROTO && '|' !in labels[k]
  }

  lemma ReadPairIsPlain(labels: Labels, pair: string)
    requires PlainLabels(labels) && '|' !in pair
    ensures PlainLabels(ReadPair(labels, pair))
  {
    BeforeHasNone(pair, '=');
  }

  lemma {:induction false} ReadPairsIsPlain(labels: Labels, text: string)
    requires PlainLabels(labels)
    ensures PlainLabels(ReadPairs(labels, text))
    decreases |text|
  {
    if text != "" {
      BeforeHasNone(text[1..], '|');
      ReadPairIsPlain(labels, Before(text[1..], '|'));
      ReadPairsIsPlain(ReadPair(labels, Before(text[1..], '|')), From(text[1..], '|'));
    }
  }

  /** The key can be read back exactly when name, keys and values keep clear of the separators. */
  lemma ReadsBackIffPlain(name: string, entries: seq<Entry>, leq: KeyOrder)
    requires Consistent(entries)
    ensures ParseMetricKey(MetricKey(name, entries, leq)) == Metric(name, LabelsOf(entries)) <==> Plain(name, entries)
  {
    if Plain(name, entries) {
      RoundTrip(name, entries, leq);
    }
    var key := MetricKey(name, entries, leq);
    BeforeHasNone(key, '|');
    ReadPairsIsPlain(map[], From(key, '|'));
    if ParseMetricKey(key) == Metric(name, LabelsOf(entries)) {
      forall e | e in entries
        ensures PlainEntry(e)
      {
        if e.value.Some? {
          assert e.key in LabelsOf(entries);
        }
      }
    }
  }

  // ---- one metric, one key ----------------------------------------------------------------------------

  /** The order tells these keys apart. */
  ghost predicate Separates(leq: KeyOrder, keys: set<string>) {
    TotalPreorder(leq) && forall a, b :: a in keys && b in keys && Tied(leq, a, b) ==> a == b
  }

  predicate KeysWithin(entries: seq<Entry>, keys: set<string>) {
    forall e :: e in entries ==> e.key in keys
  }

  lemma NeverBothTied(a: Entry, b: Entry, x: Entry, leq: KeyOrder, keys: set<string>)
    requires Separates(leq, keys) && a.key in keys && b.key in keys && a.key != b.key
    ensures !(Tied(ByKey(leq), a, x) && Tied(ByKey(leq), b, x))
  {
  }

  lemma {:induction false} AtMostOneTie(entries: seq<Entry>, x: Entry, leq: KeyOrder, keys: set<string>)
    requires Separates(leq, keys) && KeysWithin(entries, keys) && DistinctKeys(entries)
    ensures |TiedWith(entries, x, ByKey(leq))| <= 1
  {
    if entries != [] {
      AtMostOneTie(entries[1..], x, leq, keys);
      TiedIsMember(entries[1..], x, ByKey(leq));
      forall y | y in entries[1..]
        ensures !(Tied(ByKey(leq), entries[0], x) && Tied(ByKey(leq), y, x))
      {
        assert entries[0] in entries && y in entries;
        NeverBothTied(entries[0], y, x, leq, keys);
      }
      HeadOf(TiedWith(entries[1..], x, ByKey(leq)));
    }
  }

  lemma AtMostOneEach(a: seq<Entry>, b: seq<Entry>)
    requires |a| <= 1 && |b| <= 1 && forall e :: e in a <==> e in b
    ensures a == b
  {
    HeadOf(a);
    HeadOf(b);
  }

  lemma SameElementsSameTies(s: seq<Entry>, t: seq<Entry>, leq: KeyOrder, keys: set<string>)
    requires Separates(leq, keys) && KeysWithin(s, keys) && KeysWithin(t, keys) && DistinctKeys(s) && DistinctKeys(t)
    requires forall e :: e in s <==> e in t
    ensures SameTies(s, t, ByKey(leq))
  {
    forall x
      ensures TiedWith(s, x, ByKey(leq)) == TiedWith(t, x, ByKey(leq))
    {
      var a, b := TiedWith(s, x, ByKey(leq)), TiedWith(t, x, ByKey(leq));
      AtMostOneTie(s, x, leq, keys);
      AtMostOneTie(t, x, leq, keys);
      TiedIsMember(s, x, ByKey(leq));
      TiedIsMember(t, x, ByKey(leq));
      AtMostOneEach(a, b);
    }
  }

  /** The order in which a caller writes its labels does not matter. */
  lemma SameLabelsSameKey(name: string, s: seq<Entry>, t: seq<Entry>, leq: KeyOrder, keys: set<string>)
    requires Separates(leq, keys) && KeysWithin(s, keys) && KeysWithin(t, keys) && DistinctKeys(s) && DistinctKeys(t)
    requires LabelsOf(s) == LabelsOf(t)
    ensures MetricKey(name, s, leq) == MetricKey(name, t, leq)
  {
    var a, b := Defined(s), Defined(t);
    DefinedHolds(s);
    DefinedHolds(t);
    forall e
      ensures e in a <==> e in b
    {
      SameEntry(s, t, e);
    }
    SameElementsSameTies(a, b, leq, keys);
    assert TotalPreorder(ByKey(leq));
    SortIsInOrder(b, ByKey(leq));
    SortIsTheOnlyOne(b, Sort(b, ByKey(leq)), ByKey(leq));
    SortIsTheOnlyOne(a, Sort(b, ByKey(leq)), ByKey(leq));
  }

  lemma SameEntry(s: seq<Entry>, t: seq<Entry>, e: Entry)
    requires Consistent(s) && Consistent(t) && LabelsOf(s) == LabelsOf(t)
    ensures e in s && e.value.Some? <==> e in t && e.value.Some?
  {
    if e.value.Some? {
      LabelOfEntry(s, e);
      LabelOfEntry(t, e);
    }
  }

  lemma LabelOfEntry(entries: seq<Entry>, e: Entry)
    requires Consistent(entries) && e.value.Some?
    ensures e in entries <==> e.key in LabelsOf(entries) && LabelsOf(entries)[e.key] == e.value.value
  {
  }

  /** What a caller may hand over: a plain name and labels, each key once, from the keys in use. */
  predicate Usable(name: string, entries: seq<Entry>, keys: set<string>) {
    Plain(name, entries) && DistinctKeys(entries) && KeysWithin(entries, keys)
  }

  /** Two calls share a key exactly when they name the same metric. */
  lemma OneKeyPerMetric(name: string, s: seq<Entry>, other: string, t: seq<Entry>, leq: KeyOrder, keys: set<string>)
    requires Separates(leq, keys) && Usable(name, s, keys) && Usable(other, t, keys)
    ensures MetricKey(name, s, leq) == MetricKey(other, t, leq) <==> name == other && LabelsOf(s) == LabelsOf(t)
  {
    RoundTrip(name, s, leq);
    RoundTrip(other, t, leq);
    if name == other && LabelsOf(s) == LabelsOf(t) {
      SameLabelsSameKey(name, s, t, leq, keys);
    }
  }

  /**
    Two labels written in either order give one key exactly when the key order tells
    them apart: where it ties them, one metric gets two keys.
   */
  lemma OrderMattersIffTied(name: string, a: Entry, b: Entry, leq: KeyOrder)
    requires TotalPreorder(leq) && a.value.Some? && b.value.Some? && a.key != b.key
    requires '|' !in name && PlainEntry(a) && PlainEntry(b)
    ensures MetricKey(name, [a, b], leq) == MetricKey(name, [b, a], leq) <==> !Tied(leq, a.key, b.key)
  {
    if Tied(leq, a.key, b.key) {
      PrintedPair(name, a, b, leq);
      PrintedPair(name, b, a, leq);
      FirstPairOf(name, a, b);
      FirstPairOf(name, b, a);
      KeyOfPair(a);
      KeyOfPair(b);
    } else {
      var keys := {a.key, b.key};
      assert KeysWithin([a, b], keys) && KeysWithin([b, a], keys);
      forall e: Entry
        ensures e in [a, b] <==> e in [b, a]
      {
      }
      assert LabelsOf([a, b]) == LabelsOf([b, a]);
      SameLabelsSameKey(name, [a, b], [b, a], leq, keys);
    }
  }

  lemma PrintedPair(name: string, a: Entry, b: Entry, leq: KeyOrder)
    requires leq(a.key, b.key) && a.value.Some? && b.value.Some?
    ensures MetricKey(name, [a, b], leq) == name + Tail([a, b])
  {
    var two := [a, b];
    assert two[1..] == [b];
    assert Defined([b]) == [b];
    assert Defined(two) == [a] + Defined(two[1..]);
    assert Sort([b], ByKey(leq)) == [b];
    assert Sort(two, ByKey(leq)) == Insert(a, Sort(two[1..], ByKey(leq)), ByKey(leq));
    assert Insert(a, [b], ByKey(leq)) == two;
  }

  lemma SegmentAfterBar(pair: string, rest: string)
    requires '|' !in pair && (rest == "" || rest[0] == '|')
    ensures Before(("|" + pair + rest)[1..], '|') == pair
  {
    assert ("|" + pair + rest)[1..] == pair + rest;
    CutAt(pair, '|', rest);
  }

  /** The first segment of a key, cut out again. */
  lemma FirstPairOf(name: string, a: Entry, b: Entry)
    requires '|' !in name && PlainEntry(a) && a.value.Some?
    ensures From(name + Tail([a, b]), '|') == Tail([a, b])
    ensures Tail([a, b]) != "" && Before(Tail([a, b])[1..], '|') == Pair(a)
  {
    var others := [a, b][1..];
    ReadPairOf(map[], a);
    TailStartsWithBar(others);
    SegmentAfterBar(Pair(a), Tail(others));
    TailStartsWithBar([a, b]);
    CutAt(name, '|', Tail([a, b]));
  }

  lemma KeyOfPair(e: Entry)
    requires PlainEntry(e) && e.value.Some?
    ensures Before(Pair(e), '=') == e.key
  {
    CutAt(e.key, '=', "=" + e.value.value);
    assert Pair(e) == e.key + ("=" + e.value.value);
  }
}
