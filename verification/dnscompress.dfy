/** Compression by reference to earlier names: a condition on the names of a response alone. */
module DnsCompress {

  import opened Bytes
  import opened Options
  import opened Sequences
  import opened DnsName
  import opened Dns
  import opened DnsSerial

  /** A name and the positions in the response between which it is written. */
  datatype Placed = Placed(at: nat, name: Spelling, end: nat)

  function Place(n: Spelling, at: nat): Placed
    requires Writable(n)
  {
    Placed(at, n, at + |SpellingBytes(n)|)
  }

  function TailOf(n: Spelling): Labels { if n.Shared? then n.rest else [] }

  /** Where label m of a name written at `at` starts; past the last one, what ends the name. */
  function Boundary(p: Placed, m: nat): nat
    requires m <= |p.name.labels|
  {
    p.at + |LabelsBytes(p.name.labels[..m])|
  }

  /** The pointer of n goes to label m of p, and what follows there is the rest of n. */
  predicate RefersTo(n: Spelling, p: Placed, m: nat)
  {
    n.Shared? && m <= |p.name.labels| && n.target == Boundary(p, m) && n.rest == p.name.labels[m..] + TailOf(p.name)
  }

  /** Every pointer goes to a label of an earlier name, compressed itself or not. */
  ghost predicate BackRefs(names: seq<Placed>)
  {
    forall j :: 0 <= j < |names| && names[j].name.Shared? ==> HasRef(names, j)
  }

  ghost predicate HasRef(names: seq<Placed>, j: nat)
    requires j < |names|
  {
    exists i: nat, m: nat :: i < j && RefersTo(names[j].name, names[i], m)
  }

  // The names of a response, in order.

  function QuestionNames(qs: seq<Question>, at: nat): seq<Placed>
    requires AllAsk(qs)
    decreases qs
  {
    if qs == [] then []
    else
      RestAsks(qs);
      [Place(qs[0].name, at)] + QuestionNames(qs[1..], at + |QuestionText(qs[0])|)
  }

  lemma {:induction false} QuestionNamesSplit(qs: seq<Question>, at: nat, first: Placed, rest: seq<Placed>)
    requires AllAsk(qs) && qs != [] && QuestionFits(qs[0]) && AllAsk(qs[1..])
    requires first == Place(qs[0].name, at) && rest == QuestionNames(qs[1..], at + |QuestionText(qs[0])|)
    ensures QuestionNames(qs, at) == [first] + rest
  {
  }

  function EntryNames(e: Entry, at: nat): seq<Placed>
    requires EntryFits(e)
  {
    var owner := Place(e.owner, at);
    if TargetOf(e.record.rdata).Some? then [owner, Place(e.target, TargetAt(e, at))] else [owner]
  }

  function TargetAt(e: Entry, at: nat): nat
    requires EntryFits(e)
  {
    DataAt(e, at) + |Prefix(e.record.rdata)|
  }

  function EntriesNames(es: seq<Entry>, at: nat): seq<Placed>
    requires AllFit(es)
    decreases es
  {
    if es == [] then []
    else
      RestFits(es);
      EntryNames(es[0], at) + EntriesNames(es[1..], NextAt(es[0], at))
  }

  function NamesOf(qs: seq<Question>, es: seq<Entry>): seq<Placed>
    requires AllAsk(qs) && AllFit(es)
  {
    QuestionNames(qs, 12) + EntriesNames(es, 12 + |QuestionsText(qs)|)
  }

  // Names that stand in the data one after the other.

  predicate Written(data: seq<byte>, p: Placed)
  {
    Writable(p.name) && p.end == p.at + |SpellingBytes(p.name)| && Holds(data, p.at, SpellingBytes(p.name))
  }

  predicate AllWritten(data: seq<byte>, names: seq<Placed>)
  {
    forall j :: 0 <= j < |names| ==> Written(data, names[j])
  }

  predicate Ordered(names: seq<Placed>, lo: nat, hi: nat)
    decreases names
  {
    if names == [] then lo <= hi
    else lo <= names[0].at <= names[0].end && Ordered(names[1..], names[0].end, hi)
  }

  lemma {:induction false} WrittenJoin(data: seq<byte>, a: seq<Placed>, b: seq<Placed>)
    requires AllWritten(data, a) && AllWritten(data, b)
    ensures AllWritten(data, a + b)
  {
    forall j | 0 <= j < |a + b| ensures Written(data, (a + b)[j]) {
      assert (a + b)[j] == if j < |a| then a[j] else b[j - |a|];
    }
  }

  lemma {:induction false} OrderedJoin(a: seq<Placed>, b: seq<Placed>, lo: nat, mid: nat, hi: nat)
    requires Ordered(a, lo, mid) && Ordered(b, mid, hi)
    ensures Ordered(a + b, lo, hi)
    decreases a
  {
    if a == [] {
      assert a + b == b;
    } else {
      assert (a + b)[0] == a[0] && (a + b)[1..] == a[1..] + b;
      OrderedJoin(a[1..], b, a[0].end, mid, hi);
    }
  }

  lemma {:induction false} OrderedFrom(names: seq<Placed>, lo: nat, hi: nat, i: nat)
    requires Ordered(names, lo, hi) && i < |names|
    ensures lo <= names[i].at
    decreases names
  {
    if i > 0 { OrderedFrom(names[1..], names[0].end, hi, i - 1); }
  }

  /** An earlier name ends before a later one starts. */
  lemma {:induction false} OrderedPair(names: seq<Placed>, lo: nat, hi: nat, i: nat, j: nat)
    requires Ordered(names, lo, hi) && i < j < |names|
    ensures names[i].end <= names[j].at
    decreases names
  {
    if i == 0 {
      OrderedFrom(names[1..], names[0].end, hi, j - 1);
    } else {
      OrderedPair(names[1..], names[0].end, hi, i - 1, j - 1);
    }
  }

  predicate InPlace(data: seq<byte>, names: seq<Placed>, lo: nat, hi: nat)
  {
    Ordered(names, lo, hi) && AllWritten(data, names)
  }

  lemma {:induction false} InPlaceJoin(data: seq<byte>, a: seq<Placed>, b: seq<Placed>, lo: nat, mid: nat, hi: nat)
    requires InPlace(data, a, lo, mid) && InPlace(data, b, mid, hi)
    ensures InPlace(data, a + b, lo, hi)
  {
    OrderedJoin(a, b, lo, mid, hi);
    WrittenJoin(data, a, b);
  }

  lemma {:induction false} InPlaceOne(data: seq<byte>, p: Placed, lo: nat, hi: nat)
    requires Written(data, p) && lo <= p.at && p.end <= hi
    ensures InPlace(data, [p], lo, hi)
  {
    assert [p][1..] == [];
  }

  // What stands at a label of a name.

  lemma {:induction false} LabelsSplit(labels: Labels, m: nat)
    requires m <= |labels|
    ensures LabelsBytes(labels) == LabelsBytes(labels[..m]) + LabelsBytes(labels[m..])
    decreases labels
  {
    hide LabelBytes;
    if m == 0 {
      assert labels[..0] == [] && labels[0..] == labels;
    } else {
      var first, rest := labels[0], labels[1..];
      LabelsSplit(rest, m - 1);
      assert labels[..m][0] == first && labels[..m][1..] == rest[..m - 1] && labels[m..] == rest[m - 1..];
      assert LabelsBytes(labels[..m]) == LabelBytes(first) + LabelsBytes(rest[..m - 1]);
    }
  }

  lemma {:induction false} BoundaryInside(data: seq<byte>, p: Placed, m: nat)
    requires Written(data, p) && m <= |p.name.labels|
    ensures p.at <= Boundary(p, m) < p.end
  {
    LabelsSplit(p.name.labels, m);
  }

  lemma {:induction false} HoldsTail(data: seq<byte>, at: nat, a: seq<byte>, b: seq<byte>, c: seq<byte>)
    requires Holds(data, at, (a + b) + c)
    ensures Holds(data, at + |a|, b + c)
  {
    assert (a + b) + c == a + (b + c);
    HoldsParts(data, at, a, b + c);
  }

  lemma {:induction false} ShortSuffix(labels: Labels, m: nat)
    requires ShortLabels(labels) && m <= |labels|
    ensures ShortLabels(labels[m..])
  {
  }

  lemma {:induction false} SharedMeans(data: seq<byte>, at: nat, front: seq<byte>, rest: Labels, target: nat, earlier: Meaning)
    requires ShortLabels(rest) && target < at && target < 0x4000 && Means(data, target, target) == Some(earlier)
    requires Holds(data, at, (front + LabelsBytes(rest)) + PointerBytes(target))
    ensures Means(data, at + |front|, at + |front|).Some?
    ensures Means(data, at + |front|, at + |front|).value.labels == rest + earlier.labels
  {
    HoldsTail(data, at, front, LabelsBytes(rest), PointerBytes(target));
    CompressedNameMeans(data, at + |front|, rest, target, earlier);
  }

  /** From any of its labels on, a name means its remaining labels and what its pointer adds. */
  lemma {:induction false} BoundaryMeans(data: seq<byte>, p: Placed, m: nat)
    requires Written(data, p) && Points(data, p.at, p.name) && m <= |p.name.labels|
    ensures Means(data, Boundary(p, m), Boundary(p, m)).Some?
    ensures Means(data, Boundary(p, m), Boundary(p, m)).value.labels == p.name.labels[m..] + TailOf(p.name)
  {
    hide Means, LabelsBytes, Holds, ShortLabels, PointerBytes;
    var labels := p.name.labels;
    var front := LabelsBytes(labels[..m]);
    LabelsSplit(labels, m);
    ShortSuffix(labels, m);
    if p.name.Full? {
      Regroup(front, LabelsBytes(labels[m..]), [0]);
      SuffixMeans(data, p.at, labels[..m], labels[m..]);
      assert labels[m..] + [] == labels[m..];
    } else {
      SharedMeans(data, p.at, front, labels[m..], p.name.target, Means(data, p.name.target, p.name.target).value);
    }
  }

  /** If pointers go to labels of earlier names, they mean what they stand for. */
  lemma {:induction false} RefsPoint(data: seq<byte>, names: seq<Placed>, lo: nat, hi: nat, j: nat)
    requires Ordered(names, lo, hi) && AllWritten(data, names) && BackRefs(names) && j < |names|
    ensures Points(data, names[j].at, names[j].name)
    decreases j
  {
    if names[j].name.Shared? {
      assert HasRef(names, j);
      var i: nat, m: nat :| i < j && RefersTo(names[j].name, names[i], m);
      RefsPoint(data, names, lo, hi, i);
      OrderedPair(names, lo, hi, i, j);
      assert Written(data, names[i]);
      BoundaryInside(data, names[i], m);
      BoundaryMeans(data, names[i], m);
    }
  }

  // The names of a response are in place in its bytes.

  lemma {:induction false} QuestionPlaced(data: seq<byte>, at: nat, q: Question)
    requires QuestionFits(q) && Holds(data, at, QuestionText(q))
    ensures InPlace(data, [Place(q.name, at)], at, at + |QuestionText(q)|)
  {
    HoldsParts(data, at, SpellingBytes(q.name), q.kind);
    InPlaceOne(data, Place(q.name, at), at, at + |QuestionText(q)|);
  }

  lemma {:induction false} QuestionsApart(data: seq<byte>, at: nat, qs: seq<Question>, next: nat, end: nat)
    requires AllAsk(qs) && qs != [] && QuestionFits(qs[0]) && AllAsk(qs[1..]) && next == at + |QuestionText(qs[0])|
    requires Holds(data, at, QuestionsText(qs)) && end == at + |QuestionsText(qs)|
    ensures Holds(data, at, QuestionText(qs[0])) && Holds(data, next, QuestionsText(qs[1..]))
    ensures end == next + |QuestionsText(qs[1..])|
  {
    var first, later := QuestionText(qs[0]), QuestionsText(qs[1..]);
    TextApart(qs, first, later);
    HoldsParts(data, at, first, later);
  }

  lemma {:induction false} QuestionNamesFirst(data: seq<byte>, at: nat, qs: seq<Question>, next: nat, end: nat, first: Placed, rest: seq<Placed>)
    requires AllAsk(qs) && qs != [] && QuestionFits(qs[0]) && AllAsk(qs[1..]) && next == at + |QuestionText(qs[0])|
    requires first == Place(qs[0].name, at) && rest == QuestionNames(qs[1..], next)
    requires InPlace(data, [first], at, next) && InPlace(data, rest, next, end)
    ensures InPlace(data, QuestionNames(qs, at), at, end)
  {
    hide InPlace, QuestionText, Place;
    InPlaceJoin(data, [first], rest, at, next, end);
    QuestionNamesSplit(qs, at, first, rest);
  }

  lemma {:induction false} QuestionNamesPlaced(data: seq<byte>, at: nat, qs: seq<Question>, end: nat)
    requires AllAsk(qs) && Holds(data, at, QuestionsText(qs)) && end == at + |QuestionsText(qs)|
    ensures InPlace(data, QuestionNames(qs, at), at, end)
    decreases qs
  {
    if qs != [] {
      RestAsks(qs);
      var next := at + |QuestionText(qs[0])|;
      QuestionsApart(data, at, qs, next, end);
      QuestionPlaced(data, at, qs[0]);
      QuestionNamesPlaced(data, next, qs[1..], end);
      QuestionNamesFirst(data, at, qs, next, end, Place(qs[0].name, at), QuestionNames(qs[1..], next));
    }
  }

  lemma {:induction false} TargetHolds(data: seq<byte>, at: nat, e: Entry)
    requires EntryFits(e) && Holds(data, at, EntryBytes(e)) && TargetOf(e.record.rdata).Some?
    ensures Holds(data, TargetAt(e, at), SpellingBytes(e.target))
    ensures TargetAt(e, at) + |SpellingBytes(e.target)| == NextAt(e, at)
  {
    var d := e.record.rdata;
    FixedIsTen(e);
    ThreeHeld(data, at, SpellingBytes(e.owner), EntryFixed(e), DataBytes(d, e.target));
    HoldsParts(data, DataAt(e, at), Prefix(d), SpellingBytes(e.target));
  }

  lemma {:induction false} OwnerHolds(data: seq<byte>, at: nat, e: Entry)
    requires EntryFits(e) && Holds(data, at, EntryBytes(e))
    ensures Holds(data, at, SpellingBytes(e.owner)) && at + |SpellingBytes(e.owner)| + 10 <= NextAt(e, at)
  {
    FixedIsTen(e);
    HoldsParts(data, at, SpellingBytes(e.owner), EntryFixed(e) + DataBytes(e.record.rdata, e.target));
  }

  lemma {:induction false} EntryNamesPlaced(data: seq<byte>, at: nat, e: Entry)
    requires EntryFits(e) && Holds(data, at, EntryBytes(e))
    ensures InPlace(data, EntryNames(e, at), at, NextAt(e, at))
  {
    OwnerHolds(data, at, e);
    var owner := Place(e.owner, at);
    if TargetOf(e.record.rdata).Some? {
      TargetHolds(data, at, e);
      var target := Place(e.target, TargetAt(e, at));
      InPlaceOne(data, owner, at, DataAt(e, at));
      InPlaceOne(data, target, DataAt(e, at), NextAt(e, at));
      InPlaceJoin(data, [owner], [target], at, DataAt(e, at), NextAt(e, at));
      assert [owner] + [target] == [owner, target];
    } else {
      InPlaceOne(data, owner, at, NextAt(e, at));
    }
  }

  lemma {:induction false} EntriesApart(data: seq<byte>, at: nat, es: seq<Entry>, next: nat, end: nat)
    requires AllFit(es) && es != [] && EntryFits(es[0]) && AllFit(es[1..]) && next == NextAt(es[0], at)
    requires Holds(data, at, EntriesBytes(es)) && end == at + |EntriesBytes(es)|
    ensures Holds(data, at, EntryBytes(es[0])) && Holds(data, next, EntriesBytes(es[1..]))
    ensures end == next + |EntriesBytes(es[1..])|
  {
    var first, later := EntryBytes(es[0]), EntriesBytes(es[1..]);
    BytesApart(es, first, later);
    HoldsParts(data, at, first, later);
  }

  lemma {:induction false} EntriesNamesFirst(data: seq<byte>, at: nat, es: seq<Entry>, next: nat, end: nat)
    requires AllFit(es) && es != [] && EntryFits(es[0]) && AllFit(es[1..]) && next == NextAt(es[0], at)
    requires InPlace(data, EntryNames(es[0], at), at, next) && InPlace(data, EntriesNames(es[1..], next), next, end)
    ensures InPlace(data, EntriesNames(es, at), at, end)
  {
    InPlaceJoin(data, EntryNames(es[0], at), EntriesNames(es[1..], next), at, next, end);
  }

  lemma {:induction false} EntriesNamesPlaced(data: seq<byte>, at: nat, es: seq<Entry>, end: nat)
    requires AllFit(es) && Holds(data, at, EntriesBytes(es)) && end == at + |EntriesBytes(es)|
    ensures InPlace(data, EntriesNames(es, at), at, end)
    decreases es
  {
    if es != [] {
      RestFits(es);
      var next := NextAt(es[0], at);
      EntriesApart(data, at, es, next, end);
      EntryNamesPlaced(data, at, es[0]);
      EntriesNamesPlaced(data, next, es[1..], end);
      EntriesNamesFirst(data, at, es, next, end);
    }
  }

  // So all pointers of the response point.

  ghost predicate AllPoint(data: seq<byte>, names: seq<Placed>)
  {
    forall j :: 0 <= j < |names| ==> Points(data, names[j].at, names[j].name)
  }

  lemma {:induction false} AllPointParts(data: seq<byte>, a: seq<Placed>, b: seq<Placed>)
    requires AllPoint(data, a + b)
    ensures AllPoint(data, a) && AllPoint(data, b)
  {
    forall j | 0 <= j < |a| ensures Points(data, a[j].at, a[j].name) {
      assert (a + b)[j] == a[j];
    }
    forall j | 0 <= j < |b| ensures Points(data, b[j].at, b[j].name) {
      assert (a + b)[|a| + j] == b[j];
    }
  }

  lemma {:induction false} QuestionsPointing(data: seq<byte>, at: nat, qs: seq<Question>)
    requires AllAsk(qs) && AllPoint(data, QuestionNames(qs, at))
    ensures QuestionsPoint(data, at, qs)
    decreases qs
  {
    hide QuestionText, SpellingBytes, Points, QuestionNames;
    if qs != [] {
      RestAsks(qs);
      var p, later := Place(qs[0].name, at), QuestionNames(qs[1..], at + |QuestionText(qs[0])|);
      QuestionNamesSplit(qs, at, p, later);
      AllPointParts(data, [p], later);
      assert Points(data, [p][0].at, [p][0].name);
      QuestionsPointing(data, at + |QuestionText(qs[0])|, qs[1..]);
    }
  }

  lemma {:induction false} EntryPointing(data: seq<byte>, at: nat, e: Entry)
    requires EntryFits(e) && AllPoint(data, EntryNames(e, at))
    ensures EntryPoints(data, at, e)
  {
    var names := EntryNames(e, at);
    assert Points(data, names[0].at, names[0].name);
    if TargetOf(e.record.rdata).Some? {
      assert Points(data, names[1].at, names[1].name);
    }
  }

  lemma {:induction false} EntriesPointing(data: seq<byte>, at: nat, es: seq<Entry>)
    requires AllFit(es) && AllPoint(data, EntriesNames(es, at))
    ensures EntriesPoint(data, at, es)
    decreases es
  {
    if es != [] {
      RestFits(es);
      AllPointParts(data, EntryNames(es[0], at), EntriesNames(es[1..], NextAt(es[0], at)));
      EntryPointing(data, at, es[0]);
      EntriesPointing(data, NextAt(es[0], at), es[1..]);
    }
  }

  lemma {:induction false} NamesPlaced(data: seq<byte>, qs: seq<Question>, es: seq<Entry>, mid: nat, end: nat)
    requires AllAsk(qs) && AllFit(es) && mid == 12 + |QuestionsText(qs)| && end == mid + |EntriesBytes(es)|
    requires Holds(data, 12, QuestionsText(qs)) && Holds(data, mid, EntriesBytes(es))
    ensures InPlace(data, NamesOf(qs, es), 12, end)
  {
    hide Holds, QuestionsText, EntriesBytes, InPlace, QuestionNames, EntriesNames;
    QuestionNamesPlaced(data, 12, qs, mid);
    EntriesNamesPlaced(data, mid, es, end);
    InPlaceJoin(data, QuestionNames(qs, 12), EntriesNames(es, mid), 12, mid, end);
  }

  lemma {:induction false} ResponseHolds(h: seq<byte>, text: seq<byte>, entries: seq<byte>, more: seq<byte>, data: seq<byte>)
    requires |h| == 12 && data == h + (text + (entries + more))
    ensures Holds(data, 12, text) && Holds(data, 12 + |text|, entries)
  {
    HoldsSelf(h, text + (entries + more));
    HoldsParts(data, 12, text, entries + more);
    HoldsParts(data, 12 + |text|, entries, more);
  }

  lemma {:induction false} NamesPoint(data: seq<byte>, names: seq<Placed>, lo: nat, hi: nat)
    requires InPlace(data, names, lo, hi) && BackRefs(names)
    ensures AllPoint(data, names)
  {
    forall j | 0 <= j < |names| ensures Points(data, names[j].at, names[j].name) {
      RefsPoint(data, names, lo, hi, j);
    }
  }

  lemma {:induction false} NamesCompress(data: seq<byte>, qs: seq<Question>, es: seq<Entry>)
    requires AllAsk(qs) && AllFit(es) && AllPoint(data, NamesOf(qs, es))
    ensures Compressed(data, qs, es)
  {
    var mid := 12 + |QuestionsText(qs)|;
    AllPointParts(data, QuestionNames(qs, 12), EntriesNames(es, mid));
    QuestionsPointing(data, 12, qs);
    EntriesPointing(data, mid, es);
  }

  /** References to earlier names are enough for every pointer to mean what it stands for. */
  lemma {:induction false} RefsCompress(h: seq<byte>, qs: seq<Question>, es: seq<Entry>, more: seq<byte>, data: seq<byte>)
    requires AllAsk(qs) && AllFit(es) && |h| == 12 && data == ResponseBytes(h, qs, es, more)
    requires BackRefs(NamesOf(qs, es))
    ensures Compressed(data, qs, es)
  {
    var text, entries := QuestionsText(qs), EntriesBytes(es);
    var end := 12 + |text| + |entries|;
    assert InPlace(data, NamesOf(qs, es), 12, end) by {
      ResponseHolds(h, text, entries, more, data);
      NamesPlaced(data, qs, es, 12 + |text|, end);
    }
    NamesPoint(data, NamesOf(qs, es), 12, end);
    NamesCompress(data, qs, es);
  }

  /**
   * From every response made of these questions and entries, whose pointers go to labels
   * of earlier names, the parser returns exactly the values of the wanted records, in order.
   */
  lemma {:induction false} SerializedRoundTrip(h: seq<byte>, qs: seq<Question>, es: seq<Entry>, more: seq<byte>, data: seq<byte>, wanted: nat)
    requires AllAsk(qs) && AllFit(es) && IsHeader(h, |qs|, |es|) && BackRefs(NamesOf(qs, es))
    requires data == ResponseBytes(h, qs, es, more)
    ensures AnswersOf(data, wanted) == Answers(Flatten(Records(es), wanted))
  {
    RefsCompress(h, qs, es, more, data);
    ResponseRoundTrip(h, qs, es, more, data, wanted);
  }
}
