/** Serialised DNS responses, with names written out or compressed, and what parsing them gives. */
module DnsSerial {

  import opened Bytes
  import opened Options
  import opened DnsName
  import opened Dns

  /** A name as it is written: all its labels, or some and a pointer to where the rest stands. */
  datatype Spelling = Full(labels: Labels) | Shared(labels: Labels, target: nat, rest: Labels)

  function Spelled(n: Spelling): Labels
  {
    match n
    case Full(labels) => labels
    case Shared(labels, _, rest) => labels + rest
  }

  predicate Writable(n: Spelling)
  {
    ShortLabels(n.labels) && (n.Shared? ==> n.target < 0x4000)
  }

  function SpellingBytes(n: Spelling): seq<byte>
    requires Writable(n)
  {
    match n
    case Full(labels) => LabelsBytes(labels) + [0]
    case Shared(labels, target, _) => LabelsBytes(labels) + PointerBytes(target)
  }

  /** A pointer goes back to a place where the rest of the name stands. */
  predicate Points(data: seq<byte>, at: nat, n: Spelling)
  {
    n.Shared? ==>
      n.target < at && Means(data, n.target, n.target).Some? && Means(data, n.target, n.target).value.labels == n.rest
  }

  lemma {:induction false} SpellingMeans(data: seq<byte>, at: nat, n: Spelling)
    requires Writable(n) && Holds(data, at, SpellingBytes(n)) && Points(data, at, n)
    ensures NameBytes(data, at, Spelled(n), at + |SpellingBytes(n)|)
  {
    match n
    case Full(labels) => PlainNameMeans(data, at, at, labels);
    case Shared(labels, target, rest) => CompressedNameMeans(data, at, labels, target, Means(data, target, target).value);
  }

  /** The end of a name written out in full is itself a name that pointers can go to. */
  lemma {:induction false} SuffixMeans(data: seq<byte>, at: nat, before: Labels, rest: Labels)
    requires ShortLabels(rest) && Holds(data, at, LabelsBytes(before) + (LabelsBytes(rest) + [0]))
    ensures var here := at + |LabelsBytes(before)|;
            Means(data, here, here).Some? && Means(data, here, here).value.labels == rest
  {
    var here := at + |LabelsBytes(before)|;
    HoldsParts(data, at, LabelsBytes(before), LabelsBytes(rest) + [0]);
    PlainNameMeans(data, here, here, rest);
  }

  // Records.

  /** A record, the spelling of its owner's name and of the name in its data. */
  datatype Entry = Entry(record: Record, owner: Spelling, target: Spelling)

  function TargetOf(d: Rdata): Option<Labels>
  {
    match d
    case Mail(_, exchange) => Some(exchange)
    case Service(_, _, _, target) => Some(target)
    case NameOf(_, name) => Some(name)
    case _ => None
  }

  predicate DataFits(d: Rdata)
  {
    match d
    case Address4(o) => |o| == 4
    case Address6(o) => |o| == 16
    case Mail(p, _) => p < 0x1_0000
    case Txt(segments) => forall i :: 0 <= i < |segments| ==> |segments[i]| < 256
    case Service(p, w, port, _) => p < 0x1_0000 && w < 0x1_0000 && port < 0x1_0000
    case NameOf(kind, _) => IsNameType(kind)
    case Unknown(kind, _) => !IsKnown(kind) && kind < 0x1_0000
  }

  /** What the data of a record holds before the name in it. */
  function Prefix(d: Rdata): seq<byte>
    requires DataFits(d)
  {
    match d
    case Mail(p, _) => U16Bytes(p)
    case Service(p, w, port, _) => U16Bytes(p) + (U16Bytes(w) + U16Bytes(port))
    case _ => []
  }

  function DataBytes(d: Rdata, target: Spelling): seq<byte>
    requires DataFits(d) && Writable(target)
  {
    match d
    case Address4(o) => o
    case Address6(o) => o
    case Txt(segments) => LabelsBytes(segments)
    case Unknown(_, bytes) => bytes
    case _ => Prefix(d) + SpellingBytes(target)
  }

  predicate EntryFits(e: Entry)
  {
    && Writable(e.owner) && Writable(e.target) && Spelled(e.owner) == e.record.name
    && DataFits(e.record.rdata) && (TargetOf(e.record.rdata).Some? ==> TargetOf(e.record.rdata).value == Spelled(e.target))
    && e.record.rclass < 0x1_0000 && e.record.ttl < 0x1_0000_0000
    && |DataBytes(e.record.rdata, e.target)| < 0x1_0000
  }

  lemma {:induction false} TypeFits(d: Rdata)
    requires DataFits(d)
    ensures TypeOf(d) < 0x1_0000
  {
  }

  function FixedBytes(rtype: nat, rclass: nat, ttl: nat, length: nat): seq<byte>
    requires rtype < 0x1_0000 && rclass < 0x1_0000 && ttl < 0x1_0000_0000 && length < 0x1_0000
  {
    U16Bytes(rtype) + (U16Bytes(rclass) + (U16Bytes(ttl / 0x1_0000) + (U16Bytes(ttl % 0x1_0000) + U16Bytes(length))))
  }

  function EntryFixed(e: Entry): seq<byte>
    requires EntryFits(e)
  {
    TypeFits(e.record.rdata);
    FixedBytes(TypeOf(e.record.rdata), e.record.rclass, e.record.ttl, |DataBytes(e.record.rdata, e.target)|)
  }

  function EntryBytes(e: Entry): seq<byte>
    requires EntryFits(e)
  {
    SpellingBytes(e.owner) + (EntryFixed(e) + DataBytes(e.record.rdata, e.target))
  }

  lemma {:induction false} U16Held(data: seq<byte>, at: nat, n: nat)
    requires n < 0x1_0000 && Holds(data, at, U16Bytes(n))
    ensures U16(data, at) == n
  {
    assert data[at + 0] == U16Bytes(n)[0] && data[at + 1] == U16Bytes(n)[1];
  }

  lemma {:induction false} FixedHeld(data: seq<byte>, at: nat, rtype: nat, rclass: nat, ttl: nat, length: nat)
    requires rtype < 0x1_0000 && rclass < 0x1_0000 && ttl < 0x1_0000_0000 && length < 0x1_0000
    requires Holds(data, at, FixedBytes(rtype, rclass, ttl, length))
    ensures at + 10 <= |data| && U16(data, at) == rtype && U16(data, at + 2) == rclass
    ensures U32(data, at + 4) == ttl && U16(data, at + 8) == length
  {
    var high, low := U16Bytes(ttl / 0x1_0000), U16Bytes(ttl % 0x1_0000);
    HoldsParts(data, at, U16Bytes(rtype), U16Bytes(rclass) + (high + (low + U16Bytes(length))));
    HoldsParts(data, at + 2, U16Bytes(rclass), high + (low + U16Bytes(length)));
    HoldsParts(data, at + 4, high, low + U16Bytes(length));
    HoldsParts(data, at + 6, low, U16Bytes(length));
    U16Held(data, at, rtype);
    U16Held(data, at + 2, rclass);
    U16Held(data, at + 4, ttl / 0x1_0000);
    U16Held(data, at + 6, ttl % 0x1_0000);
    U16Held(data, at + 8, length);
  }

  lemma {:induction false} PrefixHeld(data: seq<byte>, at: nat, d: Rdata)
    requires DataFits(d) && Holds(data, at, Prefix(d))
    ensures d.Mail? ==> at + 2 <= |data| && U16(data, at) == d.priority
    ensures d.Service? ==> at + 6 <= |data| && U16(data, at) == d.priority
                           && U16(data, at + 2) == d.weight && U16(data, at + 4) == d.port
  {
    if d.Mail? {
      U16Held(data, at, d.priority);
    } else if d.Service? {
      HoldsParts(data, at, U16Bytes(d.priority), U16Bytes(d.weight) + U16Bytes(d.port));
      HoldsParts(data, at + 2, U16Bytes(d.weight), U16Bytes(d.port));
      U16Held(data, at, d.priority);
      U16Held(data, at + 2, d.weight);
      U16Held(data, at + 4, d.port);
    }
  }

  lemma {:induction false} DataHeld(data: seq<byte>, at: nat, d: Rdata, target: Spelling, end: nat)
    requires DataFits(d) && Writable(target) && Holds(data, at, DataBytes(d, target))
    requires end == at + |DataBytes(d, target)|
    requires TargetOf(d).Some? ==> TargetOf(d).value == Spelled(target) && Points(data, at + |Prefix(d)|, target)
    ensures RdataBytes(data, at, end, d)
  {
    if TargetOf(d).Some? {
      TargetHeld(data, at, d, target, end);
    } else {
      HeldSlice(data, at, DataBytes(d, target));
    }
  }

  lemma {:induction false} TargetHeld(data: seq<byte>, at: nat, d: Rdata, target: Spelling, end: nat)
    requires DataFits(d) && Writable(target) && Holds(data, at, Prefix(d) + SpellingBytes(target))
    requires end == at + |Prefix(d) + SpellingBytes(target)| && TargetOf(d) == Some(Spelled(target))
    requires Points(data, at + |Prefix(d)|, target)
    ensures RdataBytes(data, at, end, d)
  {
    var mid := at + |Prefix(d)|;
    HoldsParts(data, at, Prefix(d), SpellingBytes(target));
    PrefixHeld(data, at, d);
    assert NameBytes(data, mid, Spelled(target), end) by { SpellingMeans(data, mid, target); }
    TargetIn(data, at, d, Spelled(target), mid, end);
  }

  lemma {:induction false} TargetIn(data: seq<byte>, at: nat, d: Rdata, name: Labels, mid: nat, end: nat)
    requires DataFits(d) && TargetOf(d) == Some(name) && mid == at + |Prefix(d)| && mid <= end <= |data|
    requires NameBytes(data, mid, name, end)
    requires d.Mail? ==> U16(data, at) == d.priority
    requires d.Service? ==> U16(data, at) == d.priority && U16(data, at + 2) == d.weight && U16(data, at + 4) == d.port
    ensures RdataBytes(data, at, end, d)
  {
  }

  /** Where the data of an entry starts when the entry starts at `at`. */
  function DataAt(e: Entry, at: nat): nat
    requires EntryFits(e)
  {
    at + |SpellingBytes(e.owner)| + 10
  }

  predicate EntryPoints(data: seq<byte>, at: nat, e: Entry)
    requires EntryFits(e)
  {
    && Points(data, at, e.owner)
    && (TargetOf(e.record.rdata).Some? ==> Points(data, DataAt(e, at) + |Prefix(e.record.rdata)|, e.target))
  }

  lemma {:induction false} ThreeHeld(data: seq<byte>, at: nat, a: seq<byte>, b: seq<byte>, c: seq<byte>)
    requires Holds(data, at, a + (b + c))
    ensures Holds(data, at, a) && Holds(data, at + |a|, b) && Holds(data, at + |a| + |b|, c)
  {
    HoldsParts(data, at, a, b + c);
    HoldsParts(data, at + |a|, b, c);
  }

  lemma {:induction false} FixedPartHeld(data: seq<byte>, mid: nat, e: Entry, length: nat)
    requires EntryFits(e) && Holds(data, mid, EntryFixed(e)) && length == |DataBytes(e.record.rdata, e.target)|
    ensures mid + 10 <= |data| && U16(data, mid) == TypeOf(e.record.rdata) && U16(data, mid + 2) == e.record.rclass
    ensures U32(data, mid + 4) == e.record.ttl && U16(data, mid + 8) == length
  {
    TypeFits(e.record.rdata);
    FixedHeld(data, mid, TypeOf(e.record.rdata), e.record.rclass, e.record.ttl, length);
  }

  /** The parts of an entry, in place, make up its record. */
  lemma {:induction false} PartsHeld(data: seq<byte>, at: nat, e: Entry, mid: nat, end: nat)
    requires EntryFits(e) && EntryPoints(data, at, e) && mid == at + |SpellingBytes(e.owner)|
    requires Holds(data, at, SpellingBytes(e.owner)) && Holds(data, mid, EntryFixed(e))
    requires Holds(data, mid + 10, DataBytes(e.record.rdata, e.target))
    requires end == mid + 10 + |DataBytes(e.record.rdata, e.target)|
    ensures RecordBytes(data, at, mid, end, e.record)
  {
    hide SpellingBytes, EntryFixed, DataBytes, Points, RecordBytes, NameBytes, RdataBytes;
    var r := e.record;
    assert NameBytes(data, at, r.name, mid) by { SpellingMeans(data, at, e.owner); }
    assert RdataBytes(data, mid + 10, end, r.rdata) by { DataHeld(data, mid + 10, r.rdata, e.target, end); }
    FixedPartHeld(data, mid, e, end - (mid + 10));
    Assembled(data, at, mid, end, r);
  }

  lemma {:induction false} Assembled(data: seq<byte>, at: nat, mid: nat, end: nat, r: Record)
    requires NameBytes(data, at, r.name, mid) && mid + 10 <= end <= |data|
    requires U16(data, mid) == TypeOf(r.rdata) && U16(data, mid + 2) == r.rclass && U32(data, mid + 4) == r.ttl
    requires U16(data, mid + 8) == end - (mid + 10) && RdataBytes(data, mid + 10, end, r.rdata)
    ensures RecordBytes(data, at, mid, end, r)
  {
  }

  lemma {:induction false} EntryHeld(data: seq<byte>, at: nat, e: Entry, end: nat)
    requires EntryFits(e) && Holds(data, at, EntryBytes(e)) && EntryPoints(data, at, e) && end == at + |EntryBytes(e)|
    ensures RecordBytes(data, at, at + |SpellingBytes(e.owner)|, end, e.record)
  {
    hide Holds, SpellingBytes, EntryFixed, EntryPoints, RecordBytes;
    var name, fixed, d := SpellingBytes(e.owner), EntryFixed(e), DataBytes(e.record.rdata, e.target);
    FixedIsTen(e);
    assert Holds(data, at, name + (fixed + d));
    ThreeHeld(data, at, name, fixed, d);
    PartsHeld(data, at, e, at + |name|, end);
  }

  lemma {:induction false} FixedIsTen(e: Entry)
    requires EntryFits(e)
    ensures |EntryFixed(e)| == 10
  {
  }

  // Whole responses.

  predicate AllFit(es: seq<Entry>)
  {
    forall i :: 0 <= i < |es| ==> EntryFits(es[i])
  }

  function EntriesBytes(es: seq<Entry>): seq<byte>
    requires AllFit(es)
  {
    if es == [] then [] else EntryBytes(es[0]) + EntriesBytes(es[1..])
  }

  /** Where the next entry starts. */
  function NextAt(e: Entry, at: nat): nat
    requires EntryFits(e)
  {
    at + |EntryBytes(e)|
  }

  predicate EntriesPoint(data: seq<byte>, at: nat, es: seq<Entry>)
    requires AllFit(es)
    decreases es
  {
    es == [] || (EntryPoints(data, at, es[0]) && EntriesPoint(data, NextAt(es[0], at), es[1..]))
  }

  function Records(es: seq<Entry>): seq<Record>
  {
    if es == [] then [] else [es[0].record] + Records(es[1..])
  }

  lemma {:induction false} FirstPoints(data: seq<byte>, at: nat, es: seq<Entry>, next: nat)
    requires AllFit(es) && es != [] && EntriesPoint(data, at, es)
    requires EntryFits(es[0]) && AllFit(es[1..]) && next == NextAt(es[0], at)
    ensures EntryPoints(data, at, es[0]) && EntriesPoint(data, next, es[1..])
  {
  }

  lemma {:induction false} RestFits(es: seq<Entry>)
    requires AllFit(es) && es != []
    ensures EntryFits(es[0]) && AllFit(es[1..])
  {
  }

  lemma {:induction false} BytesApart(es: seq<Entry>, first: seq<byte>, later: seq<byte>)
    requires AllFit(es) && es != [] && EntryFits(es[0]) && AllFit(es[1..])
    requires first == EntryBytes(es[0]) && later == EntriesBytes(es[1..])
    ensures EntriesBytes(es) == first + later
  {
  }

  lemma {:induction false} FirstEntry(data: seq<byte>, at: nat, es: seq<Entry>, next: nat)
    requires AllFit(es) && es != [] && next == at + |EntryBytes(es[0])|
    requires Holds(data, at, EntriesBytes(es)) && EntriesPoint(data, at, es)
    ensures EntryFits(es[0]) && Holds(data, at, EntryBytes(es[0])) && EntryPoints(data, at, es[0])
    ensures AllFit(es[1..]) && Holds(data, next, EntriesBytes(es[1..])) && EntriesPoint(data, next, es[1..])
  {
    RestFits(es);
    var first, later := EntryBytes(es[0]), EntriesBytes(es[1..]);
    BytesApart(es, first, later);
    HoldsParts(data, at, first, later);
    FirstPoints(data, at, es, next);
  }

  lemma {:induction false} EntriesHeld(data: seq<byte>, at: nat, es: seq<Entry>)
    requires AllFit(es) && Holds(data, at, EntriesBytes(es)) && EntriesPoint(data, at, es)
    ensures RecordsBytes(data, at, Records(es))
    decreases es
  {
    if es != [] {
      var next := at + |EntryBytes(es[0])|;
      var mid := at + |SpellingBytes(es[0].owner)|;
      assert RecordBytes(data, at, mid, next, es[0].record) by {
        FirstEntry(data, at, es, next);
        EntryHeld(data, at, es[0], next);
      }
      assert RecordsBytes(data, next, Records(es[1..])) by {
        FirstEntry(data, at, es, next);
        EntriesHeld(data, next, es[1..]);
      }
      FirstRecord(data, at, mid, next, es[0].record, Records(es[1..]));
    }
  }

  lemma {:induction false} FirstRecord(data: seq<byte>, at: nat, mid: nat, end: nat, r: Record, rest: seq<Record>)
    requires RecordBytes(data, at, mid, end, r) && RecordsBytes(data, end, rest)
    ensures RecordsBytes(data, at, [r] + rest)
  {
    var rs := [r] + rest;
    assert rs[0] == r && rs[1..] == rest;
  }

  /** A question: a name, and four bytes for type and class. */
  datatype Question = Question(name: Spelling, kind: seq<byte>)

  predicate QuestionFits(q: Question) { Writable(q.name) && |q.kind| == 4 }

  predicate AllAsk(qs: seq<Question>)
  {
    forall i :: 0 <= i < |qs| ==> QuestionFits(qs[i])
  }

  function QuestionText(q: Question): seq<byte>
    requires QuestionFits(q)
  {
    SpellingBytes(q.name) + q.kind
  }

  function QuestionsText(qs: seq<Question>): seq<byte>
    requires AllAsk(qs)
  {
    if qs == [] then [] else QuestionText(qs[0]) + QuestionsText(qs[1..])
  }

  predicate QuestionsPoint(data: seq<byte>, at: nat, qs: seq<Question>)
    requires AllAsk(qs)
    decreases qs
  {
    qs == [] || (Points(data, at, qs[0].name) && QuestionsPoint(data, at + |QuestionText(qs[0])|, qs[1..]))
  }

  function Asked(qs: seq<Question>): seq<Labels>
  {
    if qs == [] then [] else [Spelled(qs[0].name)] + Asked(qs[1..])
  }

  lemma {:induction false} QuestionsHeld(data: seq<byte>, at: nat, qs: seq<Question>, end: nat)
    requires AllAsk(qs) && Holds(data, at, QuestionsText(qs)) && QuestionsPoint(data, at, qs)
    requires end == at + |QuestionsText(qs)|
    ensures QuestionsBytes(data, at, Asked(qs), end)
    decreases qs
  {
    hide Holds, QuestionText, Points, QuestionsPoint;
    if qs != [] {
      var next := at + |QuestionText(qs[0])|;
      NextQuestion(data, at, qs, next);
      QuestionsHeld(data, next, qs[1..], end);
      OneQuestion(data, at, qs[0], Asked(qs[1..]), end);
    }
  }

  lemma {:induction false} NextQuestion(data: seq<byte>, at: nat, qs: seq<Question>, next: nat)
    requires AllAsk(qs) && qs != [] && next == at + |QuestionText(qs[0])|
    requires Holds(data, at, QuestionsText(qs)) && QuestionsPoint(data, at, qs)
    ensures QuestionFits(qs[0]) && Holds(data, at, QuestionText(qs[0])) && Points(data, at, qs[0].name)
    ensures AllAsk(qs[1..]) && Holds(data, next, QuestionsText(qs[1..])) && QuestionsPoint(data, next, qs[1..])
    ensures |QuestionsText(qs)| == |QuestionText(qs[0])| + |QuestionsText(qs[1..])|
  {
    hide Holds, Points, QuestionText, QuestionsText, QuestionsPoint;
    RestAsks(qs);
    var first, later := QuestionText(qs[0]), QuestionsText(qs[1..]);
    TextApart(qs, first, later);
    HoldsParts(data, at, first, later);
    NextPoints(data, at, qs, next);
  }

  lemma {:induction false} RestAsks(qs: seq<Question>)
    requires AllAsk(qs) && qs != []
    ensures QuestionFits(qs[0]) && AllAsk(qs[1..])
  {
  }

  lemma {:induction false} TextApart(qs: seq<Question>, first: seq<byte>, later: seq<byte>)
    requires AllAsk(qs) && qs != [] && QuestionFits(qs[0]) && AllAsk(qs[1..])
    requires first == QuestionText(qs[0]) && later == QuestionsText(qs[1..])
    ensures QuestionsText(qs) == first + later
  {
  }

  lemma {:induction false} NextPoints(data: seq<byte>, at: nat, qs: seq<Question>, next: nat)
    requires AllAsk(qs) && qs != [] && QuestionsPoint(data, at, qs)
    requires QuestionFits(qs[0]) && AllAsk(qs[1..]) && next == at + |QuestionText(qs[0])|
    ensures Points(data, at, qs[0].name) && QuestionsPoint(data, next, qs[1..])
  {
  }

  lemma {:induction false} OneQuestion(data: seq<byte>, at: nat, q: Question, rest: seq<Labels>, end: nat)
    requires QuestionFits(q) && Holds(data, at, QuestionText(q)) && Points(data, at, q.name)
    requires QuestionsBytes(data, at + |QuestionText(q)|, rest, end)
    ensures QuestionsBytes(data, at, [Spelled(q.name)] + rest, end)
  {
    HoldsParts(data, at, SpellingBytes(q.name), q.kind);
    SpellingMeans(data, at, q.name);
    FirstQuestion(data, at, at + |SpellingBytes(q.name)|, Spelled(q.name), rest, end);
  }

  lemma {:induction false} FirstQuestion(data: seq<byte>, at: nat, mid: nat, name: Labels, rest: seq<Labels>, end: nat)
    requires NameBytes(data, at, name, mid) && mid + 4 <= |data| && QuestionsBytes(data, mid + 4, rest, end)
    ensures QuestionsBytes(data, at, [name] + rest, end)
  {
    var qs := [name] + rest;
    assert qs[0] == name && qs[1..] == rest;
  }

  /** Transaction id and flags, the counts of questions and answers, and the other two counts. */
  predicate IsHeader(h: seq<byte>, questions: nat, answers: nat)
  {
    |h| == 12 && U16(h, 4) == questions && U16(h, 6) == answers
  }

  /** A response: header, questions, answers, and whatever else the server adds. */
  function ResponseBytes(h: seq<byte>, qs: seq<Question>, es: seq<Entry>, more: seq<byte>): seq<byte>
    requires AllAsk(qs) && AllFit(es)
  {
    h + (QuestionsText(qs) + (EntriesBytes(es) + more))
  }

  /** Every pointer in the response goes back to the name it stands for. */
  predicate Compressed(data: seq<byte>, qs: seq<Question>, es: seq<Entry>)
    requires AllAsk(qs) && AllFit(es)
  {
    QuestionsPoint(data, 12, qs) && EntriesPoint(data, 12 + |QuestionsText(qs)|, es)
  }

  lemma {:induction false} HoldsSelf(h: seq<byte>, rest: seq<byte>)
    ensures Holds(h + rest, |h|, rest)
  {
  }

  lemma {:induction false} HeaderKept(h: seq<byte>, rest: seq<byte>)
    requires |h| == 12
    ensures U16(h + rest, 4) == U16(h, 4) && U16(h + rest, 6) == U16(h, 6)
  {
  }

  /** The bytes of a response form a message with the names and records it was made from. */
  lemma {:induction false} ResponseIsMessage(h: seq<byte>, qs: seq<Question>, es: seq<Entry>, more: seq<byte>, data: seq<byte>)
    requires AllAsk(qs) && AllFit(es) && IsHeader(h, |qs|, |es|)
    requires data == ResponseBytes(h, qs, es, more) && Compressed(data, qs, es)
    ensures IsMessage(data, Asked(qs), Records(es))
  {
    var later := EntriesBytes(es) + more;
    var end := 12 + |QuestionsText(qs)|;
    HoldsSelf(h, QuestionsText(qs) + later);
    HeaderKept(h, QuestionsText(qs) + later);
    HoldsParts(data, 12, QuestionsText(qs), later);
    HoldsParts(data, end, EntriesBytes(es), more);
    QuestionsHeld(data, 12, qs, end);
    EntriesHeld(data, end, es);
    Counted(qs, es);
  }

  lemma {:induction false} Counted(qs: seq<Question>, es: seq<Entry>)
    ensures |Asked(qs)| == |qs| && |Records(es)| == |es|
    decreases |qs| + |es|
  {
    if qs != [] { Counted(qs[1..], es); } else if es != [] { Counted(qs, es[1..]); }
  }

  /**
   * Round trip: from every serialised response, with names compressed or not, the
   * parser returns exactly the values of the records of the wanted type, in order.
   */
  lemma {:induction false} ResponseRoundTrip(h: seq<byte>, qs: seq<Question>, es: seq<Entry>, more: seq<byte>, data: seq<byte>, wanted: nat)
    requires AllAsk(qs) && AllFit(es) && IsHeader(h, |qs|, |es|)
    requires data == ResponseBytes(h, qs, es, more) && Compressed(data, qs, es)
    ensures AnswersOf(data, wanted) == Answers(Flatten(Records(es), wanted))
  {
    ResponseIsMessage(h, qs, es, more, data);
    MessageRead(data, Asked(qs), Records(es), wanted);
  }
}
