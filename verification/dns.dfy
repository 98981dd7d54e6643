/** DNS messages: building a query, and reading the answers of a response. */
module Dns {
  import opened Bytes
  import opened Options
  import opened Sequences
  import opened DnsName

  const TYPE_A: nat := 1
  const TYPE_NS: nat := 2
  const TYPE_CNAME: nat := 5
  const TYPE_PTR: nat := 12
  const TYPE_MX: nat := 15
  const TYPE_TXT: nat := 16
  const TYPE_AAAA: nat := 28
  const TYPE_SRV: nat := 33

  /** One returned string, before numbers and addresses are written out as text. */
  datatype Item = Text(text: seq<byte>) | Number(n: nat) | Ip4(octets: seq<byte>) | Ip6(octets: seq<byte>)

  datatype Answers = Answers(items: seq<Item>) | Hangs

  // Big-endian fields.

  function U16(data: seq<byte>, at: nat): nat
    requires at + 2 <= |data|
  {
    256 * data[at] as int + data[at + 1]
  }

  function U32(data: seq<byte>, at: nat): nat
    requires at + 4 <= |data|
  {
    0x1_0000 * U16(data, at) + U16(data, at + 2)
  }

  function U16Bytes(n: nat): seq<byte>
    requires n < 0x1_0000
  {
    [n / 256, n % 256]
  }

  /** Reading past the end yields zero and leaves the offset alone. */
  function ReadU16(data: seq<byte>, at: nat): (nat, nat)
  {
    if at + 2 > |data| then (0, at) else (U16(data, at), at + 2)
  }

  function ReadU32(data: seq<byte>, at: nat): (nat, nat)
  {
    if at + 4 > |data| then (0, at) else (U32(data, at), at + 4)
  }

  // Reading answers.

  datatype Skipped = At(offset: nat) | Truncated | Stuck

  function SkipQuestions(data: seq<byte>, offset: nat, count: nat): Skipped
    decreases count
  {
    if count == 0 then At(offset) else
      match NameAt(data, offset)
      case Endless => Stuck
      case Parsed(_, next) =>
        if next + 4 > |data| then Truncated else SkipQuestions(data, next + 4, count - 1)
  }

  /** The segments of a TXT record, up to the first one that does not fit. */
  function TxtText(data: seq<byte>, at: nat, end: nat): seq<byte>
    requires end <= |data|
    decreases end - at
  {
    if at >= end then [] else
      var next := at + 1 + data[at];
      if next > end then [] else data[at + 1..next] + TxtText(data, next, end)
  }

  datatype Values = Values(items: seq<Item>) | NameHangs

  function NameValue(data: seq<byte>, at: nat, before: seq<Item>): Values
  {
    match NameAt(data, at)
    case Endless => NameHangs
    case Parsed(labels, _) => Values(before + [Text(Join(labels))])
  }

  /** The strings of one record of the wanted type. */
  function RecordValues(data: seq<byte>, rtype: nat, at: nat, rdlength: nat): Values
    requires at + rdlength <= |data|
  {
    if rtype == TYPE_A then
      Values(if rdlength == 4 then [Ip4(data[at..at + 4])] else [])
    else if rtype == TYPE_AAAA then
      Values(if rdlength == 16 then [Ip6(data[at..at + 16])] else [])
    else if rtype == TYPE_MX then
      var (priority, o1) := ReadU16(data, at);
      NameValue(data, o1, [Number(priority)])
    else if rtype == TYPE_TXT then
      Values([Text(TxtText(data, at, at + rdlength))])
    else if rtype == TYPE_SRV then
      var (priority, o1) := ReadU16(data, at);
      var (weight, o2) := ReadU16(data, o1);
      var (port, o3) := ReadU16(data, o2);
      NameValue(data, o3, [Number(priority), Number(weight), Number(port)])
    else if rtype == TYPE_CNAME || rtype == TYPE_NS || rtype == TYPE_PTR then
      NameValue(data, at, [])
    else Values([])
  }

  /** The type, rdata offset and rdata length of the record whose name ends at the offset. */
  function Fixed(data: seq<byte>, offset: nat): (nat, nat, nat)
  {
    var (rtype, o1) := ReadU16(data, offset);
    var (_, o2) := ReadU16(data, o1);
    var (_, o3) := ReadU32(data, o2);
    var (rdlength, o4) := ReadU16(data, o3);
    (rtype, o4, rdlength)
  }

  /** One turn of the answer loop: stop, hang, or collect values and go on. */
  datatype Turn = Ends | TurnHangs | Goes(items: seq<Item>, next: nat)

  function TurnAt(data: seq<byte>, offset: nat, wanted: nat): Turn
  {
    if offset >= |data| then Ends else
      match NameAt(data, offset)
      case Endless => TurnHangs
      case Parsed(_, next) =>
        var (rtype, at, rdlength) := Fixed(data, next);
        if at + rdlength > |data| then Ends
        else if rtype != wanted then Goes([], at + rdlength)
        else
          match RecordValues(data, rtype, at, rdlength)
          case NameHangs => TurnHangs
          case Values(items) => Goes(items, at + rdlength)
  }

  /** Results collected earlier, in front of the rest. */
  function Prepend(before: seq<Item>, rest: Answers): Answers
  {
    if rest.Hangs? then Hangs else Answers(before + rest.items)
  }

  function ReadRecords(data: seq<byte>, offset: nat, count: nat, wanted: nat): Answers
    decreases count
  {
    if count == 0 then Answers([]) else
      match TurnAt(data, offset, wanted)
      case Ends => Answers([])
      case TurnHangs => Hangs
      case Goes(items, next) => Prepend(items, ReadRecords(data, next, count - 1, wanted))
  }

  function AnswersOf(data: seq<byte>, wanted: nat): Answers
  {
    if |data| < 12 then Answers([]) else
      match SkipQuestions(data, 12, U16(data, 4))
      case Stuck => Hangs
      case Truncated => Answers([])
      case At(offset) => ReadRecords(data, offset, U16(data, 6), wanted)
  }

  // The parser's loops.

  method SkipQuestionSection(data: seq<byte>, count: nat) returns (r: Skipped)
    ensures r == SkipQuestions(data, 12, count)
  {
    var offset: nat := 12;
    var i := 0;
    while i < count
      invariant 0 <= i <= count
      invariant SkipQuestions(data, 12, count) == SkipQuestions(data, offset, count - i)
    {
      var name := ParseDnsName(data, offset);
      if name.Endless? {
        return Stuck;
      }
      offset := name.offset + 4;
      if offset > |data| {
        return Truncated;
      }
      i := i + 1;
    }
    return At(offset);
  }

  lemma {:induction false} TxtNone(data: seq<byte>, end: nat)
    requires end <= |data|
    ensures TxtText(data, end, end) == []
  {
  }

  lemma {:induction false} TxtNext(data: seq<byte>, at: nat, end: nat, slen: int)
    requires at < end <= |data| && slen == data[at] as int
    ensures at + 1 + slen > end ==> TxtText(data, at, end) == []
    ensures at + 1 + slen <= end ==>
              TxtText(data, at, end) == data[at + 1..at + 1 + slen] + TxtText(data, at + 1 + slen, end)
  {
  }

  lemma {:induction false} TxtTurn(data: seq<byte>, end: nat, all: seq<byte>, txt: seq<byte>, roff: nat, slen: nat)
    requires roff < end <= |data| && slen == data[roff] && all == txt + TxtText(data, roff, end)
    ensures roff + 1 + slen > end ==> all == txt
    ensures roff + 1 + slen <= end ==>
              all == (txt + data[roff + 1..roff + 1 + slen]) + TxtText(data, roff + 1 + slen, end)
  {
    hide TxtText;
    TxtNext(data, roff, end, slen);
    if roff + 1 + slen <= end {
      Regroup(txt, data[roff + 1..roff + 1 + slen], TxtText(data, roff + 1 + slen, end));
    }
  }

  method ReadTxt(data: seq<byte>, at: nat, end: nat) returns (txt: seq<byte>)
    requires at <= end <= |data|
    ensures txt == TxtText(data, at, end)
  {
    hide TxtText;
    TxtNone(data, end);
    var roff: nat := at;
    txt := [];
    while roff < end
      invariant at <= roff <= end
      invariant TxtText(data, at, end) == txt + TxtText(data, roff, end)
    {
      var slen: int := data[roff];
      TxtTurn(data, end, TxtText(data, at, end), txt, roff, slen);
      roff := roff + 1;
      if roff + slen > end {
        break;
      }
      txt := txt + data[roff..roff + slen];
      roff := roff + slen;
    }
  }

  method ReadValues(data: seq<byte>, rtype: nat, at: nat, rdlength: nat) returns (r: Values)
    requires at + rdlength <= |data|
    ensures r == RecordValues(data, rtype, at, rdlength)
  {
    r := Values([]);
    if rtype == TYPE_A {
      if rdlength == 4 {
        r := Values([Ip4(data[at..at + 4])]);
      }
    } else if rtype == TYPE_AAAA {
      if rdlength == 16 {
        r := Values([Ip6(data[at..at + 16])]);
      }
    } else if rtype == TYPE_MX {
      var (priority, roff) := ReadU16(data, at);
      var exchange := ParseDnsName(data, roff);
      r := if exchange.Endless? then NameHangs else Values([Number(priority), Text(Join(exchange.labels))]);
    } else if rtype == TYPE_TXT {
      var txt := ReadTxt(data, at, at + rdlength);
      r := Values([Text(txt)]);
    } else if rtype == TYPE_SRV {
      var (priority, o1) := ReadU16(data, at);
      var (weight, o2) := ReadU16(data, o1);
      var (port, o3) := ReadU16(data, o2);
      var target := ParseDnsName(data, o3);
      r := if target.Endless? then NameHangs
           else Values([Number(priority), Number(weight), Number(port), Text(Join(target.labels))]);
    } else if rtype == TYPE_CNAME || rtype == TYPE_NS || rtype == TYPE_PTR {
      var name := ParseDnsName(data, at);
      r := if name.Endless? then NameHangs else Values([Text(Join(name.labels))]);
    }
  }

  method ReadRecord(data: seq<byte>, offset: nat, wanted: nat) returns (r: Turn)
    ensures r == TurnAt(data, offset, wanted)
  {
    hide NameAt, RecordValues, Fixed;
    if offset >= |data| {
      return Ends;
    }
    var name := ParseDnsName(data, offset);
    if name.Endless? {
      return TurnHangs;
    }
    var (rtype, rdataStart, rdlength) := Fixed(data, name.offset);
    if rdataStart + rdlength > |data| {
      return Ends;
    }
    var items: seq<Item> := [];
    if rtype == wanted {
      var values := ReadValues(data, rtype, rdataStart, rdlength);
      if values.NameHangs? {
        return TurnHangs;
      }
      items := values.items;
    }
    r := Goes(items, rdataStart + rdlength);
  }

  lemma {:induction false} PrependTwice(a: seq<Item>, b: seq<Item>, rest: Answers)
    ensures Prepend(a, Prepend(b, rest)) == Prepend(a + b, rest)
  {
    if rest.Answers? {
      Regroup(a, b, rest.items);
    }
  }

  method ReadAnswerSection(data: seq<byte>, start: nat, count: nat, wanted: nat) returns (r: Answers)
    ensures r == ReadRecords(data, start, count, wanted)
  {
    hide TurnAt;
    var offset: nat := start;
    var results: seq<Item> := [];
    var i := 0;
    while i < count
      invariant 0 <= i <= count
      invariant ReadRecords(data, start, count, wanted)
                == Prepend(results, ReadRecords(data, offset, count - i, wanted))
    {
      var turn := ReadRecord(data, offset, wanted);
      match turn {
        case Ends => break;
        case TurnHangs => return Hangs;
        case Goes(items, next) =>
          PrependTwice(results, items, ReadRecords(data, next, count - i - 1, wanted));
          results := results + items;
          offset := next;
      }
      i := i + 1;
    }
    assert results + [] == results;
    r := Answers(results);
  }

  method ParseAnswers(data: seq<byte>, wanted: nat) returns (r: Answers)
    ensures r == AnswersOf(data, wanted)
  {
    if |data| < 12 {
      return Answers([]);
    }
    var skipped := SkipQuestionSection(data, U16(data, 4));
    match skipped {
      case Stuck => r := Hangs;
      case Truncated => r := Answers([]);
      case At(offset) => r := ReadAnswerSection(data, offset, U16(data, 6), wanted);
    }
  }

  // Messages, and what their bytes look like.  Names may be compressed in any
  // way whose pointers go backwards; Means says what they stand for.

  datatype Rdata =
    | Address4(octets: seq<byte>)
    | Address6(octets: seq<byte>)
    | Mail(priority: nat, exchange: Labels)
    | Txt(segments: Labels)
    | Service(priority: nat, weight: nat, port: nat, target: Labels)
    | NameOf(kind: nat, name: Labels)
    | Unknown(kind: nat, bytes: seq<byte>)

  datatype Record = Record(name: Labels, rclass: nat, ttl: nat, rdata: Rdata)

  function TypeOf(d: Rdata): nat
  {
    match d
    case Address4(_) => TYPE_A
    case Address6(_) => TYPE_AAAA
    case Mail(_, _) => TYPE_MX
    case Txt(_) => TYPE_TXT
    case Service(_, _, _, _) => TYPE_SRV
    case NameOf(kind, _) => kind
    case Unknown(kind, _) => kind
  }

  predicate IsNameType(kind: nat) { kind == TYPE_CNAME || kind == TYPE_NS || kind == TYPE_PTR }

  predicate IsKnown(kind: nat)
  {
    IsNameType(kind) || kind in {TYPE_A, TYPE_AAAA, TYPE_MX, TYPE_TXT, TYPE_SRV}
  }

  function Concat(segments: Labels): seq<byte>
  {
    if segments == [] then [] else segments[0] + Concat(segments[1..])
  }

  /** The strings that stand for a record's data. */
  function ItemsFor(d: Rdata): seq<Item>
  {
    match d
    case Address4(o) => [Ip4(o)]
    case Address6(o) => [Ip6(o)]
    case Mail(p, e) => [Number(p), Text(Join(e))]
    case Txt(segments) => [Text(Concat(segments))]
    case Service(p, w, port, t) => [Number(p), Number(w), Number(port), Text(Join(t))]
    case NameOf(_, n) => [Text(Join(n))]
    case Unknown(_, _) => []
  }

  /** A name at the position, taking up exactly the bytes before end. */
  predicate NameBytes(data: seq<byte>, at: nat, labels: Labels, end: nat)
  {
    Means(data, at, at) == Some(Meaning(labels, end))
  }

  predicate RdataBytes(data: seq<byte>, at: nat, end: nat, d: Rdata)
    requires at <= end <= |data|
  {
    match d
    case Address4(o) => |o| == 4 && data[at..end] == o
    case Address6(o) => |o| == 16 && data[at..end] == o
    case Mail(p, e) => at + 2 <= end && U16(data, at) == p && NameBytes(data, at + 2, e, end)
    case Txt(segments) =>
      (forall i :: 0 <= i < |segments| ==> |segments[i]| < 256) && data[at..end] == LabelsBytes(segments)
    case Service(p, w, port, t) =>
      && at + 6 <= end && U16(data, at) == p && U16(data, at + 2) == w && U16(data, at + 4) == port
      && NameBytes(data, at + 6, t, end)
    case NameOf(kind, n) => IsNameType(kind) && NameBytes(data, at, n, end)
    case Unknown(kind, bytes) => !IsKnown(kind) && data[at..end] == bytes
  }

  /** The record r from at to end, its name ending at mid. */
  predicate RecordBytes(data: seq<byte>, at: nat, mid: nat, end: nat, r: Record)
  {
    && NameBytes(data, at, r.name, mid)
    && mid + 10 <= end <= |data|
    && U16(data, mid) == TypeOf(r.rdata) && U16(data, mid + 2) == r.rclass && U32(data, mid + 4) == r.ttl
    && U16(data, mid + 8) == end - (mid + 10)
    && RdataBytes(data, mid + 10, end, r.rdata)
  }

  ghost predicate RecordsBytes(data: seq<byte>, at: nat, rs: seq<Record>)
    decreases rs
  {
    rs == [] || exists mid: nat, end: nat ::
      RecordBytes(data, at, mid, end, rs[0]) && RecordsBytes(data, end, rs[1..])
  }

  /** The questions from at to end: a name and four bytes of type and class each. */
  ghost predicate QuestionsBytes(data: seq<byte>, at: nat, qs: seq<Labels>, end: nat)
    decreases qs
  {
    if qs == [] then at == end
    else exists mid: nat ::
      NameBytes(data, at, qs[0], mid) && mid + 4 <= |data| && QuestionsBytes(data, mid + 4, qs[1..], end)
  }

  /** A response with these questions and answers; whatever follows the answers is ignored. */
  ghost predicate IsMessage(data: seq<byte>, qs: seq<Labels>, rs: seq<Record>)
  {
    && |data| >= 12 && U16(data, 4) == |qs| && U16(data, 6) == |rs|
    && exists end: nat :: QuestionsBytes(data, 12, qs, end) && RecordsBytes(data, end, rs)
  }

  function Flatten(rs: seq<Record>, wanted: nat): seq<Item>
  {
    if rs == [] then []
    else Selected(rs[0].rdata, wanted) + Flatten(rs[1..], wanted)
  }

  lemma {:induction false} QuestionsSkipped(data: seq<byte>, at: nat, qs: seq<Labels>, end: nat)
    requires QuestionsBytes(data, at, qs, end)
    ensures SkipQuestions(data, at, |qs|) == At(end)
    decreases qs
  {
    if qs != [] {
      var mid: nat :| NameBytes(data, at, qs[0], mid) && mid + 4 <= |data| && QuestionsBytes(data, mid + 4, qs[1..], end);
      QuestionsSkipped(data, mid + 4, qs[1..], end);
      OneSkipped(data, at, qs[0], mid, |qs|);
    }
  }

  lemma {:induction false} OneSkipped(data: seq<byte>, at: nat, name: Labels, mid: nat, n: nat)
    requires NameBytes(data, at, name, mid) && mid + 4 <= |data| && n > 0
    ensures SkipQuestions(data, at, n) == SkipQuestions(data, mid + 4, n - 1)
  {
    MeaningIsParsed(data, at);
  }

  lemma {:induction false} SegmentHeld(data: seq<byte>, at: nat, text: seq<byte>, later: seq<byte>)
    requires |text| < 256 && Holds(data, at, LabelBytes(text) + later)
    ensures at + 1 + |text| <= |data| && data[at] == |text| && data[at + 1..at + 1 + |text|] == text
    ensures Holds(data, at + 1 + |text|, later)
  {
    HoldsParts(data, at, LabelBytes(text), later);
    assert data[at + 0] == LabelBytes(text)[0];
    HoldsParts(data, at, [|text| % 256], text);
    HeldSlice(data, at + 1, text);
  }

  lemma {:induction false} TxtRead(data: seq<byte>, at: nat, end: nat, segments: Labels)
    requires end == at + |LabelsBytes(segments)| && Holds(data, at, LabelsBytes(segments))
    requires forall i :: 0 <= i < |segments| ==> |segments[i]| < 256
    ensures TxtText(data, at, end) == Concat(segments)
    decreases segments
  {
    if segments != [] {
      var text, later := segments[0], LabelsBytes(segments[1..]);
      assert LabelsBytes(segments) == LabelBytes(text) + later && |LabelBytes(text)| == 1 + |text|;
      hide Holds, LabelsBytes, LabelBytes, TxtText;
      SegmentHeld(data, at, text, later);
      TxtRead(data, at + 1 + |text|, end, segments[1..]);
      TxtStep(data, at, end, text, Concat(segments[1..]));
    }
  }

  lemma {:induction false} TxtStep(data: seq<byte>, at: nat, end: nat, text: seq<byte>, rest: seq<byte>)
    requires at + 1 + |text| <= end <= |data| && data[at] == |text| && data[at + 1..at + 1 + |text|] == text
    requires TxtText(data, at + 1 + |text|, end) == rest
    ensures TxtText(data, at, end) == text + rest
  {
    hide TxtText;
    TxtNext(data, at, end, |text|);
  }

  lemma {:induction false} ValuesRead(data: seq<byte>, at: nat, end: nat, d: Rdata)
    requires at <= end <= |data| && RdataBytes(data, at, end, d)
    ensures RecordValues(data, TypeOf(d), at, end - at) == Values(ItemsFor(d))
  {
    hide Means, NameAt, LabelsBytes, TxtText;
    match d {
      case Mail(_, _) => MeaningIsParsed(data, at + 2);
      case Service(_, _, _, _) => MeaningIsParsed(data, at + 6);
      case NameOf(_, _) => MeaningIsParsed(data, at);
      case Txt(segments) =>
        HeldSlice(data, at, LabelsBytes(segments));
        TxtRead(data, at, end, segments);
      case _ =>
    }
  }

  lemma {:induction false} RecordsRead(data: seq<byte>, at: nat, rs: seq<Record>, wanted: nat)
    requires RecordsBytes(data, at, rs)
    ensures ReadRecords(data, at, |rs|, wanted) == Answers(Flatten(rs, wanted))
    decreases rs
  {
    if rs != [] {
      var mid: nat, end: nat :| RecordBytes(data, at, mid, end, rs[0]) && RecordsBytes(data, end, rs[1..]);
      RecordRead(data, at, mid, end, rs[0], wanted);
      RecordsRead(data, end, rs[1..], wanted);
    }
  }

  function Selected(d: Rdata, wanted: nat): seq<Item> { if TypeOf(d) == wanted then ItemsFor(d) else [] }

  lemma {:induction false} RecordRead(data: seq<byte>, at: nat, mid: nat, end: nat, r: Record, wanted: nat)
    requires RecordBytes(data, at, mid, end, r)
    ensures TurnAt(data, at, wanted) == Goes(Selected(r.rdata, wanted), end)
  {
    MeansInside(data, at);
    hide Means, NameAt, RecordValues, RdataBytes, Fixed, U16, U32, TurnAt, TypeOf, ItemsFor;
    MeaningIsParsed(data, at);
    FixedRead(data, mid, end, r);
    ValuesRead(data, mid + 10, end, r.rdata);
    TurnGoes(data, at, wanted, r.name, mid, TypeOf(r.rdata), mid + 10, end - (mid + 10), ItemsFor(r.rdata));
  }

  lemma {:induction false} MeansInside(data: seq<byte>, at: nat)
    requires Means(data, at, at).Some?
    ensures at < |data|
  {
  }

  lemma {:induction false} TurnGoes(data: seq<byte>, at: nat, wanted: nat, name: Labels, mid: nat,
                                    rtype: nat, start: nat, length: nat, items: seq<Item>)
    requires at < |data| && NameAt(data, at) == Parsed(name, mid) && Fixed(data, mid) == (rtype, start, length)
    requires start + length <= |data| && RecordValues(data, rtype, start, length) == Values(items)
    ensures TurnAt(data, at, wanted) == Goes(if rtype == wanted then items else [], start + length)
  {
    hide NameAt, RecordValues, Fixed;
  }

  lemma {:induction false} FixedRead(data: seq<byte>, mid: nat, end: nat, r: Record)
    requires mid + 10 <= end <= |data| && U16(data, mid) == TypeOf(r.rdata) && U16(data, mid + 8) == end - (mid + 10)
    ensures Fixed(data, mid) == (TypeOf(r.rdata), mid + 10, end - (mid + 10))
  {
  }

  /**
   From every response, however its names are compressed, the parser returns
   exactly the values of the records of the wanted type, in order.
   */
  lemma {:induction false} MessageRead(data: seq<byte>, qs: seq<Labels>, rs: seq<Record>, wanted: nat)
    requires IsMessage(data, qs, rs)
    ensures AnswersOf(data, wanted) == Answers(Flatten(rs, wanted))
  {
    var end: nat :| QuestionsBytes(data, 12, qs, end) && RecordsBytes(data, end, rs);
    QuestionsSkipped(data, 12, qs, end);
    RecordsRead(data, end, rs, wanted);
  }

  // Responses that end early.

  /** The records stand one after the other from `at` up to `stop`. */
  ghost predicate RecordsTo(data: seq<byte>, at: nat, rs: seq<Record>, stop: nat)
    decreases rs
  {
    if rs == [] then at == stop
    else exists mid: nat, end: nat :: RecordBytes(data, at, mid, end, rs[0]) && RecordsTo(data, end, rs[1..], stop)
  }

  /** No whole record follows: the data ends, or a record's data would pass its end. */
  predicate CutOff(data: seq<byte>, stop: nat)
  {
    stop >= |data| || match NameAt(data, stop)
                      case Endless => false
                      case Parsed(_, mid) => mid + 10 <= |data| && mid + 10 + U16(data, mid + 8) > |data|
  }

  lemma {:induction false} CutOffEnds(data: seq<byte>, stop: nat, wanted: nat)
    requires CutOff(data, stop)
    ensures TurnAt(data, stop, wanted) == Ends
  {
    hide NameAt, RecordValues;
  }

  lemma {:induction false} RecordsCut(data: seq<byte>, at: nat, rs: seq<Record>, stop: nat, count: nat, wanted: nat)
    requires RecordsTo(data, at, rs, stop) && CutOff(data, stop) && |rs| < count
    ensures ReadRecords(data, at, count, wanted) == Answers(Flatten(rs, wanted))
    decreases rs
  {
    hide RecordBytes, TurnAt, CutOff, Selected;
    if rs == [] {
      CutOffEnds(data, stop, wanted);
    } else {
      var mid: nat, end: nat :| RecordBytes(data, at, mid, end, rs[0]) && RecordsTo(data, end, rs[1..], stop);
      RecordRead(data, at, mid, end, rs[0], wanted);
      RecordsCut(data, end, rs[1..], stop, count - 1, wanted);
    }
  }

  /** From a response with fewer whole records than it announces, the values of those it has. */
  lemma {:induction false} MessageCut(data: seq<byte>, qs: seq<Labels>, at: nat, rs: seq<Record>, stop: nat, wanted: nat)
    requires |data| >= 12 && U16(data, 4) == |qs| && QuestionsBytes(data, 12, qs, at)
    requires RecordsTo(data, at, rs, stop) && CutOff(data, stop) && |rs| < U16(data, 6)
    ensures AnswersOf(data, wanted) == Answers(Flatten(rs, wanted))
  {
    hide RecordsTo, CutOff, RecordBytes, QuestionsBytes, SkipQuestions, ReadRecords;
    QuestionsSkipped(data, 12, qs, at);
    RecordsCut(data, at, rs, stop, U16(data, 6), wanted);
  }

  // Queries.

  function Header(id: nat): seq<byte>
    requires id < 0x1_0000
  {
    U16Bytes(id) + [0x01, 0x00] + U16Bytes(1) + U16Bytes(0) + U16Bytes(0) + U16Bytes(0)
  }

  function QueryBytes(id: nat, labels: Labels, rtype: nat): seq<byte>
    requires id < 0x1_0000 && rtype < 0x1_0000
  {
    Header(id) + (LabelsBytes(labels) + [0]) + (U16Bytes(rtype) + U16Bytes(1))
  }

  method BuildDnsQuery(id: nat, name: seq<byte>, rtype: nat) returns (packet: seq<byte>)
    requires id < 0x1_0000 && rtype < 0x1_0000
    ensures packet == QueryBytes(id, LabelsOf(name), rtype)
  {
    packet := U16Bytes(id);
    packet := packet + [0x01, 0x00];
    packet := packet + U16Bytes(1);
    packet := packet + U16Bytes(0);
    packet := packet + U16Bytes(0);
    packet := packet + U16Bytes(0);
    packet := EncodeDnsName(name, packet);
    packet := packet + U16Bytes(rtype);
    packet := packet + U16Bytes(1);
  }

  /** Identifier, the recursion-desired flag alone, one question and nothing else, big end first. */
  lemma {:induction false} HeaderIs(id: nat, h: seq<byte>)
    requires id < 0x1_0000 && h == Header(id)
    ensures |h| == 12 && h[0] == id / 256 && h[1] == id % 256 && h[2] == 1 && h[3] == 0 && h[4] == 0 && h[5] == 1
    ensures forall i :: 6 <= i < 12 ==> h[i] == 0
  {
  }

  /** The numbers of the record types, from section 3.2.2 of RFC 1035, RFC 3596 and RFC 2782. */
  lemma {:induction false} TypeNumbers(d: Rdata)
    ensures d.Address4? ==> TypeOf(d) == 1
    ensures d.Mail? ==> TypeOf(d) == 15
    ensures d.Txt? ==> TypeOf(d) == 16
    ensures d.Address6? ==> TypeOf(d) == 28
    ensures d.Service? ==> TypeOf(d) == 33
    ensures d.NameOf? ==> TypeOf(d) == d.kind && (IsNameType(d.kind) <==> d.kind == 2 || d.kind == 5 || d.kind == 12)
  {
  }

  /** A query is a message that asks for the name's labels and answers nothing. */
  lemma {:induction false} QueryIsMessage(id: nat, labels: Labels, rtype: nat, data: seq<byte>)
    requires id < 0x1_0000 && rtype < 0x1_0000 && data == QueryBytes(id, labels, rtype)
    requires ShortLabels(labels)
    ensures IsMessage(data, [labels], [])
    ensures U16(data, 0) == id && data[0] == id / 256 && data[1] == id % 256
    ensures data[2] == 1 && data[3] == 0 && U16(data, 8) == 0 && U16(data, 10) == 0
    ensures U16(data, |data| - 4) == rtype && U16(data, |data| - 2) == 1
  {
    var name := LabelsBytes(labels) + [0];
    HeaderIs(id, Header(id));
    QueryLayout(Header(id), name, U16Bytes(rtype) + U16Bytes(1), data);
    PlainNameParses(data, 12, labels);
    OneQuestion(data, labels, 12 + |name|);
  }

  lemma {:induction false} QueryLayout(h: seq<byte>, n: seq<byte>, t: seq<byte>, data: seq<byte>)
    requires data == h + n + t && |h| == 12 && |t| == 4
    ensures |data| == 16 + |n| && data[..12] == h && Holds(data, 12, n) && data[12 + |n|..] == t
    ensures forall i :: 0 <= i < 12 ==> data[i] == h[i]
    ensures U16(data, 4) == U16(h, 4) && U16(data, 6) == U16(h, 6)
    ensures U16(data, |data| - 4) == U16(t, 0) && U16(data, |data| - 2) == U16(t, 2)
  {
    assert data[12..12 + |n|] == n;
  }

  lemma {:induction false} OneQuestion(data: seq<byte>, labels: Labels, mid: nat)
    requires NameBytes(data, 12, labels, mid) && mid + 4 <= |data|
    requires |data| >= 12 && U16(data, 4) == 1 && U16(data, 6) == 0
    ensures IsMessage(data, [labels], [])
  {
    var qs := [labels];
    assert QuestionsBytes(data, mid + 4, qs[1..], mid + 4);
    assert NameBytes(data, 12, qs[0], mid);
    assert QuestionsBytes(data, 12, qs, mid + 4);
    assert RecordsBytes(data, mid + 4, []);
  }
}
