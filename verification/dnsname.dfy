/**
 Domain names on the wire: text sequences, compression pointers, and the loop
 that follows them.
 */
module DnsName {
  import opened Bytes
  import opened Options
  import opened Sequences

  type Labels = seq<seq<byte>>

  const DOT: byte := 46

  /** What one round of the loop finds at a position. */
  datatype Move =
    | Stop(end: nat)
    | Label(text: seq<byte>, next: nat)
    | Pointer(target: nat)

  /**
   A length byte with both top bits set starts a pointer, so any length below
   192 is taken as a text.
   */
  function MoveAt(data: seq<byte>, pos: nat): Move
  {
    if pos >= |data| then Stop(pos)
    else if data[pos] == 0 then Stop(pos + 1)
    else if data[pos] >= 0xC0 then
      if pos + 1 >= |data| then Stop(pos)
      else Pointer(256 * (data[pos] as int - 0xC0) + data[pos + 1])
    else if pos + 1 + data[pos] > |data| then Stop(pos + 1)
    else Label(data[pos + 1..pos + 1 + data[pos]], pos + 1 + data[pos])
  }

  /** The loop's variables, or the name and offset it leaves with. */
  datatype Loop =
    | Going(pos: nat, parts: Labels, resume: Option<nat>)
    | Gone(parts: Labels, offset: nat)

  function Round(data: seq<byte>, s: Loop): Loop
  {
    if s.Gone? then s else
      match MoveAt(data, s.pos)
      case Stop(end) => Gone(s.parts, if s.resume.Some? then s.resume.value else end)
      case Label(text, next) => Going(next, s.parts + [text], s.resume)
      case Pointer(target) => Going(target, s.parts, if s.resume.Some? then s.resume else Some(s.pos + 2))
  }

  function Rounds(data: seq<byte>, s: Loop, k: nat): Loop
    decreases k
  {
    if k == 0 then s else Rounds(data, Round(data, s), k - 1)
  }

  function Start(offset: nat): Loop { Going(offset, [], None) }

  /** The parsed name and the offset after it, or a loop that never ends. */
  datatype Parsed = Parsed(labels: Labels, offset: nat) | Endless

  function ParsedWithin(data: seq<byte>, s: Loop, fuel: nat): Parsed
    decreases fuel
  {
    if s.Gone? then Parsed(s.parts, s.offset)
    else if fuel == 0 then Endless
    else ParsedWithin(data, Round(data, s), fuel - 1)
  }

  /** The loop either ends within |data| + 1 rounds or not at all. */
  function NameAt(data: seq<byte>, offset: nat): Parsed
  {
    ParsedWithin(data, Start(offset), |data| + 1)
  }

  // Following positions only.

  function Next(data: seq<byte>, pos: nat): Option<nat>
  {
    match MoveAt(data, pos)
    case Stop(_) => None
    case Label(_, next) => Some(next)
    case Pointer(target) => Some(target)
  }

  function PosAfter(data: seq<byte>, pos: nat, k: nat): Option<nat>
    decreases k
  {
    if k == 0 then Some(pos)
    else if Next(data, pos).None? then None
    else PosAfter(data, Next(data, pos).value, k - 1)
  }

  lemma {:induction false} PosAdd(data: seq<byte>, pos: nat, i: nat, k: nat)
    requires PosAfter(data, pos, i).Some?
    ensures PosAfter(data, pos, i + k) == PosAfter(data, PosAfter(data, pos, i).value, k)
    decreases i
  {
    if i > 0 {
      PosAdd(data, Next(data, pos).value, i - 1, k);
    }
  }

  lemma {:induction false} PosStays(data: seq<byte>, pos: nat, k: nat, m: nat)
    requires PosAfter(data, pos, k).None? && k <= m
    ensures PosAfter(data, pos, m).None?
    decreases k
  {
    if Next(data, pos).Some? {
      PosStays(data, Next(data, pos).value, k - 1, m - 1);
    }
  }

  /** k is the number of the round that stops the walk. */
  predicate StopsAt(data: seq<byte>, pos: nat, k: nat)
  {
    k > 0 && PosAfter(data, pos, k).None? && PosAfter(data, pos, k - 1).Some?
  }

  lemma {:induction false} FirstStop(data: seq<byte>, pos: nat, m: nat) returns (k: nat)
    requires PosAfter(data, pos, m).None?
    ensures k <= m && StopsAt(data, pos, k)
    decreases m
  {
    k := m;
    if PosAfter(data, pos, m - 1).None? {
      k := FirstStop(data, pos, m - 1);
    }
  }

  /** A walk that stops never comes back to a position. */
  lemma {:induction false} NoReturn(data: seq<byte>, pos: nat, k: nat, i: nat, j: nat)
    requires StopsAt(data, pos, k) && i < j < k
    ensures PosAfter(data, pos, i).Some? && PosAfter(data, pos, j).Some?
    ensures PosAfter(data, pos, i) != PosAfter(data, pos, j)
  {
    StillGoing(data, pos, k, i);
    StillGoing(data, pos, k, j);
    if PosAfter(data, pos, i) == PosAfter(data, pos, j) {
      PosAdd(data, pos, j, k - j);
      PosAdd(data, pos, i, k - j);
      PosStays(data, pos, i + k - j, k - 1);
      assert false;
    }
  }

  lemma {:induction false} StillGoing(data: seq<byte>, pos: nat, k: nat, i: nat)
    requires StopsAt(data, pos, k) && i < k
    ensures PosAfter(data, pos, i).Some?
  {
    if PosAfter(data, pos, i).None? {
      PosStays(data, pos, i, k - 1);
      assert false;
    }
  }

  /** The first m positions of the walk. */
  ghost function Visited(data: seq<byte>, pos: nat, m: nat): set<nat>
  {
    if m == 0 then {}
    else Visited(data, pos, m - 1)
         + (if PosAfter(data, pos, m - 1).Some? then {PosAfter(data, pos, m - 1).value} else {})
  }

  lemma {:induction false} VisitedAre(data: seq<byte>, pos: nat, m: nat, x: nat) returns (i: nat)
    requires x in Visited(data, pos, m)
    ensures i < m && PosAfter(data, pos, i) == Some(x)
    decreases m
  {
    if x in Visited(data, pos, m - 1) {
      i := VisitedAre(data, pos, m - 1, x);
    } else {
      i := m - 1;
    }
  }

  lemma {:induction false} VisitedCount(data: seq<byte>, pos: nat, k: nat, m: nat)
    requires StopsAt(data, pos, k) && m <= k
    ensures |Visited(data, pos, m)| == m
    decreases m
  {
    hide PosAfter, StopsAt;
    if m > 0 {
      VisitedCount(data, pos, k, m - 1);
      StillGoing(data, pos, k, m - 1);
      VisitedNew(data, pos, k, m - 1);
    }
  }

  lemma {:induction false} VisitedNew(data: seq<byte>, pos: nat, k: nat, m: nat)
    requires StopsAt(data, pos, k) && m < k && PosAfter(data, pos, m).Some?
    ensures PosAfter(data, pos, m).value !in Visited(data, pos, m)
  {
    var x := PosAfter(data, pos, m).value;
    if x in Visited(data, pos, m) {
      var i := VisitedAre(data, pos, m, x);
      NoReturn(data, pos, k, i, m);
      assert false;
    }
  }

  ghost function Below(n: nat): (r: set<nat>)
    ensures |r| == n && forall x :: x in r ==> x < n
  {
    if n == 0 then {} else
      assert n - 1 !in Below(n - 1);
      Below(n - 1) + {n - 1}
  }

  lemma {:induction false} BelowHas(n: nat, x: nat)
    requires x < n
    ensures x in Below(n)
  {
    if x < n - 1 {
      BelowHas(n - 1, x);
    }
  }

  lemma {:induction false} SubsetCount(a: set<nat>, b: set<nat>)
    requires a <= b
    ensures |a| <= |b|
  {
    assert b == a + (b - a);
  }

  lemma {:induction false} NothingOutside(data: seq<byte>, x: nat)
    ensures x >= |data| ==> PosAfter(data, x, 1).None?
  {
    assert x >= |data| ==> Next(data, x).None?;
  }

  lemma {:induction false} VisitedInside(data: seq<byte>, pos: nat, k: nat, x: nat)
    requires StopsAt(data, pos, k) && x in Visited(data, pos, k - 1)
    ensures x in Below(|data|)
  {
    var i := VisitedAre(data, pos, k - 1, x);
    StillGoing(data, pos, k, i + 1);
    PosAdd(data, pos, i, 1);
    NothingOutside(data, x);
    BelowHas(|data|, x);
  }

  /** By counting positions: a walk that stops does so within |data| + 1 rounds. */
  lemma {:induction false} StopsSoon(data: seq<byte>, pos: nat, k: nat)
    requires StopsAt(data, pos, k)
    ensures k <= |data| + 1
  {
    forall x | x in Visited(data, pos, k - 1) ensures x in Below(|data|) {
      VisitedInside(data, pos, k, x);
    }
    VisitedCount(data, pos, k, k - 1);
    SubsetCount(Visited(data, pos, k - 1), Below(|data|));
  }

  // The loop and the bounded parse.

  lemma {:induction false} RoundsFollow(data: seq<byte>, s: Loop, k: nat)
    requires s.Going?
    ensures Rounds(data, s, k).Gone? <==> PosAfter(data, s.pos, k).None?
    decreases k
  {
    if k > 0 {
      if Round(data, s).Going? {
        RoundsFollow(data, Round(data, s), k - 1);
      } else {
        GoneStays(data, Round(data, s), k - 1);
      }
    }
  }

  lemma {:induction false} GoneStays(data: seq<byte>, s: Loop, k: nat)
    requires s.Gone?
    ensures Rounds(data, s, k) == s
    decreases k
  {
    if k > 0 {
      GoneStays(data, s, k - 1);
    }
  }

  lemma {:induction false} WithinRounds(data: seq<byte>, s: Loop, fuel: nat)
    ensures var e := Rounds(data, s, fuel);
            ParsedWithin(data, s, fuel) == if e.Gone? then Parsed(e.parts, e.offset) else Endless
    decreases fuel
  {
    if s.Gone? {
      GoneStays(data, s, fuel);
    } else if fuel > 0 {
      WithinRounds(data, Round(data, s), fuel - 1);
    }
  }

  /** The unbounded loop leaves after k rounds with this result. */
  predicate LeavesAfter(data: seq<byte>, offset: nat, k: nat, labels: Labels, end: nat)
  {
    Rounds(data, Start(offset), k) == Gone(labels, end)
  }

  /**
   The bounded parse is exact: it reports a name whenever the loop without a
   bound would leave with that name, after however many rounds.
   */
  lemma {:induction false} ParseExact(data: seq<byte>, offset: nat, k: nat, labels: Labels, end: nat)
    requires LeavesAfter(data, offset, k, labels, end)
    ensures NameAt(data, offset) == Parsed(labels, end)
  {
    var s, n := Start(offset), |data| + 1;
    RoundsFollow(data, s, k);
    var first := FirstStop(data, offset, k);
    StopsSoon(data, offset, first);
    PosStays(data, offset, first, n);
    RoundsFollow(data, s, n);
    WithinRounds(data, s, n);
    SameEnd(data, s, k, n);
  }

  lemma {:induction false} SameEnd(data: seq<byte>, s: Loop, i: nat, k: nat)
    requires Rounds(data, s, i).Gone? && Rounds(data, s, k).Gone?
    ensures Rounds(data, s, i) == Rounds(data, s, k)
    decreases i
  {
    if s.Gone? {
      GoneStays(data, s, i);
      GoneStays(data, s, k);
    } else {
      SameEnd(data, Round(data, s), i - 1, k - 1);
    }
  }

  /** The parse reports an endless loop exactly when no number of rounds leaves it. */
  lemma {:induction false} EndlessExact(data: seq<byte>, offset: nat)
    ensures NameAt(data, offset).Endless? <==> forall k: nat :: Rounds(data, Start(offset), k).Going?
  {
    WithinRounds(data, Start(offset), |data| + 1);
    if NameAt(data, offset).Endless? {
      forall k: nat
        ensures Rounds(data, Start(offset), k).Going?
      {
        var e := Rounds(data, Start(offset), k);
        if e.Gone? {
          ParseExact(data, offset, k, e.parts, e.offset);
          assert false;
        }
      }
    }
  }

  // Which inputs make the loop endless.

  /** From p the walk comes back to p after n moves. */
  predicate Returns(data: seq<byte>, p: nat, n: nat)
  {
    n > 0 && PosAfter(data, p, n) == Some(p)
  }

  /** After i moves the walk is at a pointer, which leads back to itself n moves later. */
  predicate LoopingPointer(data: seq<byte>, offset: nat, i: nat, n: nat)
  {
    && PosAfter(data, offset, i).Some? && MoveAt(data, PosAfter(data, offset, i).value).Pointer?
    && Returns(data, PosAfter(data, offset, i).value, n)
  }

  ghost predicate PointerLoop(data: seq<byte>, offset: nat)
  {
    exists i: nat, n: nat :: LoopingPointer(data, offset, i, n)
  }

  /** A walk that comes back to a position does not stop. */
  lemma {:induction false} ReturnNeverStops(data: seq<byte>, offset: nat, i: nat, n: nat, k: nat)
    requires PosAfter(data, offset, i).Some? && Returns(data, PosAfter(data, offset, i).value, n)
    ensures PosAfter(data, offset, k).Some?
  {
    PosAdd(data, offset, i, n);
    if PosAfter(data, offset, k).None? {
      var first := FirstStop(data, offset, k);
      GoesOnBefore(data, offset, first, i + n);
      NoReturn(data, offset, first, i, i + n);
      assert false;
    }
  }

  lemma {:induction false} GoesOnBefore(data: seq<byte>, pos: nat, k: nat, m: nat)
    requires PosAfter(data, pos, k).None? && PosAfter(data, pos, m).Some?
    ensures m < k
  {
    if k <= m {
      PosStays(data, pos, k, m);
      assert false;
    }
  }

  /** m moves from pos, all of them possible. */
  lemma {:induction false} AllBefore(data: seq<byte>, pos: nat, m: nat, i: nat)
    requires PosAfter(data, pos, m).Some? && i <= m
    ensures PosAfter(data, pos, i).Some?
    ensures i < m ==> PosAfter(data, pos, i).value < |data|
  {
    if PosAfter(data, pos, i).None? {
      PosStays(data, pos, i, m);
      assert false;
    }
    if i < m {
      PosAdd(data, pos, i, m - i);
      InsideToMove(data, PosAfter(data, pos, i).value, m - i);
    }
  }

  lemma {:induction false} InsideToMove(data: seq<byte>, x: nat, k: nat)
    requires k > 0 && PosAfter(data, x, k).Some?
    ensures x < |data|
  {
    assert Next(data, x).Some?;
  }

  /** The walk is at the same place after i and after j moves. */
  predicate Meets(data: seq<byte>, pos: nat, i: nat, j: nat)
  {
    i < j && PosAfter(data, pos, i).Some? && PosAfter(data, pos, i) == PosAfter(data, pos, j)
  }

  ghost predicate MeetsBefore(data: seq<byte>, pos: nat, m: nat)
  {
    exists i: nat, j: nat :: j < m && Meets(data, pos, i, j)
  }

  lemma {:induction false} OneMore(a: set<nat>, x: nat, all: set<nat>)
    requires a <= all && x in all
    ensures a + {x} <= all && (x !in a ==> |a + {x}| == |a| + 1)
  {
  }

  /** The positions of the first m moves are all inside, and are m many unless two are the same. */
  lemma {:induction false} CountOrMeet(data: seq<byte>, pos: nat, last: nat, m: nat)
    requires PosAfter(data, pos, last).Some? && m <= last
    ensures Visited(data, pos, m) <= Below(|data|)
    ensures |Visited(data, pos, m)| == m || MeetsBefore(data, pos, m)
    decreases m
  {
    hide PosAfter, Below, MeetsBefore;
    if m == 0 {
      assert Visited(data, pos, 0) == {};
    } else {
      var before := Visited(data, pos, m - 1);
      CountOrMeet(data, pos, last, m - 1);
      AllBefore(data, pos, last, m - 1);
      var x := PosAfter(data, pos, m - 1).value;
      assert Visited(data, pos, m) == before + {x};
      hide Visited;
      BelowHas(|data|, x);
      OneMore(before, x, Below(|data|));
      if x in before { MeetsAgain(data, pos, m, x); }
      if MeetsBefore(data, pos, m - 1) { MeetsLater(data, pos, m - 1); }
    }
  }

  lemma {:induction false} MeetsAgain(data: seq<byte>, pos: nat, m: nat, x: nat)
    requires m > 0 && PosAfter(data, pos, m - 1) == Some(x) && x in Visited(data, pos, m - 1)
    ensures MeetsBefore(data, pos, m)
  {
    hide PosAfter;
    var i := VisitedAre(data, pos, m - 1, x);
    assert Meets(data, pos, i, m - 1);
  }

  lemma {:induction false} MeetsLater(data: seq<byte>, pos: nat, m: nat)
    requires MeetsBefore(data, pos, m)
    ensures MeetsBefore(data, pos, m + 1)
  {
    hide Meets;
  }

  /** Labels only move forward, so a walk that comes back passes a pointer. */
  lemma {:induction false} PassesPointer(data: seq<byte>, p: nat, n: nat) returns (k: nat)
    requires n > 0 && PosAfter(data, p, n).Some? && PosAfter(data, p, n).value <= p
    ensures k < n && PosAfter(data, p, k).Some? && MoveAt(data, PosAfter(data, p, k).value).Pointer?
    decreases n
  {
    if MoveAt(data, p).Pointer? {
      k := 0;
    } else {
      var next := Next(data, p).value;
      k := PassesPointer(data, next, n - 1);
      k := k + 1;
    }
  }

  lemma {:induction false} LoopHasPointer(data: seq<byte>, offset: nat, i: nat, j: nat)
    requires Meets(data, offset, i, j)
    ensures PointerLoop(data, offset)
  {
    var p, n := PosAfter(data, offset, i).value, j - i;
    PosAdd(data, offset, i, n);
    var k := PassesPointer(data, p, n);
    PosAdd(data, offset, i, k);
    PosAdd(data, p, k, n);
    PosAdd(data, p, n, k);
    assert LoopingPointer(data, offset, i + k, n);
  }

  /**
   * The parser runs forever exactly when a pointer it meets leads back to itself;
   * every other input is parsed.
   */
  lemma {:induction false} EndlessIsPointerLoop(data: seq<byte>, offset: nat)
    ensures NameAt(data, offset).Endless? <==> PointerLoop(data, offset)
  {
    var s, n := Start(offset), |data| + 1;
    WithinRounds(data, s, n);
    RoundsFollow(data, s, n);
    if PointerLoop(data, offset) {
      var i: nat, k: nat :| LoopingPointer(data, offset, i, k);
      ReturnNeverStops(data, offset, i, k, n);
    }
    if NameAt(data, offset).Endless? {
      CountOrMeet(data, offset, n, n);
      SubsetCount(Visited(data, offset, n), Below(|data|));
      var i: nat, j: nat :| j < n && Meets(data, offset, i, j);
      LoopHasPointer(data, offset, i, j);
    }
  }

  /** For example a pointer to its own position, anywhere in any packet. */
  lemma {:induction false} SelfPointerEndless(data: seq<byte>, offset: nat)
    requires MoveAt(data, offset) == Pointer(offset)
    ensures NameAt(data, offset).Endless? && NameAt([0xC0, 0x00], 0).Endless?
  {
    assert PosAfter(data, offset, 1) == PosAfter(data, offset, 0) == Some(offset);
    assert LoopingPointer(data, offset, 0, 1);
    EndlessIsPointerLoop(data, offset);
    var two: seq<byte> := [0xC0, 0x00];
    assert MoveAt(two, 0) == Pointer(0);
    assert PosAfter(two, 0, 1) == PosAfter(two, 0, 0) == Some(0);
    assert LoopingPointer(two, 0, 0, 1);
    EndlessIsPointerLoop(two, 0);
  }

  /** Parsing never moves the offset past the end of the data. */
  lemma {:induction false} OffsetInside(data: seq<byte>, s: Loop, fuel: nat)
    requires s.Going? ==> (if s.resume.Some? then s.resume.value <= |data| else s.pos <= |data|)
    requires s.Gone? ==> s.offset <= |data|
    ensures var r := ParsedWithin(data, s, fuel);
            r.Parsed? ==> r.offset <= |data|
    decreases fuel
  {
    if s.Going? && fuel > 0 {
      OffsetInside(data, Round(data, s), fuel - 1);
    }
  }

  lemma {:induction false} NameOffsetInside(data: seq<byte>, offset: nat)
    requires offset <= |data|
    ensures var r := NameAt(data, offset);
            r.Parsed? ==> r.offset <= |data|
  {
    OffsetInside(data, Start(offset), |data| + 1);
  }

  /**
   The parser's loop.  The source has no bound on the number of rounds; by
   EndlessExact the bound here is reached exactly when the source's loop would
   never end.
   */
  method ParseDnsName(data: seq<byte>, offset: nat) returns (r: Parsed)
    ensures r == NameAt(data, offset)
  {
    var parts: Labels := [];
    var pos: nat := offset;
    var jumped := false;
    var jumpTarget: nat := 0;
    var rounds := 0;
    while rounds <= |data|
      invariant 0 <= rounds <= |data| + 1
      invariant NameAt(data, offset)
                == ParsedWithin(data, Going(pos, parts, if jumped then Some(jumpTarget) else None), |data| + 1 - rounds)
      decreases |data| + 1 - rounds
    {
      rounds := rounds + 1;
      if pos >= |data| {
        return Parsed(parts, if jumped then jumpTarget else pos);
      }
      var len: int := data[pos];
      if len == 0 {
        pos := pos + 1;
        return Parsed(parts, if jumped then jumpTarget else pos);
      }
      if len >= 0xC0 {
        if pos + 1 >= |data| {
          return Parsed(parts, if jumped then jumpTarget else pos);
        }
        if !jumped {
          jumpTarget := pos + 2;
        }
        pos := 256 * (len - 0xC0) + data[pos + 1];
        jumped := true;
        continue;
      }
      pos := pos + 1;
      if pos + len > |data| {
        return Parsed(parts, if jumped then jumpTarget else pos);
      }
      parts := parts + [data[pos..pos + len]];
      pos := pos + len;
    }
    r := Endless;
  }

  // What a name's bytes mean.

  /** A name and the position just past its own bytes. */
  datatype Meaning = Meaning(labels: Labels, end: nat)

  /**
   The name written at pos, in a run of labels that began at seg.  Every pointer
   must go to a position before the run that holds it.
   */
  function Means(data: seq<byte>, pos: nat, seg: nat): Option<Meaning>
    decreases seg, |data| - pos
  {
    if pos >= |data| then None else
      match MoveAt(data, pos)
      case Stop(end) => if data[pos] == 0 then Some(Meaning([], end)) else None
      case Label(text, next) =>
        var rest := Means(data, next, seg);
        if rest.None? then None else Some(Meaning([text] + rest.value.labels, rest.value.end))
      case Pointer(target) =>
        if target >= seg then None else
          var rest := Means(data, target, target);
          if rest.None? then None else Some(Meaning(rest.value.labels, pos + 2))
  }

  /** The loop reads a meaningful name, whatever it has collected before. */
  lemma {:induction false} LoopReads(data: seq<byte>, pos: nat, seg: nat, parts: Labels, resume: Option<nat>)
    returns (k: nat)
    requires Means(data, pos, seg).Some?
    ensures var m := Means(data, pos, seg).value;
            Rounds(data, Going(pos, parts, resume), k)
            == Gone(parts + m.labels, if resume.Some? then resume.value else m.end)
    decreases seg, |data| - pos
  {
    var s := Going(pos, parts, resume);
    match MoveAt(data, pos) {
      case Stop(end) =>
        k := 1;
        assert parts + [] == parts;
        assert Rounds(data, Round(data, s), 0) == Round(data, s);
      case Label(text, next) =>
        k := LoopReads(data, next, seg, parts + [text], resume);
        assert parts + [text] + Means(data, next, seg).value.labels
            == parts + ([text] + Means(data, next, seg).value.labels);
        k := k + 1;
      case Pointer(target) =>
        k := LoopReads(data, target, target, parts, if resume.Some? then resume else Some(pos + 2));
        k := k + 1;
    }
  }

  /** A name whose pointers all go backwards is parsed, with the offset left just past its own bytes. */
  lemma {:induction false} MeaningIsParsed(data: seq<byte>, pos: nat)
    requires Means(data, pos, pos).Some?
    ensures var m := Means(data, pos, pos).value;
            NameAt(data, pos) == Parsed(m.labels, m.end)
  {
    var m := Means(data, pos, pos).value;
    var k := LoopReads(data, pos, pos, [], None);
    assert [] + m.labels == m.labels;
    ParseExact(data, pos, k, m.labels, m.end);
  }

  // Writing names.

  function LabelBytes(text: seq<byte>): seq<byte>
  {
    [|text| % 256] + text
  }

  function LabelsBytes(labels: Labels): seq<byte>
  {
    if labels == [] then [] else LabelBytes(labels[0]) + LabelsBytes(labels[1..])
  }

  predicate ShortLabels(labels: Labels)
  {
    forall i :: 0 <= i < |labels| ==> 1 <= |labels[i]| < 0xC0
  }

  /** data holds the bytes s at position at. */
  predicate Holds(data: seq<byte>, at: nat, s: seq<byte>)
  {
    at + |s| <= |data| && forall k :: 0 <= k < |s| ==> data[at + k] == s[k]
  }

  lemma {:induction false} HeldSlice(data: seq<byte>, at: nat, s: seq<byte>)
    requires at + |s| <= |data|
    ensures Holds(data, at, s) <==> data[at..at + |s|] == s
  {
    if Holds(data, at, s) {
      assert data[at..at + |s|] == s;
    }
    if data[at..at + |s|] == s {
      forall k | 0 <= k < |s| ensures data[at + k] == s[k] { assert data[at..at + |s|][k] == s[k]; }
    }
  }

  lemma {:induction false} HoldsParts(data: seq<byte>, at: nat, a: seq<byte>, b: seq<byte>)
    requires Holds(data, at, a + b)
    ensures Holds(data, at, a) && Holds(data, at + |a|, b)
  {
    forall k | 0 <= k < |a| ensures data[at + k] == a[k] { assert (a + b)[k] == a[k]; }
    forall k | 0 <= k < |b| ensures data[at + |a| + k] == b[k] { assert (a + b)[|a| + k] == b[k]; }
  }

  lemma {:induction false} LabelMove(data: seq<byte>, at: nat, text: seq<byte>)
    requires Holds(data, at, LabelBytes(text)) && 1 <= |text| < 0xC0
    ensures MoveAt(data, at) == Label(text, at + 1 + |text|)
  {
    var s := LabelBytes(text);
    assert data[at + 0] == s[0];
    HoldsParts(data, at, [|text| % 256], text);
    HeldSlice(data, at + 1, text);
  }

  /** Labels followed by something meaningful mean the longer name. */
  lemma {:induction false} LabelsMean(data: seq<byte>, at: nat, seg: nat, labels: Labels, stop: nat, rest: Meaning)
    requires ShortLabels(labels) && Holds(data, at, LabelsBytes(labels))
    requires stop == at + |LabelsBytes(labels)| && Means(data, stop, seg) == Some(rest)
    ensures Means(data, at, seg) == Some(Meaning(labels + rest.labels, rest.end))
    decreases labels
  {
    if labels == [] {
      NothingFirst(labels, rest.labels);
    } else {
      var next := at + 1 + |labels[0]|;
      assert at < |data| && MoveAt(data, at) == Label(labels[0], next) by {
        FirstLabel(data, at, labels);
      }
      assert Means(data, next, seg) == Some(Meaning(labels[1..] + rest.labels, rest.end)) by {
        FirstLabel(data, at, labels);
        LabelsMean(data, next, seg, labels[1..], stop, rest);
      }
      MeansLabel(data, at, seg, labels, rest);
    }
  }

  lemma {:induction false} NothingFirst<T>(a: seq<T>, b: seq<T>)
    requires a == []
    ensures a + b == b
  {
  }

  lemma {:induction false} HeadFirst<T>(a: seq<T>, b: seq<T>)
    requires a != []
    ensures a + b == [a[0]] + (a[1..] + b)
  {
  }

  lemma {:induction false} FirstLabel(data: seq<byte>, at: nat, labels: Labels)
    requires ShortLabels(labels) && labels != [] && Holds(data, at, LabelsBytes(labels))
    ensures MoveAt(data, at) == Label(labels[0], at + 1 + |labels[0]|) && at < |data|
    ensures Holds(data, at + 1 + |labels[0]|, LabelsBytes(labels[1..]))
    ensures |LabelsBytes(labels)| == 1 + |labels[0]| + |LabelsBytes(labels[1..])|
    ensures ShortLabels(labels[1..])
  {
    HoldsParts(data, at, LabelBytes(labels[0]), LabelsBytes(labels[1..]));
    LabelMove(data, at, labels[0]);
  }

  lemma {:induction false} MeansLabel(data: seq<byte>, at: nat, seg: nat, labels: Labels, rest: Meaning)
    requires labels != [] && at < |data| && MoveAt(data, at) == Label(labels[0], at + 1 + |labels[0]|)
    requires Means(data, at + 1 + |labels[0]|, seg) == Some(Meaning(labels[1..] + rest.labels, rest.end))
    ensures Means(data, at, seg) == Some(Meaning(labels + rest.labels, rest.end))
  {
    HeadFirst(labels, rest.labels);
  }

  /** An uncompressed name, anywhere in a packet. */
  lemma {:induction false} PlainNameMeans(data: seq<byte>, at: nat, seg: nat, labels: Labels)
    requires ShortLabels(labels) && Holds(data, at, LabelsBytes(labels) + [0])
    ensures Means(data, at, seg) == Some(Meaning(labels, at + |LabelsBytes(labels)| + 1))
  {
    var end := at + |LabelsBytes(labels)|;
    HoldsParts(data, at, LabelsBytes(labels), [0]);
    assert data[end + 0] == [0][0];
    LabelsMean(data, at, seg, labels, end, Meaning([], end + 1));
    assert labels + [] == labels;
  }

  function PointerBytes(target: nat): seq<byte>
    requires target < 0x4000
  {
    [0xC0 + target / 256, target % 256]
  }

  /** Labels and then a pointer to an earlier name mean the labels followed by that name. */
  lemma {:induction false} CompressedNameMeans(data: seq<byte>, at: nat, labels: Labels, target: nat, earlier: Meaning)
    requires ShortLabels(labels) && target < at && target < 0x4000
    requires Means(data, target, target) == Some(earlier)
    requires Holds(data, at, LabelsBytes(labels) + PointerBytes(target))
    ensures Means(data, at, at) == Some(Meaning(labels + earlier.labels, at + |LabelsBytes(labels)| + 2))
  {
    var here := at + |LabelsBytes(labels)|;
    HoldsParts(data, at, LabelsBytes(labels), PointerBytes(target));
    PointerHeld(data, here, at, target, earlier);
    LabelsMean(data, at, at, labels, here, Meaning(earlier.labels, here + 2));
  }

  lemma {:induction false} PointerHeld(data: seq<byte>, here: nat, seg: nat, target: nat, earlier: Meaning)
    requires target < seg && target < 0x4000 && Holds(data, here, PointerBytes(target))
    requires Means(data, target, target) == Some(earlier)
    ensures Means(data, here, seg) == Some(Meaning(earlier.labels, here + 2))
  {
    assert data[here + 0] == PointerBytes(target)[0] && data[here + 1] == PointerBytes(target)[1];
    PointerMeans(data, here, seg, target, earlier);
  }

  lemma {:induction false} PointerMeans(data: seq<byte>, here: nat, seg: nat, target: nat, earlier: Meaning)
    requires target < seg && target < 0x4000 && here + 2 <= |data|
    requires data[here] == 0xC0 + target / 256 && data[here + 1] == target % 256
    requires Means(data, target, target) == Some(earlier)
    ensures Means(data, here, seg) == Some(Meaning(earlier.labels, here + 2))
  {
    assert MoveAt(data, here) == Pointer(target);
  }

  // From dotted text to labels and back.

  /** The pieces between dots, the first one continuing the given piece. */
  function SplitDots(name: seq<byte>, piece: seq<byte>): (r: Labels)
    ensures |r| >= 1
    decreases name
  {
    if name == [] then [piece]
    else if name[0] == DOT then [piece] + SplitDots(name[1..], [])
    else SplitDots(name[1..], piece + [name[0]])
  }

  function NonEmpty(pieces: Labels): Labels
  {
    if pieces == [] then []
    else Kept(pieces[0]) + NonEmpty(pieces[1..])
  }

  function LabelsOf(name: seq<byte>): Labels { NonEmpty(SplitDots(name, [])) }

  function Join(labels: Labels): seq<byte>
  {
    if labels == [] then []
    else if |labels| == 1 then labels[0]
    else labels[0] + [DOT] + Join(labels[1..])
  }

  /** A piece as a label, unless it is empty. */
  function Kept(piece: seq<byte>): Labels { if piece == [] then [] else [piece] }

  method PushLabel(out: seq<byte>, text: seq<byte>, ghost packet: seq<byte>, ghost done: Labels)
    returns (r: seq<byte>)
    requires out == packet + LabelsBytes(done)
    ensures r == packet + LabelsBytes(done + Kept(text))
  {
    r := out;
    if text == [] {
      assert done + [] == done;
    } else {
      r := r + [|text| % 256];
      r := r + text;
      AppendLabel(done, text);
      assert r == packet + (LabelsBytes(done) + LabelBytes(text));
    }
  }

  /** The encoder: one length-prefixed label per piece, then the root label. */
  method EncodeDnsName(name: seq<byte>, packet: seq<byte>) returns (out: seq<byte>)
    ensures out == packet + LabelsBytes(LabelsOf(name)) + [0]
  {
    out := packet;
    var text: seq<byte> := [];
    var i := 0;
    ghost var done: Labels := [];
    while i < |name|
      invariant 0 <= i <= |name|
      invariant out == packet + LabelsBytes(done)
      invariant LabelsOf(name) == done + NonEmpty(SplitDots(name[i..], text))
    {
      SplitNext(name, i, text);
      if name[i] == DOT {
        out := PushLabel(out, text, packet, done);
        Regroup(done, Kept(text), NonEmpty(SplitDots(name[i + 1..], [])));
        done := done + Kept(text);
        text := [];
      } else {
        text := text + [name[i]];
      }
      i := i + 1;
    }
    LastPiece(text);
    out := PushLabel(out, text, packet, done);
    out := out + [0];
  }

  lemma {:induction false} LastPiece(text: seq<byte>)
    ensures NonEmpty(SplitDots([], text)) == Kept(text)
  {
    assert NonEmpty([text][1..]) == [];
  }

  lemma {:induction false} SplitNext(name: seq<byte>, i: nat, text: seq<byte>)
    requires i < |name|
    ensures NonEmpty(SplitDots(name[i..], text))
            == if name[i] == DOT then Kept(text) + NonEmpty(SplitDots(name[i + 1..], []))
               else NonEmpty(SplitDots(name[i + 1..], text + [name[i]]))
  {
    assert name[i..][1..] == name[i + 1..];
    if name[i] == DOT {
      var rest := SplitDots(name[i + 1..], []);
      assert SplitDots(name[i..], text) == [text] + rest;
      assert ([text] + rest)[1..] == rest;
    }
  }

  lemma {:induction false} AppendLabel(labels: Labels, text: seq<byte>)
    ensures LabelsBytes(labels + [text]) == LabelsBytes(labels) + LabelBytes(text)
  {
    if labels == [] {
      assert [text][1..] == [];
      assert LabelsBytes([text]) == LabelBytes(text) + LabelsBytes([]);
    } else {
      AppendLabel(labels[1..], text);
      assert (labels + [text])[1..] == labels[1..] + [text];
    }
  }

  predicate Dotless(s: seq<byte>) { forall i :: 0 <= i < |s| ==> s[i] != DOT }

  lemma {:induction false} SplitJoins(name: seq<byte>, piece: seq<byte>)
    requires Dotless(piece)
    ensures Join(SplitDots(name, piece)) == piece + name
    ensures forall p :: p in SplitDots(name, piece) ==> Dotless(p)
    decreases name
  {
    if name == [] {
      assert piece + name == piece;
    } else if name[0] == DOT {
      SplitJoins(name[1..], []);
      var rest := SplitDots(name[1..], []);
      assert ([piece] + rest)[1..] == rest;
      assert piece + [DOT] + ([] + name[1..]) == piece + name;
    } else {
      SplitJoins(name[1..], piece + [name[0]]);
      assert piece + [name[0]] + name[1..] == piece + name;
    }
  }

  function TotalLength(labels: Labels): nat
  {
    if labels == [] then 0 else |labels[0]| + TotalLength(labels[1..])
  }

  lemma {:induction false} JoinLength(labels: Labels)
    ensures |Join(labels)| == TotalLength(labels) + (if labels == [] then 0 else |labels| - 1)
  {
    if |labels| > 1 {
      JoinLength(labels[1..]);
    } else if |labels| == 1 {
      assert TotalLength(labels[1..]) == 0;
    }
  }

  predicate NoneEmpty(pieces: Labels) { forall i :: 0 <= i < |pieces| ==> pieces[i] != [] }

  lemma {:induction false} NonEmptyCount(pieces: Labels)
    ensures TotalLength(NonEmpty(pieces)) == TotalLength(pieces)
    ensures |NonEmpty(pieces)| <= |pieces|
    ensures |NonEmpty(pieces)| == |pieces| <==> NoneEmpty(pieces)
    ensures NoneEmpty(pieces) ==> NonEmpty(pieces) == pieces
    ensures forall p :: p in NonEmpty(pieces) ==> p in pieces && p != []
  {
    if pieces != [] {
      var rest := NonEmpty(pieces[1..]);
      NonEmptyCount(pieces[1..]);
      if pieces[0] != [] {
        assert NonEmpty(pieces) == [pieces[0]] + rest;
        assert ([pieces[0]] + rest)[1..] == rest;
        assert NoneEmpty(pieces) <==> NoneEmpty(pieces[1..]);
      } else {
        assert NonEmpty(pieces) == [] + rest == rest;
      }
    }
  }

  /** Joining a name's labels gives the name back exactly when the name has no empty label. */
  lemma {:induction false} SplitRun(a: seq<byte>, rest: seq<byte>, piece: seq<byte>)
    requires forall i :: 0 <= i < |a| ==> a[i] != 46
    ensures SplitDots(a + rest, piece) == SplitDots(rest, piece + a)
    decreases a
  {
    if a == [] {
      assert a + rest == rest && piece + a == piece;
    } else {
      assert (a + rest)[0] == a[0] && (a + rest)[1..] == a[1..] + rest;
      SplitRun(a[1..], rest, piece + [a[0]]);
      assert piece + a == (piece + [a[0]]) + a[1..];
    }
  }

  /** Labels are separated by the byte 46, a full stop. */
  lemma {:induction false} TwoLabels(a: seq<byte>, b: seq<byte>)
    requires a != [] && b != [] && (forall i :: 0 <= i < |a| ==> a[i] != 46) && forall i :: 0 <= i < |b| ==> b[i] != 46
    ensures LabelsOf(a + ([46] + b)) == [a, b] && Join([a, b]) == a + [46] + b
  {
    var rest: seq<byte> := [46] + b;
    SplitRun(a, rest, []);
    assert [] + a == a && rest[0] == 46 && rest[1..] == b;
    SplitRun(b, [], []);
    assert b + [] == b && [] + b == b;
    assert SplitDots(rest, a) == [a] + SplitDots(b, []) && SplitDots(b, []) == [b];
    assert [a] + [b] == [a, b] && [a, b][1..] == [b];
    assert NonEmpty([b]) == [b] by { assert [b][1..] == []; }
    assert Join([b]) == b;
  }

  lemma {:induction false} JoinUndoesSplit(name: seq<byte>)
    ensures Join(LabelsOf(name)) == name <==> name == [] || NoneEmpty(SplitDots(name, []))
  {
    var pieces := SplitDots(name, []);
    SplitJoins(name, []);
    assert [] + name == name;
    NonEmptyCount(pieces);
    JoinLength(pieces);
    JoinLength(NonEmpty(pieces));
    if name == [] {
      assert NonEmpty([[]]) == [] by {
        assert [[]][1..] == NonEmpty([]);
      }
    }
  }

  // When encoding and parsing undo each other.

  predicate AllBelow192(labels: Labels) { forall i :: 0 <= i < |labels| ==> |labels[i]| < 0xC0 }

  lemma {:induction false} ParsedLabelsShort(data: seq<byte>, s: Loop, fuel: nat)
    requires AllBelow192(s.parts)
    ensures var r := ParsedWithin(data, s, fuel);
            r.Parsed? ==> AllBelow192(r.labels)
    decreases fuel
  {
    if s.Going? && fuel > 0 {
      ParsedLabelsShort(data, Round(data, s), fuel - 1);
    }
  }

  lemma {:induction false} DotInside(first: seq<byte>, rest: seq<byte>, a: nat, b: nat)
    requires a <= |first| < b <= |first + [DOT] + rest|
    ensures !Dotless((first + [DOT] + rest)[a..b])
  {
    assert (first + [DOT] + rest)[a..b][|first| - a] == DOT;
  }

  /** A stretch without dots lies within one label. */
  lemma {:induction false} RunWithinLabel(labels: Labels, a: nat, b: nat)
    requires AllBelow192(labels) && a <= b <= |Join(labels)| && Dotless(Join(labels)[a..b])
    ensures b - a < 0xC0
  {
    if |labels| > 1 {
      var first, rest := labels[0], Join(labels[1..]);
      var all := first + [DOT] + rest;
      if a <= |first| < b {
        DotInside(first, rest, a, b);
        assert false;
      } else if a > |first| {
        assert all[a..b] == rest[a - |first| - 1..b - |first| - 1];
        RunWithinLabel(labels[1..], a - |first| - 1, b - |first| - 1);
      }
    }
  }

  /** Every label is a stretch of the joined name. */
  lemma {:induction false} LabelWithinJoin(labels: Labels, i: nat) returns (a: nat)
    requires i < |labels|
    ensures a + |labels[i]| <= |Join(labels)| && Join(labels)[a..a + |labels[i]|] == labels[i]
  {
    if |labels| == 1 {
      a := 0;
    } else {
      var first, rest := labels[0], Join(labels[1..]);
      var all := first + [DOT] + rest;
      if i == 0 {
        a := 0;
        assert all[0..|first|] == first;
      } else {
        var c := LabelWithinJoin(labels[1..], i - 1);
        a := |first| + 1 + c;
        assert all[a..a + |labels[i]|] == rest[c..c + |labels[i]|];
      }
    }
  }

  lemma {:induction false} LabelsAreClean(name: seq<byte>, i: nat)
    requires i < |LabelsOf(name)|
    ensures LabelsOf(name)[i] != [] && Dotless(LabelsOf(name)[i])
  {
    SplitJoins(name, []);
    NonEmptyCount(SplitDots(name, []));
    assert LabelsOf(name)[i] in LabelsOf(name);
  }

  /** In any packet, parsing an encoded name gives back its labels when all are below 192 bytes. */
  lemma {:induction false} EncodedNameParses(data: seq<byte>, at: nat, name: seq<byte>, labels: Labels)
    requires labels == LabelsOf(name) && AllBelow192(labels)
    requires Holds(data, at, LabelsBytes(labels) + [0])
    ensures Means(data, at, at) == Some(Meaning(labels, at + |LabelsBytes(labels)| + 1))
    ensures NameAt(data, at) == Parsed(labels, at + |LabelsBytes(labels)| + 1)
  {
    LabelsAreShort(name, labels);
    PlainNameParses(data, at, labels);
  }

  lemma {:induction false} PlainNameParses(data: seq<byte>, at: nat, labels: Labels)
    requires ShortLabels(labels) && Holds(data, at, LabelsBytes(labels) + [0])
    ensures Means(data, at, at) == Some(Meaning(labels, at + |LabelsBytes(labels)| + 1))
    ensures NameAt(data, at) == Parsed(labels, at + |LabelsBytes(labels)| + 1)
  {
    PlainNameMeans(data, at, at, labels);
    MeaningIsParsed(data, at);
  }

  lemma {:induction false} LabelsAreShort(name: seq<byte>, labels: Labels)
    requires labels == LabelsOf(name) && AllBelow192(labels)
    ensures ShortLabels(labels)
  {
    forall i | 0 <= i < |labels|
      ensures labels[i] != []
    {
      LabelsAreClean(name, i);
    }
  }

  /** Labels below 192 bytes cannot spell a name with a longer label. */
  lemma {:induction false} LongLabelLost(got: Labels, labels: Labels, i: nat)
    requires AllBelow192(got) && i < |labels| && |labels[i]| >= 0xC0 && Dotless(labels[i])
    ensures Join(got) != Join(labels)
  {
    var a := LabelWithinJoin(labels, i);
    if Join(got) == Join(labels) {
      RunWithinLabel(got, a, a + |labels[i]|);
      assert false;
    }
  }

  /**
   Parsing undoes encoding, in any packet, exactly when every label is shorter
   than 192 bytes.
   */
  lemma {:induction false} RoundTripExact(data: seq<byte>, at: nat, name: seq<byte>)
    requires Holds(data, at, LabelsBytes(LabelsOf(name)) + [0])
    ensures NameAt(data, at).Parsed? && Join(NameAt(data, at).labels) == Join(LabelsOf(name))
            <==> AllBelow192(LabelsOf(name))
  {
    var ls := LabelsOf(name);
    if AllBelow192(ls) {
      EncodedNameParses(data, at, name, ls);
    } else if NameAt(data, at).Parsed? {
      ParsedLabelsShort(data, Start(at), |data| + 1);
      var i: nat :| i < |ls| && |ls[i]| >= 0xC0;
      LabelsAreClean(name, i);
      LongLabelLost(NameAt(data, at).labels, ls, i);
    }
  }
}
