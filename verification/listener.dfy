/** Listening, accepting and closing from any number of threads over two shared maps. */
module Listener {

  import opened Sequences

  /** What an accept call answers. */
  datatype Answer = Shutdown | InvalidHandle | Connection | IoError

  /** What an accept call was told: its handle, whether it had been issued, whether it was closed. */
  datatype Asked = Asked(handle: nat, given: bool, late: bool)

  /** Where a call stands between two atomic steps on the shared maps. */
  datatype Pc =
    | ListenBound
    | ListenNumbered(handle: nat)
    | ListenInserted(handle: nat)
    | ListenIssued(handle: nat)
    | AcceptBegun(asked: Asked)
    | AcceptUnclosed(asked: Asked)
    | AcceptMissing(asked: Asked)
    | AcceptWaiting(asked: Asked)
    | AcceptWoken(asked: Asked, connected: bool)
    | AcceptDone(asked: Asked, answer: Answer)
    | CloseBegun(handle: nat)
    | CloseMarked(handle: nat)
    | CloseDone(handle: nat)

  /**
   * The shared maps and counter, and where each call stands. `issued` holds the
   * handles returned to callers; `early` those with a close begun before that.
   */
  datatype State = State(listeners: set<nat>, closed: set<nat>, nextId: nat, calls: map<nat, Pc>,
                         issued: set<nat>, early: set<nat>)

  const INITIAL := State({}, {}, 1, map[], {}, {})

  /** A new call, or the next step of one; `ok` is what the operating system answered. */
  datatype Action =
    | Listen(call: nat)
    | Accept(call: nat, handle: nat)
    | Close(call: nat, handle: nat)
    | Advance(call: nat, ok: bool)

  predicate Ended(pc: Pc) { pc.ListenIssued? || pc.AcceptDone? || pc.CloseDone? }

  predicate Enabled(s: State, a: Action)
  {
    match a
    case Advance(call, _) => call in s.calls && !Ended(s.calls[call])
    case _ => a.call !in s.calls
  }

  function Move(s: State, call: nat, pc: Pc): State
  {
    s.(calls := s.calls[call := pc])
  }

  /** The answer to a call that found no listener, or whose wait ended. */
  function Unless(closed: bool, otherwise: Answer): Answer
  {
    if closed then Shutdown else otherwise
  }

  /** One atomic step of the call at pc. */
  function StepOf(s: State, call: nat, pc: Pc, ok: bool): State
    requires !Ended(pc)
  {
    match pc
    case ListenBound => Move(s, call, ListenNumbered(s.nextId)).(nextId := s.nextId + 1)
    case ListenNumbered(h) => Move(s, call, ListenInserted(h)).(listeners := s.listeners + {h})
    case ListenInserted(h) => Move(s, call, ListenIssued(h)).(closed := s.closed - {h}, issued := s.issued + {h})
    case AcceptBegun(q) =>
      Move(s, call, if q.handle in s.closed then AcceptDone(q, Shutdown) else AcceptUnclosed(q))
    case AcceptUnclosed(q) =>
      Move(s, call, if q.handle !in s.listeners then AcceptMissing(q)
                    else if ok then AcceptWaiting(q) else AcceptDone(q, IoError))
    case AcceptMissing(q) => Move(s, call, AcceptDone(q, Unless(q.handle in s.closed, InvalidHandle)))
    case AcceptWaiting(q) => Move(s, call, AcceptWoken(q, ok))
    case AcceptWoken(q, connected) =>
      Move(s, call, AcceptDone(q, Unless(q.handle in s.closed, if connected then Connection else IoError)))
    case CloseBegun(h) => Move(s, call, CloseMarked(h)).(closed := s.closed + {h})
    case CloseMarked(h) => Move(s, call, CloseDone(h)).(listeners := s.listeners - {h})
  }

  function Next(s: State, a: Action): State
    requires Enabled(s, a)
  {
    match a
    case Listen(call) => Move(s, call, ListenBound)
    case Accept(call, h) => Move(s, call, AcceptBegun(Asked(h, h in s.issued, h in s.closed)))
    case Close(call, h) => Move(s, call, CloseBegun(h)).(early := if h in s.issued then s.early else s.early + {h})
    case Advance(call, ok) => StepOf(s, call, s.calls[call], ok)
  }

  /** A run: every action is possible when it happens. */
  predicate Possible(s: State, actions: seq<Action>)
    decreases actions
  {
    actions == [] || (Enabled(s, actions[0]) && Possible(Next(s, actions[0]), actions[1..]))
  }

  function After(s: State, actions: seq<Action>): State
    requires Possible(s, actions)
    decreases actions
  {
    if actions == [] then s else After(Next(s, actions[0]), actions[1..])
  }

  // The invariant.

  /** A handle that was issued, and that nobody tried to close before. */
  predicate Proper(s: State, h: nat) { h in s.issued && h !in s.early }

  /** An accept call asked about a proper handle, after its close had been marked. */
  predicate Late(s: State, q: Asked) { q.given && q.late && Proper(s, q.handle) }

  predicate Sane(s: State, pc: Pc)
  {
    match pc
    case ListenBound => true
    case ListenNumbered(h) => h < s.nextId && h !in s.listeners && h !in s.issued
    case ListenInserted(h) => h < s.nextId && h !in s.issued && (h !in s.early ==> h in s.listeners)
    case ListenIssued(h) => h in s.issued
    case AcceptBegun(q) => AskedSane(s, q)
    case AcceptUnclosed(q) => AskedSane(s, q) && !Late(s, q)
    case AcceptMissing(q) => AskedSane(s, q) && !Late(s, q) && (q.given && Proper(s, q.handle) ==> q.handle in s.closed)
    case AcceptWaiting(q) => AskedSane(s, q) && !Late(s, q)
    case AcceptWoken(q, _) => AskedSane(s, q) && !Late(s, q)
    case AcceptDone(q, answer) =>
      && AskedSane(s, q) && (Late(s, q) ==> answer == Shutdown)
      && (q.given && Proper(s, q.handle) ==> answer != InvalidHandle)
      && (q.given && Proper(s, q.handle) && answer == Shutdown ==> q.handle in s.closed)
    case CloseBegun(h) => h in s.issued || h in s.early
    case CloseMarked(h) => (h in s.issued || h in s.early) && (Proper(s, h) ==> h in s.closed)
    case CloseDone(h) => (h in s.issued || h in s.early) && (Proper(s, h) ==> h in s.closed && h !in s.listeners)
  }

  predicate AskedSane(s: State, q: Asked)
  {
    (q.given ==> q.handle in s.issued) && (Late(s, q) ==> q.handle in s.closed)
  }

  predicate HandlesSane(s: State)
  {
    && (forall h :: h in s.issued ==> h < s.nextId && (h !in s.early ==> h in s.listeners || h in s.closed))
    && (forall h :: h in s.listeners ==> h < s.nextId)
    && (forall h :: h in s.closed ==> h in s.issued || h in s.early)
  }

  predicate Listening(pc: Pc, h: nat)
  {
    (pc.ListenNumbered? || pc.ListenInserted? || pc.ListenIssued?) && pc.handle == h
  }

  ghost predicate Apart(s: State)
  {
    forall a, b, h :: a in s.calls && b in s.calls && Listening(s.calls[a], h) && Listening(s.calls[b], h) ==> a == b
  }

  ghost predicate Invariant(s: State)
  {
    && s.nextId >= 1 && HandlesSane(s) && Apart(s)
    && (forall c :: c in s.calls ==> Sane(s, s.calls[c]))
    && (forall h :: h in s.issued ==> exists c :: c in s.calls && s.calls[c] == ListenIssued(h))
  }

  lemma {:induction false} ListeningBelow(s: State, c: nat, h: nat)
    requires Invariant(s) && c in s.calls
    ensures Listening(s.calls[c], h) ==> h < s.nextId
  {
    assert Sane(s, s.calls[c]);
  }

  /** After `call` moved to pc, the invariant is what is left to show about its parts. */
  lemma {:induction false} Moved(s: State, t: State, call: nat, pc: Pc)
    requires Invariant(s) && t.calls == s.calls[call := pc] && t.nextId >= s.nextId
    requires HandlesSane(t) && Sane(t, pc)
    requires forall c :: c in s.calls && c != call ==> Sane(t, s.calls[c])
    requires forall h :: Listening(pc, h) ==> (call in s.calls && Listening(s.calls[call], h)) || h == s.nextId
    requires t.issued == if pc.ListenIssued? then s.issued + {pc.handle} else s.issued
    requires call in s.calls ==> !s.calls[call].ListenIssued?
    ensures Invariant(t)
  {
    forall a, b, h: nat | a in t.calls && b in t.calls && Listening(t.calls[a], h) && Listening(t.calls[b], h)
      ensures a == b
    {
      if a != call { ListeningBelow(s, a, h); }
      if b != call { ListeningBelow(s, b, h); }
    }
    forall h | h in t.issued
      ensures exists c :: c in t.calls && t.calls[c] == ListenIssued(h)
    {
      if h in s.issued {
        var c :| c in s.calls && s.calls[c] == ListenIssued(h);
        assert t.calls[c] == ListenIssued(h);
      } else {
        assert t.calls[call] == ListenIssued(h);
      }
    }
  }

  lemma {:induction false} BeginKeeps(s: State, a: Action)
    requires Invariant(s) && Enabled(s, a) && !a.Advance?
    ensures Invariant(Next(s, a))
  {
    var t := Next(s, a);
    forall c | c in s.calls && c != a.call ensures Sane(t, s.calls[c]) {
      assert Sane(s, s.calls[c]);
    }
    Moved(s, t, a.call, t.calls[a.call]);
  }

  lemma {:induction false} ListenKeeps(s: State, call: nat, ok: bool)
    requires Invariant(s) && call in s.calls
    requires s.calls[call].ListenBound? || s.calls[call].ListenNumbered? || s.calls[call].ListenInserted?
    ensures Invariant(StepOf(s, call, s.calls[call], ok))
  {
    var pc := s.calls[call];
    var t := StepOf(s, call, pc, ok);
    assert Sane(s, pc);
    forall c | c in s.calls && c != call ensures Sane(t, s.calls[c]) {
      assert Sane(s, s.calls[c]);
      if !pc.ListenBound? {
        assert Listening(pc, pc.handle);
        assert !Listening(s.calls[c], pc.handle);
      }
    }
    Moved(s, t, call, t.calls[call]);
  }

  lemma {:induction false} AcceptKeeps(s: State, call: nat, ok: bool)
    requires Invariant(s) && call in s.calls && !Ended(s.calls[call])
    requires s.calls[call].AcceptBegun? || s.calls[call].AcceptUnclosed? || s.calls[call].AcceptMissing?
          || s.calls[call].AcceptWaiting? || s.calls[call].AcceptWoken?
    ensures Invariant(StepOf(s, call, s.calls[call], ok))
  {
    var t := StepOf(s, call, s.calls[call], ok);
    assert Sane(s, s.calls[call]);
    forall c | c in s.calls && c != call ensures Sane(t, s.calls[c]) {
      assert Sane(s, s.calls[c]);
    }
    Moved(s, t, call, t.calls[call]);
  }

  lemma {:induction false} CloseKeeps(s: State, call: nat, ok: bool)
    requires Invariant(s) && call in s.calls && (s.calls[call].CloseBegun? || s.calls[call].CloseMarked?)
    ensures Invariant(StepOf(s, call, s.calls[call], ok))
  {
    var t := StepOf(s, call, s.calls[call], ok);
    assert Sane(s, s.calls[call]);
    forall c | c in s.calls && c != call ensures Sane(t, s.calls[c]) {
      assert Sane(s, s.calls[c]);
    }
    Moved(s, t, call, t.calls[call]);
  }

  lemma {:induction false} NextKeeps(s: State, a: Action)
    requires Invariant(s) && Enabled(s, a)
    ensures Invariant(Next(s, a))
  {
    if !a.Advance? {
      BeginKeeps(s, a);
    } else {
      match s.calls[a.call] {
        case ListenBound => ListenKeeps(s, a.call, a.ok);
        case ListenNumbered(_) => ListenKeeps(s, a.call, a.ok);
        case ListenInserted(_) => ListenKeeps(s, a.call, a.ok);
        case CloseBegun(_) => CloseKeeps(s, a.call, a.ok);
        case CloseMarked(_) => CloseKeeps(s, a.call, a.ok);
        case AcceptBegun(_) => AcceptKeeps(s, a.call, a.ok);
        case AcceptUnclosed(_) => AcceptKeeps(s, a.call, a.ok);
        case AcceptMissing(_) => AcceptKeeps(s, a.call, a.ok);
        case AcceptWaiting(_) => AcceptKeeps(s, a.call, a.ok);
        case AcceptWoken(_, _) => AcceptKeeps(s, a.call, a.ok);
      }
    }
  }

  lemma {:induction false} RunKeeps(s: State, actions: seq<Action>)
    requires Invariant(s) && Possible(s, actions)
    ensures Invariant(After(s, actions))
    decreases actions
  {
    if actions != [] {
      NextKeeps(s, actions[0]);
      RunKeeps(Next(s, actions[0]), actions[1..]);
    }
  }

  // What callers see, in every interleaving.

  /** s is what some interleaving of calls leads to. */
  predicate Reached(actions: seq<Action>, s: State)
  {
    Possible(INITIAL, actions) && s == After(INITIAL, actions)
  }

  /** An issued handle nobody tried to close before it was issued is listening or closed. */
  lemma {:induction false} IssuedIsKnown(actions: seq<Action>, s: State, h: nat)
    requires Reached(actions, s) && Proper(s, h)
    ensures h in s.listeners || h in s.closed
  {
    RunKeeps(INITIAL, actions);
  }

  /**
   * An accept on such a handle never calls it invalid. One begun after the close was
   * marked answers that the listener was shut down, and no other accept does so unless
   * the handle is closed.
   */
  lemma {:induction false} AcceptAnswers(actions: seq<Action>, s: State, call: nat)
    requires Reached(actions, s) && call in s.calls && s.calls[call].AcceptDone?
    requires s.calls[call].asked.given && Proper(s, s.calls[call].asked.handle)
    ensures s.calls[call].answer != InvalidHandle
    ensures s.calls[call].asked.late ==> s.calls[call].answer == Shutdown
    ensures s.calls[call].answer == Shutdown ==> s.calls[call].asked.handle in s.closed
  {
    RunKeeps(INITIAL, actions);
    assert Sane(s, s.calls[call]);
  }

  // What the operating system answered to an accept call.

  /** The call asks the operating system in its next step: to prepare the socket, or to wait on it. */
  predicate Asks(s: State, call: nat)
  {
    && call in s.calls
    && (s.calls[call].AcceptWaiting? || (s.calls[call].AcceptUnclosed? && s.calls[call].asked.handle in s.listeners))
  }

  /** The operating system's answers to one call, over a run. */
  function Told(s: State, actions: seq<Action>, call: nat): seq<bool>
    requires Possible(s, actions)
    decreases actions
  {
    if actions == [] then []
    else
      var a := actions[0];
      (if a.Advance? && a.call == call && Asks(s, call) then [a.ok] else []) + Told(Next(s, a), actions[1..], call)
  }

  /** What a call was told fits where it stands: it ends with a connection after two good answers only. */
  predicate Fits(pc: Pc, told: seq<bool>)
  {
    match pc
    case AcceptBegun(_) => told == []
    case AcceptUnclosed(_) => told == []
    case AcceptMissing(_) => told == []
    case AcceptWaiting(_) => told == [true]
    case AcceptWoken(_, connected) => told == [true, connected]
    case AcceptDone(_, answer) =>
      match answer {
        case Connection => told == [true, true]
        case IoError => told == [false] || told == [true, false]
        case InvalidHandle => told == []
        case Shutdown => told == [] || |told| == 2
      }
    case _ => true
  }

  predicate CallFits(s: State, call: nat, told: seq<bool>)
  {
    if call in s.calls then Fits(s.calls[call], told) else told == []
  }

  lemma {:induction false} StepFits(s: State, a: Action, call: nat, told: seq<bool>)
    requires Enabled(s, a) && CallFits(s, call, told)
    ensures CallFits(Next(s, a), call, told + if a.Advance? && a.call == call && Asks(s, call) then [a.ok] else [])
  {
    assert told + [] == told;
    if a.Advance? && a.call == call {
      assert [true] + [a.ok] == [true, a.ok] && [] + [a.ok] == [a.ok];
    }
  }

  lemma {:induction false} RunFits(s: State, actions: seq<Action>, call: nat, told: seq<bool>)
    requires Possible(s, actions) && CallFits(s, call, told)
    ensures CallFits(After(s, actions), call, told + Told(s, actions, call))
    decreases actions
  {
    if actions == [] {
      assert told + [] == told;
    } else {
      var a := actions[0];
      var now := if a.Advance? && a.call == call && Asks(s, call) then [a.ok] else [];
      StepFits(s, a, call, told);
      RunFits(Next(s, a), actions[1..], call, told + now);
      Regroup(told, now, Told(Next(s, a), actions[1..], call));
    }
  }

  /**
   * In every interleaving, an accept call on such a handle that is not closed has answered
   * a connection if and only if the operating system answered well both times, and an
   * error if and only if one of its answers was bad.
   */
  lemma {:induction false} AnsweredAsTold(actions: seq<Action>, s: State, call: nat, told: seq<bool>)
    requires Reached(actions, s) && call in s.calls && s.calls[call].AcceptDone? && told == Told(INITIAL, actions, call)
    ensures s.calls[call].answer == Connection ==> told == [true, true]
    ensures s.calls[call].answer == IoError ==> told == [false] || told == [true, false]
    ensures s.calls[call].asked.given && Proper(s, s.calls[call].asked.handle) && s.calls[call].asked.handle !in s.closed ==>
              && (told == [true, true] <==> s.calls[call].answer == Connection)
              && (false in told <==> s.calls[call].answer == IoError)
  {
    RunFits(INITIAL, actions, call, []);
    assert [] + told == told;
    if s.calls[call].asked.given && Proper(s, s.calls[call].asked.handle) { AcceptAnswers(actions, s, call); }
  }

  /** An accept call on an open listener, run without interruption. */
  function Alone(call: nat, h: nat, prepared: bool, connected: bool): seq<Action>
  {
    [Accept(call, h), Advance(call, true), Advance(call, prepared)]
    + if prepared then [Advance(call, connected), Advance(call, true)] else []
  }

  /** It ends with a connection when the operating system answers well, and with an error otherwise. */
  lemma {:induction false} AcceptAlone(s: State, call: nat, h: nat, prepared: bool, connected: bool)
    requires call !in s.calls && h in s.listeners && h !in s.closed
    ensures Possible(s, Alone(call, h, prepared, connected))
    ensures var t := After(s, Alone(call, h, prepared, connected));
            t == Move(s, call, AcceptDone(Asked(h, h in s.issued, false), if prepared && connected then Connection else IoError))
  {
    var q := Asked(h, h in s.issued, false);
    var actions := Alone(call, h, prepared, connected);
    var s1 := Move(s, call, AcceptBegun(q));
    var s2 := Move(s, call, AcceptUnclosed(q));
    var s3 := Move(s, call, if prepared then AcceptWaiting(q) else AcceptDone(q, IoError));
    assert Next(s, Accept(call, h)) == s1 && Moves(s, call, s1.calls[call], s2.calls[call]);
    assert Next(s1, Advance(call, true)) == s2 && Moves(s, call, s2.calls[call], s3.calls[call]);
    assert Next(s2, Advance(call, prepared)) == s3;
    if prepared {
      var s4 := Move(s, call, AcceptWoken(q, connected));
      var s5 := Move(s, call, AcceptDone(q, if connected then Connection else IoError));
      assert Moves(s, call, s3.calls[call], s4.calls[call]) && Next(s3, Advance(call, connected)) == s4;
      assert Moves(s, call, s4.calls[call], s5.calls[call]) && Next(s4, Advance(call, true)) == s5;
      OneAction(s4, Advance(call, true), [Advance(call, true)]);
      FirstAction(s3, Advance(call, connected), [Advance(call, true)], s4);
      FirstAction(s2, Advance(call, prepared), [Advance(call, connected), Advance(call, true)], s3);
    } else {
      OneAction(s2, Advance(call, prepared), [Advance(call, prepared)]);
    }
    FirstAction(s1, Advance(call, true), actions[2..], s2);
    FirstAction(s, Accept(call, h), actions[1..], s1);
  }

  /** Moving a call twice is moving it once. */
  predicate Moves(s: State, call: nat, pc: Pc, next: Pc)
  {
    Move(Move(s, call, pc), call, next) == Move(s, call, next)
  }

  lemma {:induction false} FirstAction(s: State, a: Action, later: seq<Action>, t: State)
    requires Enabled(s, a) && Next(s, a) == t && Possible(t, later)
    ensures Possible(s, [a] + later) && After(s, [a] + later) == After(t, later)
  {
    assert ([a] + later)[0] == a && ([a] + later)[1..] == later;
  }

  /** A finished close leaves such a handle marked and out of the listeners. */
  lemma {:induction false} CloseIsFinal(actions: seq<Action>, s: State, call: nat)
    requires Reached(actions, s) && call in s.calls && s.calls[call].CloseDone?
    requires Proper(s, s.calls[call].handle)
    ensures s.calls[call].handle in s.closed && s.calls[call].handle !in s.listeners
  {
    RunKeeps(INITIAL, actions);
    assert Sane(s, s.calls[call]);
  }

  /** No handle is given to two listen calls. */
  lemma {:induction false} HandlesDiffer(actions: seq<Action>, s: State, a: nat, b: nat)
    requires Reached(actions, s) && a in s.calls && b in s.calls && a != b
    requires s.calls[a].ListenIssued? && s.calls[b].ListenIssued?
    ensures s.calls[a].handle != s.calls[b].handle
  {
    RunKeeps(INITIAL, actions);
    assert Listening(s.calls[a], s.calls[a].handle);
  }

  /** Callers close only handles they were given. */
  predicate Polite(s: State, actions: seq<Action>)
    requires Possible(s, actions)
    decreases actions
  {
    actions == [] || ((actions[0].Close? ==> actions[0].handle in s.issued) && Polite(Next(s, actions[0]), actions[1..]))
  }

  lemma {:induction false} PoliteNeverEarly(s: State, actions: seq<Action>)
    requires Possible(s, actions) && Polite(s, actions)
    ensures After(s, actions).early == s.early
    decreases actions
  {
    if actions != [] {
      PoliteNeverEarly(Next(s, actions[0]), actions[1..]);
    }
  }

  /** With polite callers every issued handle is listening or closed, whatever the interleaving. */
  lemma {:induction false} PoliteCallers(actions: seq<Action>, s: State, h: nat)
    requires Reached(actions, s) && Polite(INITIAL, actions) && h in s.issued
    ensures Proper(s, h) && (h in s.listeners || h in s.closed)
  {
    PoliteNeverEarly(INITIAL, actions);
    IssuedIsKnown(actions, s, h);
  }

  // Exactly when an issued handle can be lost.

  /** Issued, but neither listening nor closed. */
  predicate Lost(s: State, h: nat) { h in s.issued && h !in s.listeners && h !in s.closed }

  /** A close has marked the handle and will still remove its listener. */
  ghost predicate Removing(s: State, h: nat)
  {
    exists c :: c in s.calls && s.calls[c] == CloseMarked(h)
  }

  /** The mark of such a close is gone: the handle was issued after it. */
  ghost predicate Endangered(s: State, h: nat) { h in s.issued && h !in s.closed && Removing(s, h) }

  ghost predicate CanBeLost(s: State, h: nat)
  {
    exists actions :: Possible(s, actions) && Lost(After(s, actions), h)
  }

  lemma {:induction false} IssueIsOfOthers(s: State, c: nat, h: nat)
    requires Invariant(s) && c in s.calls && h in s.issued
    ensures s.calls[c] != ListenInserted(h) && s.calls[c] != ListenNumbered(h)
  {
    assert Sane(s, s.calls[c]);
  }

  /** A handle that is neither lost nor endangered stays so. */
  lemma {:induction false} SafeStays(s: State, a: Action, h: nat)
    requires Invariant(s) && Enabled(s, a) && h in s.issued && !Lost(s, h) && !Endangered(s, h)
    ensures h in Next(s, a).issued && !Lost(Next(s, a), h) && !Endangered(Next(s, a), h)
  {
    var t := Next(s, a);
    if a.Advance? { IssueIsOfOthers(s, a.call, h); }
    assert h in s.closed ==> h in t.closed;
    if h !in t.closed {
      forall c | c in t.calls ensures t.calls[c] != CloseMarked(h) {
        assert c != a.call ==> c in s.calls && s.calls[c] == t.calls[c];
      }
    }
  }

  lemma {:induction false} SafeForever(s: State, actions: seq<Action>, h: nat)
    requires Invariant(s) && Possible(s, actions) && h in s.issued && !Lost(s, h) && !Endangered(s, h)
    ensures !Lost(After(s, actions), h)
    decreases actions
  {
    if actions != [] {
      SafeStays(s, actions[0], h);
      NextKeeps(s, actions[0]);
      SafeForever(Next(s, actions[0]), actions[1..], h);
    }
  }

  lemma {:induction false} RemovalLoses(s: State, c: nat, h: nat)
    requires h in s.issued && h !in s.closed && c in s.calls && s.calls[c] == CloseMarked(h)
    ensures Enabled(s, Advance(c, true)) && Lost(Next(s, Advance(c, true)), h)
  {
  }

  lemma {:induction false} OneAction(s: State, a: Action, actions: seq<Action>)
    requires Enabled(s, a) && actions == [a]
    ensures Possible(s, actions) && After(s, actions) == Next(s, a)
  {
    assert actions[0] == a && actions[1..] == [];
    assert Possible(Next(s, a), []) && After(Next(s, a), []) == Next(s, a);
  }

  /** The close that endangers a handle needs one more step to lose it. */
  lemma {:induction false} EndangeredIsLost(s: State, h: nat)
    requires Endangered(s, h)
    ensures CanBeLost(s, h)
  {
    var c :| c in s.calls && s.calls[c] == CloseMarked(h);
    var a := Advance(c, true);
    RemovalLoses(s, c, h);
    OneAction(s, a, [a]);
    assert Lost(After(s, [a]), h);
  }

  /**
   * In every reached state an issued handle can still be lost exactly when it is lost
   * already, or when it is unmarked while a close that marked it has yet to remove it.
   */
  lemma {:induction false} LossExactly(actions: seq<Action>, s: State, h: nat)
    requires Reached(actions, s) && h in s.issued
    ensures CanBeLost(s, h) <==> Lost(s, h) || Endangered(s, h)
  {
    RunKeeps(INITIAL, actions);
    if Lost(s, h) {
      assert Possible(s, []) && After(s, []) == s;
    } else if Endangered(s, h) {
      EndangeredIsLost(s, h);
    } else {
      forall more | Possible(s, more) ensures !Lost(After(s, more), h) {
        SafeForever(s, more, h);
      }
    }
  }

  // Closing a handle before it is issued.

  lemma {:induction false} Joined(s: State, a: seq<Action>, b: seq<Action>)
    requires Possible(s, a) && Possible(After(s, a), b)
    ensures Possible(s, a + b) && After(s, a + b) == After(After(s, a), b)
    decreases a
  {
    if a == [] {
      assert a + b == b;
    } else {
      assert (a + b)[1..] == a[1..] + b;
      Joined(Next(s, a[0]), a[1..], b);
    }
  }

  /** The run of a single call that is already under way. */
  lemma {:induction false} Two(s: State, a: Action, b: Action)
    requires Enabled(s, a) && Enabled(Next(s, a), b)
    ensures Possible(s, [a, b]) && After(s, [a, b]) == Next(Next(s, a), b)
  {
    assert [a, b][1..] == [b] && [b][1..] == [];
    assert After(Next(Next(s, a), b), []) == Next(Next(s, a), b);
    assert After(Next(s, a), [b]) == Next(Next(s, a), b);
  }

  const LISTENED := State({1}, {}, 2, map[0 := ListenInserted(1)], {}, {})
  const LOST := State({}, {}, 2, map[0 := ListenIssued(1), 1 := CloseDone(1)], {1}, {1})

  lemma {:induction false} ListenHalfway() returns (actions: seq<Action>)
    ensures Possible(INITIAL, actions) && After(INITIAL, actions) == LISTENED
  {
    Two(INITIAL, Listen(0), Advance(0, true));
    var s := After(INITIAL, [Listen(0), Advance(0, true)]);
    assert s == State({}, {}, 2, map[0 := ListenNumbered(1)], {}, {});
    assert Next(s, Advance(0, true)) == LISTENED;
    actions := [Listen(0), Advance(0, true)] + [Advance(0, true)];
    assert [Advance(0, true)][1..] == [];
    assert Possible(s, [Advance(0, true)]) && After(s, [Advance(0, true)]) == LISTENED;
    Joined(INITIAL, [Listen(0), Advance(0, true)], [Advance(0, true)]);
  }

  lemma {:induction false} CloseInBetween() returns (actions: seq<Action>)
    ensures Possible(LISTENED, actions) && After(LISTENED, actions) == LOST
  {
    Two(LISTENED, Close(1, 1), Advance(1, true));
    var s := After(LISTENED, [Close(1, 1), Advance(1, true)]);
    assert s == State({1}, {1}, 2, map[0 := ListenInserted(1), 1 := CloseMarked(1)], {}, {1});
    Two(s, Advance(1, true), Advance(0, true));
    assert After(s, [Advance(1, true), Advance(0, true)]) == LOST;
    actions := [Close(1, 1), Advance(1, true)] + [Advance(1, true), Advance(0, true)];
    Joined(LISTENED, [Close(1, 1), Advance(1, true)], [Advance(1, true), Advance(0, true)]);
  }

  lemma {:induction false} AcceptFails() returns (actions: seq<Action>)
    ensures Possible(LOST, actions)
    ensures After(LOST, actions) == LOST.(calls := LOST.calls[2 := AcceptDone(Asked(1, true, false), InvalidHandle)])
  {
    Two(LOST, Accept(2, 1), Advance(2, true));
    var s := After(LOST, [Accept(2, 1), Advance(2, true)]);
    assert s == LOST.(calls := LOST.calls[2 := AcceptUnclosed(Asked(1, true, false))]);
    Two(s, Advance(2, true), Advance(2, true));
    actions := [Accept(2, 1), Advance(2, true)] + [Advance(2, true), Advance(2, true)];
    Joined(LOST, [Accept(2, 1), Advance(2, true)], [Advance(2, true), Advance(2, true)]);
  }

  /**
   * A close that guesses a handle before it is issued can leave it neither listening
   * nor closed: an accept on the issued handle then calls it invalid.
   */
  lemma {:induction false} GuessedClose() returns (actions: seq<Action>, s: State)
    ensures Reached(actions, s) && s.early == {1}
    ensures 1 in s.issued && 1 !in s.listeners && 1 !in s.closed
    ensures 2 in s.calls && s.calls[2] == AcceptDone(Asked(1, true, false), InvalidHandle)
  {
    var listen := ListenHalfway();
    var close := CloseInBetween();
    var accept := AcceptFails();
    Joined(LISTENED, close, accept);
    Joined(INITIAL, listen, close + accept);
    actions := listen + (close + accept);
    s := After(INITIAL, actions);
  }
}
