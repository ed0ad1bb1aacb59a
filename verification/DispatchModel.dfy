/** What dispatch promises: a finite map from addresses to functions, and the
    call depth counter, over programs that register, call, leave and trap. */
module DispatchModel {
  import opened Words

  const DEPTH_MAX := 20000
  const TRAPS_MAX := 32

  /** What a registered function does, as far as dispatch is concerned. */
  datatype Act =
    | Register(addr: Word, fn: nat)
    | Call(addr: Word)
    | Leave
    | Trap(body: seq<Act>)        // ngage_run around more acts; none run when too many are active

  /** What each call of a function does: its acts, by the number of calls that ran
      before it. A function may act differently every time it is called. */
  type Bodies = (nat, nat) -> seq<Act>

  datatype Event = Registered(addr: Word, fn: nat) | Ran(addr: Word, fn: nat) | Missing(addr: Word)

  /** The map, the depth counter, the frames that are live or were discarded by a
      caught leave, the active traps, the calls that ran a function, and what happened
      so far. dup records that an address was registered twice. */
  datatype State = State(
    table: map<Word, nat>,
    dup: bool,
    depth: nat,
    live: nat,
    lost: nat,
    traps: nat,
    calls: nat,
    log: seq<Event>)

  datatype Outcome = Normal | Left | Aborted

  datatype Ended = Ended(s: State, out: Outcome)

  /** Calls that still fit below the depth at which dispatch aborts. */
  function Room(depth: nat): nat {
    if depth > DEPTH_MAX then 0 else DEPTH_MAX + 1 - depth
  }

  function DoRegister(s: State, addr: Word, fn: nat): State {
    s.(table := s.table[addr := fn], dup := s.dup || addr in s.table, log := s.log + [Registered(addr, fn)])
  }

  /** A frame for a call that found its function. */
  function Enter(s: State, addr: Word, fn: nat): State {
    s.(depth := s.depth + 1, live := s.live + 1, calls := s.calls + 1, log := s.log + [Ran(addr, fn)])
  }

  /** The frame is gone again; not reached when the callee leaves. */
  function Exit(s: State): State
    requires s.depth > 0
  {
    s.(depth := s.depth - 1, live := if s.live > 0 then s.live - 1 else 0)
  }

  /** `ngage_call` on the map. A leave out of the callee skips the decrement. */
  function DoCall(bodies: Bodies, addr: Word, s: State): (r: Ended)
    ensures r.s.depth >= s.depth && (s.dup ==> r.s.dup)
    decreases Room(s.depth), 0
  {
    if s.depth + 1 > DEPTH_MAX then Ended(s.(depth := s.depth + 1), Aborted)
    else if addr in s.table then
      var fn := s.table[addr];
      var r := DoActs(bodies, bodies(fn, s.calls), Enter(s, addr, fn));
      if r.out.Normal? then Ended(Exit(r.s), Normal) else r
    else Ended(s.(log := s.log + [Missing(addr)]), Normal)
  }

  function DoActs(bodies: Bodies, acts: seq<Act>, s: State): (r: Ended)
    ensures r.s.depth >= s.depth && (s.dup ==> r.s.dup)
    decreases Room(s.depth), 1, acts
  {
    if acts == [] then Ended(s, Normal)
    else
      var r := DoAct(bodies, acts[0], s);
      if r.out.Normal? then DoActs(bodies, acts[1..], r.s) else r
  }

  function DoAct(bodies: Bodies, act: Act, s: State): (r: Ended)
    ensures r.s.depth >= s.depth && (s.dup ==> r.s.dup)
    decreases Room(s.depth), 1, act
  {
    match act
    case Register(addr, fn) => Ended(DoRegister(s, addr, fn), Normal)
    case Call(addr) => DoCall(bodies, addr, s)
    case Leave => if s.traps == 0 then Ended(s, Normal) else Ended(s, Left)
    case Trap(body) =>
      if s.traps >= TRAPS_MAX then Ended(s, Normal) else
      var r := DoActs(bodies, body, s.(traps := s.traps + 1));
      if r.out.Aborted? then r
      else
        var lost := if r.out.Left? && r.s.live >= s.live then r.s.live - s.live else 0;
        Ended(r.s.(traps := s.traps, live := r.s.live - lost, lost := r.s.lost + lost), Normal)
  }

  // ---- call-depth accounting ----

  /** The counter is the live frames plus the frames discarded by caught leaves. */
  predicate Counted(s: State) {
    s.depth == s.live + s.lost
  }

  predicate Accounted(s: State, r: Ended) {
    && (!r.out.Aborted? ==> Counted(r.s)) && r.s.lost >= s.lost && r.s.live >= s.live
    && (r.out.Normal? ==> r.s.live == s.live && r.s.traps == s.traps)
    && (r.out.Left? ==> s.traps > 0)
    && s.log <= r.s.log
  }

  /** In every run the counter equals live frames plus frames discarded by caught
      leaves, so a call that returns normally restores it exactly when no frame
      was discarded in between. */
  lemma {:induction false} CallAccounts(bodies: Bodies, addr: Word, s: State)
    requires Counted(s)
    ensures var r := DoCall(bodies, addr, s);
            && Accounted(s, r)
            && (r.out.Normal? ==> (r.s.depth == s.depth <==> r.s.lost == s.lost))
    decreases Room(s.depth), 0
  {
    if s.depth + 1 <= DEPTH_MAX && addr in s.table {
      var fn := s.table[addr];
      ActsAccount(bodies, bodies(fn, s.calls), Enter(s, addr, fn));
    }
  }

  lemma {:induction false} ActsAccount(bodies: Bodies, acts: seq<Act>, s: State)
    requires Counted(s)
    ensures Accounted(s, DoActs(bodies, acts, s))
    decreases Room(s.depth), 1, acts
  {
    if acts != [] {
      var r := DoAct(bodies, acts[0], s);
      ActAccounts(bodies, acts[0], s);
      if r.out.Normal? {
        ActsAccount(bodies, acts[1..], r.s);
      }
    }
  }

  lemma {:induction false} ActAccounts(bodies: Bodies, act: Act, s: State)
    requires Counted(s)
    ensures Accounted(s, DoAct(bodies, act, s))
    decreases Room(s.depth), 1, act
  {
    match act
    case Call(addr) => CallAccounts(bodies, addr, s);
    case Trap(body) => if s.traps < TRAPS_MAX { ActsAccount(bodies, body, s.(traps := s.traps + 1)); }
    case _ =>
  }

  // ---- what runs ----

  /** The functions registered in a log, by address. */
  function TableAfter(log: seq<Event>): map<Word, nat> {
    if log == [] then map[]
    else
      var before, e := TableAfter(log[..|log| - 1]), log[|log| - 1];
      if e.Registered? then before[e.addr := e.fn] else before
  }

  /** Each call in the log ran exactly the function registered for its address
      before that call, and was reported missing exactly when there was none. */
  predicate Truthful(log: seq<Event>) {
    log == [] ||
    (Truthful(log[..|log| - 1]) &&
     var before := TableAfter(log[..|log| - 1]);
     match log[|log| - 1]
     case Registered(_, _) => true
     case Ran(a, fn) => a in before && before[a] == fn
     case Missing(a) => a !in before)
  }

  predicate Recorded(s: State) {
    s.table == TableAfter(s.log) && Truthful(s.log)
  }

  lemma RecordNext(s: State, e: Event)
    requires Recorded(s)
    requires e.Ran? ==> e.addr in s.table && s.table[e.addr] == e.fn
    requires e.Missing? ==> e.addr !in s.table
    ensures Truthful(s.log + [e])
    ensures TableAfter(s.log + [e]) == if e.Registered? then s.table[e.addr := e.fn] else s.table
  {
    assert (s.log + [e])[..|s.log|] == s.log;
  }

  lemma RegisterRecords(s: State, addr: Word, fn: nat)
    ensures Recorded(s) ==> Recorded(DoRegister(s, addr, fn))
  {
    hide TableAfter, Truthful;
    if Recorded(s) { RecordNext(s, Registered(addr, fn)); }
  }

  /** Dispatch refines a finite map: in every interleaving of registrations and
      calls, a callee's included, each call ran exactly the registered function. */
  lemma {:induction false} CallsTruthful(bodies: Bodies, addr: Word, s: State)
    requires Recorded(s)
    ensures Recorded(DoCall(bodies, addr, s).s)
    decreases Room(s.depth), 0
  {
    hide Recorded;
    assert s.table == TableAfter(s.log) && Truthful(s.log) by { RecordedIs(s); }
    if s.depth + 1 > DEPTH_MAX {
      RecordedIs(s.(depth := s.depth + 1));
    } else if addr in s.table {
      var fn := s.table[addr];
      var s1 := Enter(s, addr, fn);
      RecordNext(s, Ran(addr, fn));
      RecordedIs(s1);
      ActsTruthful(bodies, bodies(fn, s.calls), s1);
      var r := DoActs(bodies, bodies(fn, s.calls), s1);
      RecordedIs(r.s);
      RecordedIs(DoCall(bodies, addr, s).s);
    } else {
      RecordNext(s, Missing(addr));
      RecordedIs(s.(log := s.log + [Missing(addr)]));
    }
  }

  lemma RecordedIs(s: State)
    ensures Recorded(s) <==> s.table == TableAfter(s.log) && Truthful(s.log)
  {
  }

  lemma {:induction false} ActsTruthful(bodies: Bodies, acts: seq<Act>, s: State)
    requires Recorded(s)
    ensures Recorded(DoActs(bodies, acts, s).s)
    decreases Room(s.depth), 1, acts
  {
    hide Recorded;
    if acts != [] {
      ActTruthful(bodies, acts[0], s);
      if DoAct(bodies, acts[0], s).out.Normal? {
        ActsTruthful(bodies, acts[1..], DoAct(bodies, acts[0], s).s);
      }
    }
  }

  lemma {:induction false} ActTruthful(bodies: Bodies, act: Act, s: State)
    requires Recorded(s)
    ensures Recorded(DoAct(bodies, act, s).s)
    decreases Room(s.depth), 1, act
  {
    hide TableAfter, Truthful;
    match act
    case Register(addr, fn) => RegisterRecords(s, addr, fn);
    case Call(addr) => CallsTruthful(bodies, addr, s);
    case Trap(body) => if s.traps < TRAPS_MAX { ActsTruthful(bodies, body, s.(traps := s.traps + 1)); }
    case _ =>
  }

  /** With distinct addresses a registration lasts: what the map held before a call it holds after. */
  lemma {:induction false} CallKeepsTable(bodies: Bodies, addr: Word, s: State)
    requires !DoCall(bodies, addr, s).s.dup
    ensures Extends(s, DoCall(bodies, addr, s).s)
    decreases Room(s.depth), 0
  {
    if s.depth + 1 <= DEPTH_MAX && addr in s.table {
      var fn := s.table[addr];
      ActsKeepTable(bodies, bodies(fn, s.calls), Enter(s, addr, fn));
    }
  }

  predicate Extends(s: State, r: State) {
    forall a :: a in s.table ==> a in r.table && r.table[a] == s.table[a]
  }

  lemma {:induction false} ActsKeepTable(bodies: Bodies, acts: seq<Act>, s: State)
    requires !DoActs(bodies, acts, s).s.dup
    ensures Extends(s, DoActs(bodies, acts, s).s)
    decreases Room(s.depth), 1, acts
  {
    if acts != [] {
      ActKeepsTable(bodies, acts[0], s);
      if DoAct(bodies, acts[0], s).out.Normal? {
        ActsKeepTable(bodies, acts[1..], DoAct(bodies, acts[0], s).s);
      }
    }
  }

  lemma {:induction false} ActKeepsTable(bodies: Bodies, act: Act, s: State)
    requires !DoAct(bodies, act, s).s.dup
    ensures Extends(s, DoAct(bodies, act, s).s)
    decreases Room(s.depth), 1, act
  {
    match act
    case Call(addr) => CallKeepsTable(bodies, addr, s);
    case Trap(body) => if s.traps < TRAPS_MAX { ActsKeepTable(bodies, body, s.(traps := s.traps + 1)); }
    case _ =>
  }

  /** A function that registers another, calls itself and then the other: the inner call
      of itself returns at once, and the counter is back where it was. */
  lemma RecursionReturns(a: Word, b: Word)
    requires a != b
    ensures var bodies: Bodies := (fn, n) => if n == 0 then [Register(b, 1), Call(a), Call(b)] else [];
            var s := State(map[a := 0], false, 0, 0, 0, 0, 0, []);
            DoCall(bodies, a, s) ==
            Ended(State(map[a := 0, b := 1], false, 0, 0, 0, 0, 3,
                        [Ran(a, 0), Registered(b, 1), Ran(a, 0), Ran(b, 1)]), Normal)
  {
    var bodies: Bodies := (fn, n) => if n == 0 then [Register(b, 1), Call(a), Call(b)] else [];
    var s0 := State(map[a := 0], false, 0, 0, 0, 0, 0, []);
    var s1 := Enter(s0, a, 0);
    var s2 := DoRegister(s1, b, 1);
    ReturnsAtOnce(bodies, a, s2);
    var s3 := Exit(Enter(s2, a, 0));
    ReturnsAtOnce(bodies, b, s3);
    var s4 := Exit(Enter(s3, b, 1));
    assert DoActs(bodies, [], s4) == Ended(s4, Normal);
    assert DoActs(bodies, [Call(b)], s3) == Ended(s4, Normal);
    assert DoActs(bodies, [Call(a), Call(b)], s2) == Ended(s4, Normal);
    assert [Register(b, 1), Call(a), Call(b)][1..] == [Call(a), Call(b)];
    assert DoActs(bodies, bodies(0, 0), s1) == Ended(s4, Normal);
  }

  lemma ReturnsAtOnce(bodies: Bodies, a: Word, s: State)
    requires a in s.table && s.depth < DEPTH_MAX && bodies(s.table[a], s.calls) == []
    ensures DoCall(bodies, a, s) == Ended(Exit(Enter(s, a, s.table[a])), Normal)
  {
  }

  // ---- limits and leaves ----

  /** The 20001st nested call aborts; one less deep runs, or finds nothing registered. */
  lemma DepthLimit(bodies: Bodies, addr: Word, s: State)
    ensures s.depth >= 20000 ==> DoCall(bodies, addr, s) == Ended(s.(depth := s.depth + 1), Aborted)
    ensures s.depth < 20000 && addr !in s.table ==>
              DoCall(bodies, addr, s) == Ended(s.(log := s.log + [Missing(addr)]), Normal)
    ensures s.depth < 20000 && addr in s.table && bodies(s.table[addr], s.calls) == [] ==>
              DoCall(bodies, addr, s)
              == Ended(s.(calls := s.calls + 1, log := s.log + [Ran(addr, s.table[addr])]), Normal)
  {
    if s.depth < 20000 && addr in s.table && bodies(s.table[addr], s.calls) == [] {
      ReturnsAtOnce(bodies, addr, s);
    }
  }

  /** A leave ends the acts after it and is caught by the innermost of at most 32 traps,
      where the frames entered since are lost; without a trap it does nothing. */
  lemma LeaveLaws(bodies: Bodies, acts: seq<Act>, s: State)
    ensures s.traps > 0 ==> DoActs(bodies, [Leave] + acts, s) == Ended(s, Left)
    ensures s.traps == 0 ==> DoActs(bodies, [Leave] + acts, s) == DoActs(bodies, acts, s)
    ensures s.traps < 32 ==> DoAct(bodies, Trap([Leave]), s) == Ended(s, Normal)
    ensures s.traps >= 32 ==> DoAct(bodies, Trap(acts), s) == Ended(s, Normal)
  {
    assert ([Leave] + acts)[1..] == acts;
    var inner := s.(traps := s.traps + 1);
    assert DoAct(bodies, Leave, inner) == Ended(inner, Left);
    assert DoActs(bodies, [Leave], inner) == Ended(inner, Left);
  }

  /** A call that leaves under a caught trap loses exactly its frame. */
  lemma LeaveLosesFrame(bodies: Bodies, addr: Word, s: State)
    requires s.depth < 20000 && s.traps < 32 && addr in s.table && bodies(s.table[addr], s.calls) == [Leave]
    ensures DoAct(bodies, Trap([Call(addr)]), s) ==
            Ended(s.(depth := s.depth + 1, lost := s.lost + 1, calls := s.calls + 1,
                     log := s.log + [Ran(addr, s.table[addr])]), Normal)
  {
    var inner := s.(traps := s.traps + 1);
    var entered := Enter(inner, addr, s.table[addr]);
    assert DoAct(bodies, Leave, entered) == Ended(entered, Left);
    assert DoActs(bodies, [Leave], entered) == Ended(entered, Left);
    assert DoCall(bodies, addr, inner) == Ended(entered, Left);
    assert DoAct(bodies, Call(addr), inner) == Ended(entered, Left);
    assert DoActs(bodies, [Call(addr)], inner) == Ended(entered, Left);
  }
}
