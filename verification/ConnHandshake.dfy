/**
  `withConn` of upg/base.go for any number of concurrent calls: the caller that runs a function on a
  connection, the goroutine that cancels its request when the context ends, and the pool between them.
  Every step of a call is one atomic action; the channel of a call is unbuffered, so that a send and a
  receive are one common step of caller and canceller.
*/
module ConnHandshake {

  /** How the function ended: with a usable connection, a bad one, or a bad one in an aborted transaction. */
  datatype Outcome = Usable | Bad | Aborted

  datatype Caller =
    | Start
    | Init(c: nat)                    // `getConn` has a connection it must initialize
    | Ready(c: nat)                   // before the goroutine is started
    | Running(c: nat)                 // inside the function
    | Deferred(c: nat, end: Outcome)  // at the select of the deferred function
    | Releasing(c: nat, end: Outcome) // in `releaseConn`
    | Requesting(c: nat)              // in the `cancelRequest` of `releaseConn`
    | Removing(c: nat)
    | Done

  datatype Canceller = Absent | Selecting | Cancelling | Signalling | Exited

  datatype Call = Call(cancellable: bool, ended: bool, caller: Caller, canceller: Canceller)

  /** What a call does to a connection. */
  datatype Event = Failed | Got(c: nat) | Put(c: nat) | Removed(c: nat) | CancelStart(c: nat) | CancelEnd(c: nat)

  datatype Entry = Entry(call: nat, event: Event)

  /** Connections are numbered as the pool makes them. */
  datatype State = State(calls: seq<Call>, idle: set<nat>, removed: set<nat>, inited: set<nat>, made: nat,
      log: seq<Entry>)

  datatype Action =
    | Get(i: nat, c: nat) | GetFails(i: nat) | InitEnds(i: nat, ok: bool) | Spawn(i: nat) | ContextEnds(i: nat)
    | Return(i: nat, end: Outcome) | TakeCancel(i: nat) | CancelReturns(i: nat) | SignalFn(i: nat)
    | SignalCancel(i: nat) | Release(i: nat) | RequestReturns(i: nat) | Remove(i: nat)

  // ---------- steps ----------

  predicate Enabled(st: State, a: Action) {
    a.i < |st.calls| &&
    var k := st.calls[a.i];
    match a
    case Get(_, c) => k.caller.Start? && (c in st.idle || c == st.made)
    case GetFails(_) => k.caller.Start?
    case InitEnds(_, _) => k.caller.Init?
    case Spawn(_) => k.caller.Ready?
    case ContextEnds(_) => k.cancellable && !k.ended
    case Return(_, _) => k.caller.Running?
    case TakeCancel(_) => k.canceller.Selecting? && k.ended
    case CancelReturns(_) => k.canceller.Cancelling?
    case SignalFn(_) => k.caller.Deferred? && (k.canceller.Selecting? || !k.cancellable)
    case SignalCancel(_) => k.caller.Deferred? && k.canceller.Signalling?
    case Release(_) => k.caller.Releasing?
    case RequestReturns(_) => k.caller.Requesting?
    case Remove(_) => k.caller.Removing?
  }

  function Write(st: State, i: nat, k: Call, event: Event): State
    requires i < |st.calls|
  {
    st.(calls := st.calls[i := k], log := st.log + [Entry(i, event)])
  }

  function Apply(st: State, a: Action): State
    requires Enabled(st, a)
  {
    var i, k := a.i, st.calls[a.i];
    match a
    case Get(_, c) =>
      var got := Write(st, i, k.(caller := if c in st.inited then Ready(c) else Init(c)), Got(c));
      got.(idle := st.idle - {c}, made := if c == st.made then c + 1 else st.made)
    case GetFails(_) => Write(st, i, k.(caller := Done), Failed)
    case InitEnds(_, ok) =>
      var c := k.caller.c;
      var st1 := st.(inited := st.inited + {c});
      if ok then st1.(calls := st.calls[i := k.(caller := Ready(c))])
      else Write(st1, i, k.(caller := Done), Removed(c)).(removed := st.removed + {c})
    case Spawn(_) =>
      var canceller := if k.cancellable then Selecting else Absent;
      st.(calls := st.calls[i := k.(caller := Running(k.caller.c), canceller := canceller)])
    case ContextEnds(_) => st.(calls := st.calls[i := k.(ended := true)])
    case Return(_, end) => st.(calls := st.calls[i := k.(caller := Deferred(k.caller.c, end))])
    case TakeCancel(_) => Write(st, i, k.(canceller := Cancelling), CancelStart(Conn(k)))
    case CancelReturns(_) => Write(st, i, k.(canceller := Signalling), CancelEnd(Conn(k)))
    case SignalFn(_) =>
      st.(calls := st.calls[i := k.(caller := Releasing(k.caller.c, k.caller.end),
                                    canceller := if k.cancellable then Exited else Absent)])
    case SignalCancel(_) => st.(calls := st.calls[i := k.(caller := Removing(k.caller.c), canceller := Exited)])
    case Release(_) =>
      (match k.caller.end
       case Usable => Write(st, i, k.(caller := Done), Put(k.caller.c)).(idle := st.idle + {k.caller.c})
       case Bad => Write(st, i, k.(caller := Requesting(k.caller.c)), CancelStart(k.caller.c))
       case Aborted => st.(calls := st.calls[i := k.(caller := Removing(k.caller.c))]))
    case RequestReturns(_) => Write(st, i, k.(caller := Removing(k.caller.c)), CancelEnd(k.caller.c))
    case Remove(_) => Write(st, i, k.(caller := Done), Removed(k.caller.c)).(removed := st.removed + {k.caller.c})
  }

  predicate Holds(k: Call) {
    !k.caller.Start? && !k.caller.Done?
  }

  /** The connection of a call. */
  function Conn(k: Call): nat {
    if Holds(k) then k.caller.c else 0
  }

  predicate IsRun(st: State, run: seq<Action>)
    decreases |run|
  {
    run == [] || (Enabled(st, run[0]) && IsRun(Apply(st, run[0]), run[1..]))
  }

  function After(st: State, run: seq<Action>): State
    requires IsRun(st, run)
    decreases |run|
  {
    if run == [] then st else After(Apply(st, run[0]), run[1..])
  }

  /** No call has begun; the pool may hold idle connections, initialised or not. */
  ghost predicate Fresh(st: State) {
    && (forall i :: 0 <= i < |st.calls| ==>
        st.calls[i].caller.Start? && st.calls[i].canceller.Absent? && (st.calls[i].ended ==> st.calls[i].cancellable))
    && st.removed == {} && st.log == [] && forall c :: c in st.idle <==> 0 <= c < st.made
  }

  // ---------- the history of one call ----------

  function Mine(log: seq<Entry>, i: nat): seq<Event> {
    if log == [] then []
    else Mine(log[..|log| - 1], i) + if log[|log| - 1].call == i then [log[|log| - 1].event] else []
  }

  /** The histories a finished call may have. */
  predicate Legal(h: seq<Event>) {
    || h == [Failed]
    || (|h| == 2 && h[0].Got? && (h[1] == Put(h[0].c) || h[1] == Removed(h[0].c)))
    || (|h| == 4 && h[0].Got? && h[1] == CancelStart(h[0].c) && h[2] == CancelEnd(h[0].c) && h[3] == Removed(h[0].c))
  }

  /** The history of a call, by where it stands. */
  predicate HistoryOk(k: Call, h: seq<Event>) {
    var c := Conn(k);
    match k.caller
    case Start => h == []
    case Init(_) => h == [Got(c)]
    case Ready(_) => h == [Got(c)]
    case Running(_) => h == Cancelled(k)
    case Deferred(_, _) => h == Cancelled(k)
    case Releasing(_, _) => h == [Got(c)]
    case Requesting(_) => h == [Got(c), CancelStart(c)]
    case Removing(_) => h == [Got(c)] || h == [Got(c), CancelStart(c), CancelEnd(c)]
    case Done => Legal(h)
  }

  /** While the function runs, only the canceller adds to the history. */
  function Cancelled(k: Call): seq<Event> {
    var c := Conn(k);
    match k.canceller
    case Cancelling => [Got(c), CancelStart(c)]
    case Signalling => [Got(c), CancelStart(c), CancelEnd(c)]
    case _ => [Got(c)]
  }

  /** Caller and canceller stand where the other expects them. */
  predicate Paired(k: Call) {
    && (k.ended ==> k.cancellable) && (Busy(k) ==> k.ended)
    && match k.caller
       case Running(_) => if k.cancellable then k.canceller.Selecting? || Busy(k) else k.canceller.Absent?
       case Deferred(_, _) => if k.cancellable then k.canceller.Selecting? || Busy(k) else k.canceller.Absent?
       case Start => k.canceller.Absent?
       case Init(_) => k.canceller.Absent?
       case Ready(_) => k.canceller.Absent?
       case _ => k.canceller.Absent? || k.canceller.Exited?
  }

  predicate Busy(k: Call) {
    k.canceller.Cancelling? || k.canceller.Signalling?
  }

  // ---------- connections ----------

  /** Every connection is idle, removed, or held by one call. */
  ghost predicate PoolOk(st: State) {
    && st.idle !! st.removed
    && (forall c :: c in st.idle || c in st.removed ==> c < st.made)
    && (forall i {:trigger st.calls[i]} :: 0 <= i < |st.calls| && Holds(st.calls[i]) ==>
          var c := Conn(st.calls[i]); c < st.made && c !in st.idle && c !in st.removed)
    && (forall i, j {:trigger st.calls[i], st.calls[j]} ::
          0 <= i < j < |st.calls| && Holds(st.calls[i]) && Holds(st.calls[j]) ==>
              Conn(st.calls[i]) != Conn(st.calls[j]))
  }

  /** No connection is lost. */
  predicate AllThere(st: State) {
    forall c :: 0 <= c < st.made ==> c in st.idle || c in st.removed || Held(st, c)
  }

  predicate Held(st: State, c: nat) {
    exists i :: 0 <= i < |st.calls| && Holds(st.calls[i]) && Conn(st.calls[i]) == c
  }

  predicate CallsOk(st: State) {
    forall i :: 0 <= i < |st.calls| ==> Paired(st.calls[i]) && HistoryOk(st.calls[i], Mine(st.log, i))
  }

  ghost predicate Inv(st: State) {
    PoolOk(st) && AllThere(st) && CallsOk(st)
  }

  // ---------- every step keeps the invariant ----------

  lemma CallKeeps(st: State, a: Action)
    requires Enabled(st, a) && CallsOk(st)
    ensures CallsOk(Apply(st, a))
  {
    hide CallsOk, Mine;
    var st', i := Apply(st, a), a.i;
    forall j | 0 <= j < |st'.calls|
      ensures Paired(st'.calls[j]) && HistoryOk(st'.calls[j], Mine(st'.log, j))
    {
      CallAt(st, j);
      MineMore(st, a, j);
      if j == i { OwnStep(st, a, Mine(st.log, i)); }
    }
    assert CallsOk(st') by { CallsAll(st'); }
  }

  lemma CallAt(st: State, j: nat)
    requires CallsOk(st) && j < |st.calls|
    ensures Paired(st.calls[j]) && HistoryOk(st.calls[j], Mine(st.log, j))
  {
  }

  lemma CallsAll(st: State)
    requires forall i :: 0 <= i < |st.calls| ==> Paired(st.calls[i]) && HistoryOk(st.calls[i], Mine(st.log, i))
    ensures CallsOk(st)
  {
  }

  /** The event an action writes, if any. */
  function Wrote(st: State, a: Action): seq<Event>
    requires Enabled(st, a)
  {
    var k := st.calls[a.i];
    match a
    case Get(_, c) => [Got(c)]
    case GetFails(_) => [Failed]
    case InitEnds(_, ok) => if ok then [] else [Removed(k.caller.c)]
    case TakeCancel(_) => [CancelStart(Conn(k))]
    case CancelReturns(_) => [CancelEnd(Conn(k))]
    case Release(_) =>
      (match k.caller.end
       case Usable => [Put(k.caller.c)]
       case Bad => [CancelStart(k.caller.c)]
       case Aborted => [])
    case RequestReturns(_) => [CancelEnd(k.caller.c)]
    case Remove(_) => [Removed(k.caller.c)]
    case _ => []
  }

  lemma MineMore(st: State, a: Action, j: nat)
    requires Enabled(st, a) && j < |st.calls|
    ensures var st' := Apply(st, a);
      && |st'.calls| == |st.calls| && (j != a.i ==> st'.calls[j] == st.calls[j])
      && Mine(st'.log, j) == Mine(st.log, j) + if j == a.i then Wrote(st, a) else []
  {
    hide Mine;
    var st' := Apply(st, a);
    if Wrote(st, a) == [] {
      assert st'.log == st.log;
    } else {
      assert st'.log == st.log + [Entry(a.i, Wrote(st, a)[0])];
      MineAppend(st.log, Entry(a.i, Wrote(st, a)[0]), j);
    }
  }

  lemma MineAppend(log: seq<Entry>, e: Entry, j: nat)
    ensures Mine(log + [e], j) == Mine(log, j) + if e.call == j then [e.event] else []
  {
    assert (log + [e])[..|log|] == log;
  }

  lemma OwnStep(st: State, a: Action, h: seq<Event>)
    requires Enabled(st, a) && Paired(st.calls[a.i]) && HistoryOk(st.calls[a.i], h)
    ensures var k := Apply(st, a).calls[a.i]; Paired(k) && HistoryOk(k, h + Wrote(st, a))
  {
  }

  /** What a step of call i does to the connections: nothing, take one from the pool, or give one back. */
  predicate Effect(st: State, st': State, i: nat) {
    && i < |st.calls| == |st'.calls| && (forall j :: 0 <= j < |st.calls| && j != i ==> st'.calls[j] == st.calls[j])
    && var k, k' := st.calls[i], st'.calls[i];
       var c := Conn(k);
       || (st'.idle == st.idle && st'.removed == st.removed && st'.made == st.made && Holds(k) == Holds(k') &&
           c == Conn(k'))
       || (!Holds(k) && Holds(k') && Takes(st, st', Conn(k')))
       || (Holds(k) && !Holds(k') && st'.made == st.made && Gives(st, st', c))
  }

  predicate Takes(st: State, st': State, c: nat) {
    && (c in st.idle || c == st.made) && st'.idle == st.idle - {c} && st'.removed == st.removed
    && st'.made == if c == st.made then c + 1 else st.made
  }

  predicate Gives(st: State, st': State, c: nat) {
    || (st'.idle == st.idle + {c} && st'.removed == st.removed)
    || (st'.idle == st.idle && st'.removed == st.removed + {c})
  }

  lemma StepEffect(st: State, a: Action)
    requires Enabled(st, a) && Paired(st.calls[a.i])
    ensures Effect(st, Apply(st, a), a.i)
  {
  }

  lemma PoolKeeps(st: State, st': State, i: nat)
    requires Effect(st, st', i) && PoolOk(st)
    ensures PoolOk(st')
  {
    hide Holds, Conn;
  }

  lemma NoneLost(st: State, st': State, i: nat)
    requires Effect(st, st', i) && AllThere(st)
    ensures AllThere(st')
  {
    hide Holds, Conn;
    forall c | 0 <= c < st'.made
      ensures c in st'.idle || c in st'.removed || Held(st', c)
    {
      if c < st.made && Held(st, c) {
        var j :| 0 <= j < |st.calls| && Holds(st.calls[j]) && Conn(st.calls[j]) == c;
        assert j != i ==> st'.calls[j] == st.calls[j];
        if Holds(st'.calls[j]) { assert Conn(st'.calls[j]) == c; }
      } else if Holds(st'.calls[i]) {
        assert Conn(st'.calls[i]) == c ==> Held(st', c);
      }
    }
  }

  lemma StepKeeps(st: State, a: Action)
    requires Inv(st) && Enabled(st, a)
    ensures Inv(Apply(st, a))
  {
    hide PoolOk, AllThere, Apply, Mine, Effect, Paired, HistoryOk;
    CallAt(st, a.i);
    StepEffect(st, a);
    PoolKeeps(st, Apply(st, a), a.i);
    NoneLost(st, Apply(st, a), a.i);
    CallKeeps(st, a);
  }

  lemma FreshIsOk(st: State)
    requires Fresh(st)
    ensures Inv(st)
  {
  }

  lemma {:induction false} RunKeeps(st: State, run: seq<Action>)
    requires Inv(st) && IsRun(st, run)
    ensures Inv(After(st, run)) && |After(st, run).calls| == |st.calls|
    decreases |run|
  {
    hide Inv, Apply;
    if run != [] {
      StepKeeps(st, run[0]);
      SameCalls(st, run[0]);
      RunKeeps(Apply(st, run[0]), run[1..]);
    }
  }

  lemma SameCalls(st: State, a: Action)
    requires Enabled(st, a)
    ensures |Apply(st, a).calls| == |st.calls|
  {
  }

  // ---------- what every run guarantees ----------

  lemma Reachable(st: State, run: seq<Action>)
    requires Fresh(st) && IsRun(st, run)
    ensures Inv(After(st, run))
  {
    FreshIsOk(st);
    RunKeeps(st, run);
  }

  /** A call that has returned either got no connection or gave the one it got back, once. */
  lemma GivenBackOnce(st: State, run: seq<Action>, i: nat)
    requires Fresh(st) && IsRun(st, run) && i < |After(st, run).calls| && After(st, run).calls[i].caller.Done?
    ensures var h := Mine(After(st, run).log, i);
      || h == [Failed]
      || (h != [] && h[0].Got? && (h[|h| - 1] == Put(h[0].c) || h[|h| - 1] == Removed(h[0].c))
          && forall j :: 0 < j < |h| - 1 ==> h[j].CancelStart? || h[j].CancelEnd?)
  {
    hide Mine, PoolOk, AllThere;
    Reachable(st, run);
    CallAt(After(st, run), i);
  }

  /**
    A connection whose request was cancelled is never put back, and is removed only when the cancel request has
    returned.
  */
  lemma CancelledIsRemoved(st: State, run: seq<Action>, i: nat, j: nat)
    requires Fresh(st) && IsRun(st, run) && i < |After(st, run).calls|
    requires var h := Mine(After(st, run).log, i); j < |h| && h[j].CancelStart?
    ensures var h := Mine(After(st, run).log, i);
      && (forall k :: 0 <= k < |h| ==> !h[k].Put?)
      && (forall k :: 0 <= k < |h| && h[k].Removed? ==> j + 1 < k && h[j + 1] == CancelEnd(h[j].c) && h[k].c == h[j].c)
  {
    hide Mine, PoolOk, AllThere;
    Reachable(st, run);
    CallAt(After(st, run), i);
  }

  /**
    A cancel request only ever meets the connection of its own call: it is not in the pool and no other call has it.
  */
  lemma CancelMeetsOwnConnection(st: State, run: seq<Action>, i: nat)
    requires Fresh(st) && IsRun(st, run) && i < |After(st, run).calls|
    requires var k := After(st, run).calls[i]; k.canceller.Cancelling? || k.caller.Requesting?
    ensures var end := After(st, run);
      var c := Conn(end.calls[i]);
      && Holds(end.calls[i]) && c !in end.idle && c !in end.removed
      && forall j :: 0 <= j < |end.calls| && j != i && Holds(end.calls[j]) ==> Conn(end.calls[j]) != c
  {
    hide Mine, AllThere, HistoryOk;
    Reachable(st, run);
    CallAt(After(st, run), i);
  }

  /** When all calls have returned, every connection is back in the pool or removed. */
  lemma AllReturned(st: State, run: seq<Action>)
    requires Fresh(st) && IsRun(st, run)
    requires forall i :: 0 <= i < |After(st, run).calls| ==> After(st, run).calls[i].caller.Done?
    ensures var end := After(st, run);
      end.idle !! end.removed && forall c :: 0 <= c < end.made <==> c in end.idle || c in end.removed
  {
    hide CallsOk;
    Reachable(st, run);
  }

  // ---------- what a call does to its connection, by what it did ----------

  predicate NotReturned(did: seq<Action>, i: nat) {
    forall end :: Return(i, end) !in did
  }

  /** The function of call i has returned, and this is how it ended. */
  predicate Returned(did: seq<Action>, i: nat, end: Outcome) {
    Return(i, end) in did && forall other :: Return(i, other) in did ==> other == end
  }

  /** Call i has a connection and has not yet come to the end of its function. */
  predicate Working(did: seq<Action>, i: nat, c: nat) {
    Took(did, i, c) && NotReturned(did, i) && SignalCancel(i) !in did && InitEnds(i, false) !in did
  }

  predicate Took(did: seq<Action>, i: nat, c: nat) {
    Get(i, c) in did && GetFails(i) !in did
  }

  predicate Ended(did: seq<Action>, i: nat, c: nat, end: Outcome) {
    Took(did, i, c) && Returned(did, i, end) && SignalCancel(i) !in did && InitEnds(i, false) !in did
  }

  predicate Signalled(did: seq<Action>, i: nat, c: nat) {
    Took(did, i, c) && SignalCancel(i) in did && InitEnds(i, false) !in did
  }

  /** The history of a call that has returned follows from how its function ended and from whether it was cancelled. */
  predicate Deserved(did: seq<Action>, i: nat, h: seq<Event>) {
    || (h == [Failed] && GetFails(i) in did && NotReturned(did, i) && SignalCancel(i) !in did)
    || (h != [] && h[0].Got? && Took(did, i, h[0].c) &&
        var c := h[0].c;
        || (h == [Got(c), Removed(c)] && InitEnds(i, false) in did && NotReturned(did, i) && SignalCancel(i) !in did)
        || (h == [Got(c), Put(c)] && Ended(did, i, c, Usable))
        || (h == [Got(c), CancelStart(c), CancelEnd(c), Removed(c)] && Ended(did, i, c, Bad))
        || (h == [Got(c), Removed(c)] && Ended(did, i, c, Aborted))
        || (h == [Got(c), CancelStart(c), CancelEnd(c), Removed(c)] && Signalled(did, i, c)))
  }

  /** What call i has done, by where it stands. */
  predicate Told(k: Call, did: seq<Action>, i: nat, h: seq<Event>) {
    match k.caller
    case Start =>
      && NotReturned(did, i) && SignalCancel(i) !in did && InitEnds(i, false) !in did && GetFails(i) !in did
    case Init(c) => Working(did, i, c)
    case Ready(c) => Working(did, i, c)
    case Running(c) => Working(did, i, c)
    case Deferred(c, end) => Ended(did, i, c, end)
    case Releasing(c, end) => Ended(did, i, c, end)
    case Requesting(c) => Ended(did, i, c, Bad)
    case Removing(c) =>
      || (h == [Got(c)] && Ended(did, i, c, Aborted))
      || (h == [Got(c), CancelStart(c), CancelEnd(c)] &&
          (Ended(did, i, c, Bad) || Signalled(did, i, c)))
    case Done => Deserved(did, i, h)
  }

  ghost predicate AllTold(st: State, did: seq<Action>) {
    forall i :: 0 <= i < |st.calls| ==> Told(st.calls[i], did, i, Mine(st.log, i))
  }

  lemma Among(did: seq<Action>, a: Action)
    ensures forall b :: b in did + [a] <==> b in did || b == a
  {
  }

  /** A step of another call changes nothing of what call j has done. */
  lemma OtherTold(k: Call, did: seq<Action>, a: Action, j: nat, h: seq<Event>)
    requires Told(k, did, j, h) && a.i != j
    ensures Told(k, did + [a], j, h)
  {
    Among(did, a);
  }

  lemma OwnTold(st: State, a: Action, did: seq<Action>, h: seq<Event>)
    requires Enabled(st, a) && Paired(st.calls[a.i]) && HistoryOk(st.calls[a.i], h)
    requires Told(st.calls[a.i], did, a.i, h)
    ensures Told(Apply(st, a).calls[a.i], did + [a], a.i, h + Wrote(st, a))
  {
    hide *;
    if a.Get? || a.GetFails? || a.InitEnds? || a.Spawn? {
      BeginTold(st, a, did, h);
    } else if a.ContextEnds? || a.TakeCancel? || a.CancelReturns? || a.Return? {
      BesideTold(st, a, did, h);
    } else {
      EndTold(st, a, did, h);
    }
  }

  lemma BeginTold(st: State, a: Action, did: seq<Action>, h: seq<Event>)
    requires Enabled(st, a) && HistoryOk(st.calls[a.i], h) && Told(st.calls[a.i], did, a.i, h)
    requires a.Get? || a.GetFails? || a.InitEnds? || a.Spawn?
    ensures Told(Apply(st, a).calls[a.i], did + [a], a.i, h + Wrote(st, a))
  {
    Among(did, a);
  }

  lemma BesideTold(st: State, a: Action, did: seq<Action>, h: seq<Event>)
    requires Enabled(st, a) && Paired(st.calls[a.i]) && Told(st.calls[a.i], did, a.i, h)
    requires a.ContextEnds? || a.TakeCancel? || a.CancelReturns? || a.Return?
    ensures Told(Apply(st, a).calls[a.i], did + [a], a.i, h + Wrote(st, a))
  {
    Among(did, a);
    assert h + [] == h;
  }

  lemma EndTold(st: State, a: Action, did: seq<Action>, h: seq<Event>)
    requires Enabled(st, a) && HistoryOk(st.calls[a.i], h) && Told(st.calls[a.i], did, a.i, h)
    requires a.SignalFn? || a.SignalCancel? || a.Release? || a.RequestReturns? || a.Remove?
    ensures Told(Apply(st, a).calls[a.i], did + [a], a.i, h + Wrote(st, a))
  {
    Among(did, a);
    assert h + [] == h;
  }

  lemma StepTold(st: State, a: Action, did: seq<Action>)
    requires Enabled(st, a) && CallsOk(st) && AllTold(st, did)
    ensures AllTold(Apply(st, a), did + [a])
  {
    hide CallsOk, Mine, Told, Paired, HistoryOk, Apply, Wrote;
    var st' := Apply(st, a);
    SameCalls(st, a);
    forall j | 0 <= j < |st'.calls| ensures Told(st'.calls[j], did + [a], j, Mine(st'.log, j)) {
      CallAt(st, j);
      MineMore(st, a, j);
      assert Told(st.calls[j], did, j, Mine(st.log, j));
      if j == a.i {
        OwnTold(st, a, did, Mine(st.log, j));
      } else {
        OtherTold(st.calls[j], did, a, j, Mine(st.log, j));
        assert Mine(st.log, j) + [] == Mine(st.log, j);
      }
    }
  }

  lemma {:induction false} RunTold(st: State, run: seq<Action>, did: seq<Action>)
    requires Inv(st) && IsRun(st, run) && AllTold(st, did)
    ensures AllTold(After(st, run), did + run)
    decreases |run|
  {
    hide PoolOk, AllThere, CallsOk, Apply, AllTold;
    if run == [] {
      assert did + run == did;
    } else {
      StepTold(st, run[0], did);
      StepKeeps(st, run[0]);
      RunTold(Apply(st, run[0]), run[1..], did + [run[0]]);
      assert did + [run[0]] + run[1..] == did + run;
    }
  }

  /** The history of call i agrees with the actions of the run. */
  predicate Released(run: seq<Action>, i: nat, h: seq<Event>) {
    if GetFails(i) in run then h == [Failed]
    else
      && h != [] && h[0].Got? && Get(i, h[0].c) in run
      && var c := h[0].c;
         if SignalCancel(i) in run then h == [Got(c), CancelStart(c), CancelEnd(c), Removed(c)]
         else
           && (h == [Got(c), Put(c)] <==> Return(i, Usable) in run)
           && (h == [Got(c), CancelStart(c), CancelEnd(c), Removed(c)] <==> Return(i, Bad) in run)
           && (h == [Got(c), Removed(c)] <==> Return(i, Aborted) in run || InitEnds(i, false) in run)
           && h in {[Got(c), Put(c)], [Got(c), CancelStart(c), CancelEnd(c), Removed(c)], [Got(c), Removed(c)]}
  }

  /**
    What a returned call did to its connection, by the actions of the run: without a signal from the canceller a usable
    connection is put back, a bad one is cancelled and removed, and one of an aborted transaction is removed; with a
    signal it is always removed; and a connection that could not be initialised is removed.
  */
  lemma ReleasedByOutcome(st: State, run: seq<Action>, i: nat)
    requires Fresh(st) && IsRun(st, run) && i < |After(st, run).calls| && After(st, run).calls[i].caller.Done?
    ensures Released(run, i, Mine(After(st, run).log, i))
  {
    hide Mine, PoolOk, AllThere, CallsOk, AllTold;
    FreshIsOk(st);
    FreshTold(st);
    RunTold(st, run, []);
    assert [] + run == run;
    ToldAt(After(st, run), run, i);
  }

  lemma ToldAt(st: State, did: seq<Action>, i: nat)
    requires AllTold(st, did) && i < |st.calls|
    ensures Told(st.calls[i], did, i, Mine(st.log, i))
  {
  }

  lemma FreshTold(st: State)
    requires Fresh(st)
    ensures AllTold(st, [])
  {
  }

  // ---------- such runs exist ----------

  lemma {:induction false} Extend(st: State, run: seq<Action>, a: Action)
    requires IsRun(st, run) && Enabled(After(st, run), a)
    ensures IsRun(st, run + [a]) && After(st, run + [a]) == Apply(After(st, run), a)
    decreases |run|
  {
    hide Apply, Enabled;
    if run == [] {
      assert run + [a] == [a] && [a][1..] == [];
    } else {
      assert (run + [a])[1..] == run[1..] + [a];
      Extend(Apply(st, run[0]), run[1..], a);
    }
  }

  /** Any call gets any connection that is idle, or a new one, and starts its function. */
  lemma Starts(st: State, i: nat, c: nat) returns (run: seq<Action>)
    requires Fresh(st) && i < |st.calls| && (c in st.idle || c == st.made)
    ensures IsRun(st, run) && i < |After(st, run).calls| && Get(i, c) in run && SignalCancel(i) !in run
    ensures var k, k0 := After(st, run).calls[i], st.calls[i];
      && k.caller == Running(c) && k.canceller == (if k0.cancellable then Selecting else Absent)
      && k.cancellable == k0.cancellable && k.ended == k0.ended
  {
    hide After, IsRun;
    assert IsRun(st, []) && After(st, []) == st by { NoRun(st); }
    run := [Get(i, c)];
    Extend(st, [], Get(i, c));
    assert [] + [Get(i, c)] == run;
    if After(st, run).calls[i].caller.Init? {
      Extend(st, run, InitEnds(i, true));
      run := run + [InitEnds(i, true)];
    }
    Extend(st, run, Spawn(i));
    run := run + [Spawn(i)];
  }

  lemma NoRun(st: State)
    ensures IsRun(st, []) && After(st, []) == st
  {
  }

  /** The deferred function of a call, without a signal from its canceller. */
  lemma Releases(st: State, run: seq<Action>, i: nat) returns (run': seq<Action>)
    requires IsRun(st, run) && i < |After(st, run).calls| && SignalCancel(i) !in run
    requires var k := After(st, run).calls[i]; k.caller.Deferred? && (k.canceller.Selecting? || !k.cancellable)
    ensures IsRun(st, run') && i < |After(st, run').calls| && After(st, run').calls[i].caller.Done?
    ensures run <= run' && SignalCancel(i) !in run'
  {
    hide After, IsRun;
    var end := After(st, run).calls[i].caller.end;
    Extend(st, run, SignalFn(i));
    run' := run + [SignalFn(i)];
    Extend(st, run', Release(i));
    run' := run' + [Release(i)];
    if end.Bad? {
      Extend(st, run', RequestReturns(i));
      run' := run' + [RequestReturns(i)];
    }
    if !end.Usable? {
      Extend(st, run', Remove(i));
      run' := run' + [Remove(i)];
    }
  }

  /** However its function ends, a call can return, with no signal from its canceller. */
  lemma Returns(st: State, i: nat, c: nat, end: Outcome) returns (run: seq<Action>)
    requires Fresh(st) && i < |st.calls| && (c in st.idle || c == st.made)
    ensures IsRun(st, run) && i < |After(st, run).calls| && After(st, run).calls[i].caller.Done?
    ensures Get(i, c) in run && Return(i, end) in run && SignalCancel(i) !in run
  {
    hide After, IsRun, Fresh;
    run := Starts(st, i, c);
    Extend(st, run, Return(i, end));
    run := run + [Return(i, end)];
    assert Get(i, c) in run && Return(i, end) in run;
    run := Releases(st, run, i);
  }

  lemma CancelRuns(st: State, i: nat, c: nat) returns (run: seq<Action>)
    requires Fresh(st) && i < |st.calls| && (c in st.idle || c == st.made) && st.calls[i].cancellable
    ensures IsRun(st, run) && i < |After(st, run).calls| && Get(i, c) in run
    ensures var k := After(st, run).calls[i]; k.caller == Running(c) && k.canceller == Signalling
  {
    hide After, IsRun, Fresh;
    run := Starts(st, i, c);
    if !After(st, run).calls[i].ended {
      Extend(st, run, ContextEnds(i));
      run := run + [ContextEnds(i)];
    }
    Extend(st, run, TakeCancel(i));
    run := run + [TakeCancel(i)];
    Extend(st, run, CancelReturns(i));
    run := run + [CancelReturns(i)];
  }

  /** A call whose context ends while its function runs can be cancelled. */
  lemma IsCancelled(st: State, i: nat, c: nat, end: Outcome) returns (run: seq<Action>)
    requires Fresh(st) && i < |st.calls| && (c in st.idle || c == st.made) && st.calls[i].cancellable
    ensures IsRun(st, run) && i < |After(st, run).calls| && After(st, run).calls[i].caller.Done?
    ensures Get(i, c) in run && Return(i, end) in run && SignalCancel(i) in run
  {
    hide After, IsRun, Fresh;
    run := CancelRuns(st, i, c);
    Extend(st, run, Return(i, end));
    run := run + [Return(i, end)];
    Extend(st, run, SignalCancel(i));
    run := run + [SignalCancel(i)];
    Extend(st, run, Remove(i));
    run := run + [Remove(i)];
  }

  // ---------- the pool, by what was done to connections ----------

  datatype Pool = Pool(idle: set<nat>, removed: set<nat>)

  /** The pool after some events. */
  function Events(p: Pool, log: seq<Entry>): Pool {
    if log == [] then p
    else
      var q := Events(p, log[..|log| - 1]);
      match log[|log| - 1].event
      case Got(c) => q.(idle := q.idle - {c})
      case Put(c) => q.(idle := q.idle + {c})
      case Removed(c) => q.(removed := q.removed + {c})
      case _ => q
  }

  lemma EventsMore(p: Pool, log: seq<Entry>, e: Entry)
    ensures var q := Events(p, log);
      Events(p, log + [e]) ==
        match e.event
        case Got(c) => q.(idle := q.idle - {c})
        case Put(c) => q.(idle := q.idle + {c})
        case Removed(c) => q.(removed := q.removed + {c})
        case _ => q
  {
    assert (log + [e])[..|log|] == log;
  }

  lemma StepPool(st: State, a: Action, p: Pool)
    requires Enabled(st, a) && Pool(st.idle, st.removed) == Events(p, st.log)
    ensures var st' := Apply(st, a); Pool(st'.idle, st'.removed) == Events(p, st'.log)
  {
    hide Events;
    var st' := Apply(st, a);
    if Wrote(st, a) != [] {
      EventsMore(p, st.log, Entry(a.i, Wrote(st, a)[0]));
      assert st'.log == st.log + [Entry(a.i, Wrote(st, a)[0])];
    }
  }

  lemma {:induction false} RunPool(st: State, run: seq<Action>, p: Pool)
    requires IsRun(st, run) && Pool(st.idle, st.removed) == Events(p, st.log)
    ensures var end := After(st, run); Pool(end.idle, end.removed) == Events(p, end.log)
    decreases |run|
  {
    hide Apply, Events;
    if run != [] {
      StepPool(st, run[0], p);
      RunPool(Apply(st, run[0]), run[1..], p);
    }
  }

  /** What is idle and what is removed is what the calls have taken, put back and removed. */
  lemma PoolIsHistory(st: State, run: seq<Action>)
    requires Fresh(st) && IsRun(st, run)
    ensures var end := After(st, run); Pool(end.idle, end.removed) == Events(Pool(st.idle, {}), end.log)
  {
    RunPool(st, run, Pool(st.idle, {}));
  }

  // ---------- functions run on initialised connections, cancelled ones after the context has ended ----------

  /** A connection that a call holds is initialised, unless the call is at that. */
  ghost predicate InitedOk(st: State) {
    forall i :: 0 <= i < |st.calls| && Holds(st.calls[i]) ==>
      (st.calls[i].caller.Init? <==> Conn(st.calls[i]) !in st.inited)
  }

  lemma StepInited(st: State, a: Action)
    requires Inv(st) && InitedOk(st) && Enabled(st, a)
    ensures InitedOk(Apply(st, a))
  {
    hide AllThere, CallsOk, Mine;
    CallAt(st, a.i);
    var st' := Apply(st, a);
    assert forall j :: 0 <= j < |st.calls| && j != a.i ==> st'.calls[j] == st.calls[j];
  }

  lemma {:induction false} RunInited(st: State, run: seq<Action>)
    requires Inv(st) && InitedOk(st) && IsRun(st, run)
    ensures InitedOk(After(st, run))
    decreases |run|
  {
    hide PoolOk, AllThere, CallsOk, Apply, InitedOk;
    if run != [] {
      StepInited(st, run[0]);
      StepKeeps(st, run[0]);
      RunInited(Apply(st, run[0]), run[1..]);
    }
  }

  /**
    A function only runs on a connection that has been initialised, no connection is initialised twice, and a
    connection is cancelled from beside the function only when the context of the call has ended.
  */
  lemma RunsOnInitialised(st: State, run: seq<Action>, i: nat)
    requires Fresh(st) && IsRun(st, run) && i < |After(st, run).calls|
    ensures var end := After(st, run); var k := end.calls[i];
      && (k.caller.Running? ==> k.caller.c in end.inited)
      && (k.caller.Init? ==> k.caller.c !in end.inited)
      && (k.canceller.Cancelling? ==> k.ended && k.cancellable)
  {
    hide PoolOk, AllThere, Mine;
    FreshIsOk(st);
    RunInited(st, run);
    RunKeeps(st, run);
    CallAt(After(st, run), i);
  }

  // ---------- progress ----------

  predicate Finished(k: Call) {
    k.caller.Done? && (k.canceller.Absent? || k.canceller.Exited?)
  }

  /** A step that an unfinished call can take, whatever the other calls do and whenever its context ends. */
  function Proceed(st: State, i: nat): (a: Action)
    requires i < |st.calls| && Paired(st.calls[i]) && !Finished(st.calls[i])
    ensures a.i == i && !a.ContextEnds? && Enabled(st, a)
  {
    var k := st.calls[i];
    match k.caller
    case Start => GetFails(i)
    case Init(_) => InitEnds(i, true)
    case Ready(_) => Spawn(i)
    case Running(_) => Return(i, Usable)
    case Deferred(_, _) =>
      if k.canceller.Cancelling? then CancelReturns(i) else if k.canceller.Signalling? then SignalCancel(i)
          else SignalFn(i)
    case Releasing(_, _) => Release(i)
    case Requesting(_) => RequestReturns(i)
    case Removing(_) => Remove(i)
  }

  /**
    No deadlock and no goroutine left behind: where no call can move, all calls and all their cancellers have ended.
  */
  lemma StuckMeansFinished(st: State, run: seq<Action>, i: nat)
    requires Fresh(st) && IsRun(st, run) && i < |After(st, run).calls|
    requires forall a :: Enabled(After(st, run), a) ==> a.ContextEnds?
    ensures Finished(After(st, run).calls[i])
  {
    hide PoolOk, AllThere, HistoryOk, Enabled;
    Reachable(st, run);
    var end := After(st, run);
    CallAt(end, i);
    if !Finished(end.calls[i]) {
      var a := Proceed(end, i);
    }
  }

  function CallerRank(k: Caller): nat {
    match k
    case Start => 12
    case Init(_) => 11
    case Ready(_) => 10
    case Running(_) => 6
    case Deferred(_, _) => 5
    case Releasing(_, _) => 4
    case Requesting(_) => 3
    case Removing(_) => 2
    case Done => 0
  }

  function CancellerRank(k: Canceller): nat {
    match k
    case Selecting => 3
    case Cancelling => 2
    case Signalling => 1
    case _ => 0
  }

  function Rank(k: Call): nat {
    CallerRank(k.caller) + CancellerRank(k.canceller) + if k.ended then 0 else 1
  }

  function TotalRank(calls: seq<Call>): nat {
    if calls == [] then 0 else Rank(calls[0]) + TotalRank(calls[1..])
  }

  lemma {:induction false} RankUpdate(calls: seq<Call>, i: nat, k: Call)
    requires i < |calls|
    ensures TotalRank(calls[i := k]) == TotalRank(calls) - Rank(calls[i]) + Rank(k)
  {
    hide Rank;
    if i > 0 {
      assert calls[i := k][1..] == calls[1..][i - 1 := k];
      RankUpdate(calls[1..], i - 1, k);
    }
  }

  lemma StepRanks(st: State, a: Action)
    requires Enabled(st, a) && Paired(st.calls[a.i])
    ensures TotalRank(Apply(st, a).calls) < TotalRank(st.calls)
  {
    hide TotalRank;
    var st' := Apply(st, a);
    assert st'.calls == st.calls[a.i := st'.calls[a.i]];
    RankUpdate(st.calls, a.i, st'.calls[a.i]);
  }

  /** Every run is finite: it takes at most thirteen steps for each call. */
  lemma {:induction false} RunsEnd(st: State, run: seq<Action>)
    requires Inv(st) && IsRun(st, run)
    ensures |run| <= TotalRank(st.calls)
    decreases |run|
  {
    hide PoolOk, AllThere, HistoryOk, Apply, TotalRank;
    if run != [] {
      CallAt(st, run[0].i);
      StepRanks(st, run[0]);
      StepKeeps(st, run[0]);
      RunsEnd(Apply(st, run[0]), run[1..]);
    }
  }

  lemma {:induction false} FreshRank(calls: seq<Call>)
    requires forall i :: 0 <= i < |calls| ==> calls[i].caller.Start? && calls[i].canceller.Absent?
    ensures TotalRank(calls) <= 13 * |calls|
  {
    if calls != [] { FreshRank(calls[1..]); }
  }

  lemma RunsAreShort(st: State, run: seq<Action>)
    requires Fresh(st) && IsRun(st, run)
    ensures |run| <= 13 * |st.calls|
  {
    FreshIsOk(st);
    RunsEnd(st, run);
    FreshRank(st.calls);
  }
}
