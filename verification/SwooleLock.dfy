/** The busy flag a connection shares with its statements, and the calls it serialises.
    Coroutines take steps in any order; a DuckDB call is not one step but two, since it
    runs on another thread while its coroutine is suspended. */
module SwooleLock {
  import opened Wrappers

  type Caller = nat
  type Lock = nat

  datatype Handle = Connection | Statement(id: nat)

  /** The eight wrapped calls. */
  datatype Call =
    | GetOrCreateFromCache(path: string)
    | Connect
    | Prepare(sql: string)
    | ExecutePrepared(stmt: nat)
    | ExecutePreparedStreaming(stmt: nat)
    | Query(sql: string)
    | FetchChunk(result: nat)
    | ResultGetChunk(result: nat, index: nat)

  datatype Reply = State(success: bool) | Chunk(chunk: Option<nat>)

  /** What a wrapper returns when its body never ran. */
  function Unset(call: Call): Reply {
    match call
    case FetchChunk(_) => Chunk(None)
    case ResultGetChunk(_, _) => Chunk(None)
    case _ => State(false)
  }

  predicate Succeeded(r: Reply) {
    match r
    case State(success) => success
    case Chunk(chunk) => chunk.Some?
  }

  /** Where a caller is in `swoole_run`. A body in flight works on the connection as it
      was when the body started; `since` counts the bodies finished by then. */
  datatype Pc<S> =
    | Idle
    | Spinning(handle: Handle, call: Call)
    | Holding(lock: Lock, call: Call)
    | Running(lock: Lock, call: Call, seen: S, since: nat)
    | Leaving(lock: Lock, call: Call, reply: Reply, ran: bool)
    | Unlocked(call: Call, seen: S, since: nat)

  /** A call that is over, or was refused by the thread pool. */
  datatype Record = Record(who: Caller, call: Call, reply: Reply, ran: bool, coroutine: bool)

  datatype World<S> = World(
    flags: map<Lock, bool>,
    lockOf: map<Handle, Lock>,
    conn: S,
    pcs: map<Caller, Pc<S>>,
    holder: Option<Caller>,      // history: who set the flag
    order: seq<(Caller, Call)>,  // history: coroutine calls as they got the lock
    log: seq<Record>)

  datatype Event =
    | Share(id: nat)                                // a statement is prepared
    | Enter(who: Caller, handle: Handle, call: Call)  // inside a coroutine
    | TestAndSet(who: Caller)
    | Start(who: Caller)
    | Refuse(who: Caller)                           // async() did not run the body
    | Finish(who: Caller)
    | Clear(who: Caller)
    | StartUnlocked(who: Caller, call: Call)        // outside any coroutine
    | FinishUnlocked(who: Caller)

  function At<S>(w: World<S>, c: Caller): Pc<S> {
    if c in w.pcs then w.pcs[c] else Idle
  }

  predicate Enabled<S>(w: World<S>, e: Event) {
    match e
    case Share(id) => Connection in w.lockOf && Statement(id) !in w.lockOf
    case Enter(c, h, _) => At(w, c).Idle? && h in w.lockOf
    case TestAndSet(c) => At(w, c).Spinning? && At(w, c).handle in w.lockOf && w.lockOf[At(w, c).handle] in w.flags
    case Start(c) => At(w, c).Holding?
    case Refuse(c) => At(w, c).Holding?
    case Finish(c) => At(w, c).Running?
    case Clear(c) => At(w, c).Leaving?
    case StartUnlocked(c, _) => At(w, c).Idle?
    case FinishUnlocked(c) => At(w, c).Unlocked?
  }

  /** A test-and-set that finds the flag set: the coroutine sleeps and tries again. */
  predicate IsSpin<S>(w: World<S>, e: Event)
    requires Enabled(w, e)
  {
    e.TestAndSet? && w.flags[w.lockOf[At(w, e.who).handle]]
  }

  function Moved<S>(w: World<S>, c: Caller, pc: Pc<S>): World<S> {
    w.(pcs := w.pcs[c := pc])
  }

  function Bodies(log: seq<Record>): nat {
    if log == [] then 0 else Bodies(log[..|log| - 1]) + if log[|log| - 1].ran then 1 else 0
  }

  function Next<S>(step: (S, Call) -> (S, Reply), w: World<S>, e: Event): World<S>
    requires Enabled(w, e)
  {
    match e
    case Share(id) => w.(lockOf := w.lockOf[Statement(id) := w.lockOf[Connection]])
    case Enter(c, h, call) => Moved(w, c, Spinning(h, call))
    case TestAndSet(c) =>
      var l, call := w.lockOf[At(w, c).handle], At(w, c).call;
      if w.flags[l] then w
      else
        Moved(w.(flags := w.flags[l := true], holder := Some(c), order := w.order + [(c, call)]), c, Holding(l, call))
    case Start(c) =>
      Moved(w, c, Running(At(w, c).lock, At(w, c).call, w.conn, Bodies(w.log)))
    case Refuse(c) =>
      var l, call := At(w, c).lock, At(w, c).call;
      Moved(w.(log := w.log + [Record(c, call, Unset(call), false, true)]), c, Leaving(l, call, Unset(call), false))
    case Finish(c) =>
      var l, call := At(w, c).lock, At(w, c).call;
      var (conn, reply) := step(At(w, c).seen, call);
      Moved(w.(conn := conn, log := w.log + [Record(c, call, reply, true, true)]), c, Leaving(l, call, reply, true))
    case Clear(c) => Moved(w.(flags := w.flags[At(w, c).lock := false], holder := None), c, Idle)
    case StartUnlocked(c, call) => Moved(w, c, Unlocked(call, w.conn, Bodies(w.log)))
    case FinishUnlocked(c) =>
      var call := At(w, c).call;
      var (conn, reply) := step(At(w, c).seen, call);
      Moved(w.(conn := conn, log := w.log + [Record(c, call, reply, true, false)]), c, Idle)
  }

  /** A connection just opened, its lock allocated and clear. */
  function Opened<S>(lock: Lock, conn: S): World<S> {
    World(map[lock := false], map[Connection := lock], conn, map[], None, [], [])
  }

  /** The state after a run, if every step of the run was enabled. */
  function Run<S>(step: (S, Call) -> (S, Reply), w: World<S>, es: seq<Event>): Option<World<S>> {
    if es == [] then Some(w) else
      match Run(step, w, es[..|es| - 1])
      case None => None
      case Some(v) => if Enabled(v, es[|es| - 1]) then Some(Next(step, v, es[|es| - 1])) else None
  }

  // ---------------------------------------------------------------- exclusion

  predicate Holds<S>(pc: Pc<S>) { pc.Holding? || pc.Running? || pc.Leaving? }

  /** The coroutine calls in a log. */
  function Tickets(log: seq<Record>): seq<(Caller, Call)> {
    if log == [] then [] else
      var last := log[|log| - 1];
      Tickets(log[..|log| - 1]) + if last.coroutine then [(last.who, last.call)] else []
  }

  /** All handles share the connection's lock, and it is set exactly while its holder,
      and nobody else, is between acquire and release. */
  ghost predicate FlagInv<S>(w: World<S>) {
    && Connection in w.lockOf && w.lockOf[Connection] in w.flags
    && (forall h: Handle :: h in w.lockOf ==> w.lockOf[h] == w.lockOf[Connection])
    && w.flags[w.lockOf[Connection]] == w.holder.Some?
    && (forall c: Caller :: Holds(At(w, c)) <==> w.holder == Some(c))
    && (forall c: Caller :: Holds(At(w, c)) ==> At(w, c).lock == w.lockOf[Connection])
    && (forall c: Caller :: At(w, c).Spinning? ==> At(w, c).handle in w.lockOf)
  }

  /** The call that has the lock and is not over yet. */
  function OpenTicket<S>(w: World<S>): seq<(Caller, Call)> {
    match w.holder
    case None => []
    case Some(c) => if At(w, c).Holding? || At(w, c).Running? then [(c, At(w, c).call)] else []
  }

  /** The calls that are over, in order, are the calls that got the lock, but for the one
      that has it now. */
  predicate OrderInv<S>(w: World<S>) {
    w.order == Tickets(w.log) + OpenTicket(w)
  }

  /** The last call of a caller on record. */
  function LastOf(log: seq<Record>, c: Caller): Option<Record> {
    if log == [] then None
    else if log[|log| - 1].who == c then Some(log[|log| - 1])
    else LastOf(log[..|log| - 1], c)
  }

  /** What a wrapper is about to return is its caller's last call on record, and is a success
      only if its body ran. */
  ghost predicate ReplyInv<S>(w: World<S>) {
    && (forall c: Caller :: At(w, c).Leaving? ==>
          LastOf(w.log, c) == Some(Record(c, At(w, c).call, At(w, c).reply, At(w, c).ran, true)))
    && (forall r: Record :: r in w.log && Succeeded(r.reply) ==> r.ran)
  }

  lemma {:induction false} FlagStep<S>(step: (S, Call) -> (S, Reply), w: World<S>, e: Event)
    requires FlagInv(w) && Enabled(w, e)
    ensures FlagInv(Next(step, w, e))
  {
  }

  lemma {:induction false} TicketsSnoc(log: seq<Record>, r: Record)
    ensures Tickets(log + [r]) == Tickets(log) + if r.coroutine then [(r.who, r.call)] else []
    ensures Bodies(log + [r]) == Bodies(log) + if r.ran then 1 else 0
  {
    assert (log + [r])[..|log|] == log;
  }

  lemma {:induction false} OrderStep<S>(step: (S, Call) -> (S, Reply), w: World<S>, e: Event)
    requires FlagInv(w) && OrderInv(w) && Enabled(w, e)
    ensures OrderInv(Next(step, w, e))
  {
    hide Tickets, Bodies;
    var w' := Next(step, w, e);
    if |w'.log| > |w.log| {
      var r := w'.log[|w.log|];
      assert w'.log == w.log + [r];
      TicketsSnoc(w.log, r);
      assert Tickets(w.log) + [] == Tickets(w.log);
    } else if e.TestAndSet? && !IsSpin(w, e) {
      assert Tickets(w.log) + [] == Tickets(w.log);
    }
  }

  lemma {:induction false} ReplyStep<S>(step: (S, Call) -> (S, Reply), w: World<S>, e: Event)
    requires ReplyInv(w) && Enabled(w, e)
    ensures ReplyInv(Next(step, w, e))
  {
    var w' := Next(step, w, e);
    OthersStay(step, w, e);
    if |w'.log| > |w.log| {
      var r := w'.log[|w.log|];
      assert w'.log == w.log + [r] && r.who == e.who;
      LastOfSnoc(w.log, r);
    }
  }

  lemma {:induction false} LastOfSnoc(log: seq<Record>, r: Record)
    ensures forall d: Caller :: LastOf(log + [r], d) == if d == r.who then Some(r) else LastOf(log, d)
  {
    assert (log + [r])[..|log|] == log;
  }

  lemma {:induction false} LastIsOn(log: seq<Record>, c: Caller)
    ensures LastOf(log, c).Some? ==>
              && LastOf(log, c).value in log && LastOf(log, c).value.who == c
              && Answered(log, c) != [] && Answered(log, c)[|Answered(log, c)| - 1] == LastOf(log, c).value.call
  {
    if log != [] {
      LastIsOn(log[..|log| - 1], c);
    }
  }

  /** All three hold in every reachable state. */
  lemma {:induction false} LockAlways<S>(step: (S, Call) -> (S, Reply), lock: Lock, s0: S, es: seq<Event>)
    requires Run(step, Opened(lock, s0), es).Some?
    ensures FlagInv(Run(step, Opened(lock, s0), es).value)
    ensures OrderInv(Run(step, Opened(lock, s0), es).value)
    ensures ReplyInv(Run(step, Opened(lock, s0), es).value)
  {
    var w0 := Opened(lock, s0);
    if es == [] {
      assert forall c: Caller :: At(w0, c) == Idle;
    } else {
      var init := es[..|es| - 1];
      LockAlways(step, lock, s0, init);
      FlagStep(step, Run(step, w0, init).value, es[|es| - 1]);
      OrderStep(step, Run(step, w0, init).value, es[|es| - 1]);
      ReplyStep(step, Run(step, w0, init).value, es[|es| - 1]);
    }
  }

  // ---------------------------------------------------------------- one call at a time

  predicate InFlight<S>(pc: Pc<S>) { pc.Running? || pc.Unlocked? }

  ghost predicate Overlapping<S>(w: World<S>) {
    exists c: Caller, d: Caller :: c != d && InFlight(At(w, c)) && InFlight(At(w, d))
  }

  /** The connection after the recorded bodies, one after the other. */
  function Replay<S>(step: (S, Call) -> (S, Reply), s0: S, log: seq<Record>): S {
    if log == [] then s0 else
      var before := Replay(step, s0, log[..|log| - 1]);
      if log[|log| - 1].ran then step(before, log[|log| - 1].call).0 else before
  }

  /** Every reply on record is the one a sequential run gives. */
  predicate Faithful<S>(step: (S, Call) -> (S, Reply), s0: S, log: seq<Record>) {
    log != [] ==>
      var init, last := log[..|log| - 1], log[|log| - 1];
      && Faithful(step, s0, init)
      && last.reply == if last.ran then step(Replay(step, s0, init), last.call).1 else Unset(last.call)
  }

  ghost predicate Sequential<S>(step: (S, Call) -> (S, Reply), s0: S, w: World<S>) {
    w.conn == Replay(step, s0, w.log) && Faithful(step, s0, w.log)
  }

  /** No body in flight has missed another one. */
  ghost predicate UpToDate<S>(w: World<S>) {
    forall c: Caller :: InFlight(At(w, c)) ==> At(w, c).seen == w.conn
  }

  lemma {:induction false} RecordOne<S>(step: (S, Call) -> (S, Reply), s0: S, log: seq<Record>, r: Record)
    requires Faithful(step, s0, log)
    requires r.reply == if r.ran then step(Replay(step, s0, log), r.call).1 else Unset(r.call)
    ensures Faithful(step, s0, log + [r])
    ensures Replay(step, s0, log + [r]) ==
            if r.ran then step(Replay(step, s0, log), r.call).0 else Replay(step, s0, log)
  {
    assert (log + [r])[..|log|] == log;
  }

  lemma {:induction false} SequentialStep<S>(step: (S, Call) -> (S, Reply), s0: S, w: World<S>, e: Event)
    requires Sequential(step, s0, w) && UpToDate(w) && !Overlapping(w) && Enabled(w, e)
    ensures Sequential(step, s0, Next(step, w, e)) && UpToDate(Next(step, w, e))
  {
    match e
    case Finish(c) => FinishStep(step, s0, w, e, c, true);
    case FinishUnlocked(c) => FinishStep(step, s0, w, e, c, false);
    case Refuse(c) =>
      var w' := Next(step, w, e);
      RecordOne(step, s0, w.log, Record(c, At(w, c).call, Unset(At(w, c).call), false, true));
      assert forall d: Caller :: d != c ==> At(w', d) == At(w, d);
    case Share(_) =>
      assert forall c: Caller :: At(Next(step, w, e), c) == At(w, c);
    case _ =>
      assert forall d: Caller :: d != e.who ==> At(Next(step, w, e), d) == At(w, d);
  }

  lemma {:induction false} FinishStep<S>(step: (S, Call) -> (S, Reply), s0: S, w: World<S>, e: Event, c: Caller,
                                         locked: bool)
    requires Sequential(step, s0, w) && UpToDate(w) && !Overlapping(w) && Enabled(w, e)
    requires e == if locked then Finish(c) else FinishUnlocked(c)
    ensures Sequential(step, s0, Next(step, w, e)) && UpToDate(Next(step, w, e))
  {
    var w', call := Next(step, w, e), At(w, c).call;
    assert At(w, c).seen == w.conn;
    RecordOne(step, s0, w.log, Record(c, call, step(w.conn, call).1, true, locked));
    forall d: Caller ensures !InFlight(At(w', d)) {
      if d != c {
        assert At(w', d) == At(w, d);
      }
    }
  }

  /** No state of the run has two bodies in flight. */
  ghost predicate NeverOverlaps<S>(step: (S, Call) -> (S, Reply), w: World<S>, es: seq<Event>) {
    && Run(step, w, es).Some? && !Overlapping(Run(step, w, es).value)
    && (es != [] ==> NeverOverlaps(step, w, es[..|es| - 1]))
  }

  lemma {:induction false} NoOverlapExplains<S>(step: (S, Call) -> (S, Reply), lock: Lock, s0: S, es: seq<Event>)
    requires NeverOverlaps(step, Opened(lock, s0), es)
    ensures var w := Run(step, Opened(lock, s0), es).value; Sequential(step, s0, w) && UpToDate(w)
  {
    if es != [] {
      var init := es[..|es| - 1];
      NoOverlapExplains(step, lock, s0, init);
      SequentialStep(step, s0, Run(step, Opened(lock, s0), init).value, es[|es| - 1]);
    }
  }

  /** While a body runs outside a coroutine no other body is in flight. */
  ghost predicate UnlockedAlone<S>(w: World<S>) {
    forall c: Caller, d: Caller :: At(w, c).Unlocked? && c != d ==> !InFlight(At(w, d))
  }

  /** So in every state of the run. */
  ghost predicate AlwaysAlone<S>(step: (S, Call) -> (S, Reply), w: World<S>, es: seq<Event>) {
    && Run(step, w, es).Some? && UnlockedAlone(Run(step, w, es).value)
    && (es != [] ==> AlwaysAlone(step, w, es[..|es| - 1]))
  }

  lemma {:induction false} OneLockedBody<S>(w: World<S>)
    requires FlagInv(w)
    ensures Overlapping(w) <==> !UnlockedAlone(w)
  {
    if c: Caller, d: Caller :| c != d && InFlight(At(w, c)) && InFlight(At(w, d)) {
      assert !(Holds(At(w, c)) && Holds(At(w, d)));
      assert At(w, c).Unlocked? || At(w, d).Unlocked?;
    }
  }

  /** The lock keeps coroutine bodies apart, so bodies overlap exactly where a body outside
      coroutines overlaps another. */
  lemma {:induction false} OnlyUnlockedOverlap<S>(step: (S, Call) -> (S, Reply), lock: Lock, s0: S, es: seq<Event>)
    requires Run(step, Opened(lock, s0), es).Some?
    ensures AlwaysAlone(step, Opened(lock, s0), es) <==> NeverOverlaps(step, Opened(lock, s0), es)
  {
    LockAlways(step, lock, s0, es);
    OneLockedBody(Run(step, Opened(lock, s0), es).value);
    if es != [] {
      OnlyUnlockedOverlap(step, lock, s0, es[..|es| - 1]);
    }
  }

  /** Whatever DuckDB does, a run in which calls outside coroutines overlap no other body is
      explained by its calls one at a time, in the order on record. There coroutine calls stand
      in the order in which they got the lock, and each caller's are the calls it made. */
  lemma {:induction false} SequentialExplanation<S>(step: (S, Call) -> (S, Reply), lock: Lock, s0: S, es: seq<Event>)
    requires AlwaysAlone(step, Opened(lock, s0), es)
    ensures var w := Run(step, Opened(lock, s0), es).value;
            && Sequential(step, s0, w) && UpToDate(w) && w.order == Tickets(w.log) + OpenTicket(w)
            && forall c: Caller :: Made(es, c) == Answered(w.log, c) + Awaited(At(w, c))
  {
    OnlyUnlockedOverlap(step, lock, s0, es);
    NoOverlapExplains(step, lock, s0, es);
    LockAlways(step, lock, s0, es);
    forall c: Caller
      ensures var w := Run(step, Opened(lock, s0), es).value; Made(es, c) == Answered(w.log, c) + Awaited(At(w, c))
    {
      CallsAreAnswered(step, lock, s0, es, c);
    }
  }

  predicate InCoroutines(es: seq<Event>) {
    forall i :: 0 <= i < |es| ==> !es[i].StartUnlocked?
  }

  lemma {:induction false} CoroutinesNeverOverlap<S>(step: (S, Call) -> (S, Reply), lock: Lock, s0: S, es: seq<Event>)
    requires Run(step, Opened(lock, s0), es).Some? && InCoroutines(es)
    ensures AlwaysAlone(step, Opened(lock, s0), es) && NeverOverlaps(step, Opened(lock, s0), es)
  {
    NobodyUnlocked(step, lock, s0, es);
    OnlyUnlockedOverlap(step, lock, s0, es);
    if es != [] {
      CoroutinesNeverOverlap(step, lock, s0, es[..|es| - 1]);
    }
  }

  /** Every caller is in a coroutine, and so is every call on record. */
  ghost predicate Locked<S>(w: World<S>) {
    (forall c: Caller :: !At(w, c).Unlocked?) && |w.log| == |Tickets(w.log)|
  }

  lemma {:induction false} LockedStep<S>(step: (S, Call) -> (S, Reply), w: World<S>, e: Event)
    requires Locked(w) && Enabled(w, e) && !e.StartUnlocked?
    ensures Locked(Next(step, w, e))
  {
    hide Tickets, Bodies;
    var w' := Next(step, w, e);
    match e
    case Finish(c) =>
      TicketsSnoc(w.log, Record(c, At(w, c).call, step(At(w, c).seen, At(w, c).call).1, true, true));
      assert forall d: Caller :: d != c ==> At(w', d) == At(w, d);
    case Refuse(c) =>
      TicketsSnoc(w.log, Record(c, At(w, c).call, Unset(At(w, c).call), false, true));
      assert forall d: Caller :: d != c ==> At(w', d) == At(w, d);
    case FinishUnlocked(c) => assert false;
    case StartUnlocked(_, _) => assert false;
    case Share(_) => assert forall d: Caller :: At(w', d) == At(w, d);
    case _ => assert forall d: Caller :: d != e.who ==> At(w', d) == At(w, d);
  }

  lemma {:induction false} NobodyUnlocked<S>(step: (S, Call) -> (S, Reply), lock: Lock, s0: S, es: seq<Event>)
    requires Run(step, Opened(lock, s0), es).Some? && InCoroutines(es)
    ensures Locked(Run(step, Opened(lock, s0), es).value)
  {
    if es != [] {
      var init, e := es[..|es| - 1], es[|es| - 1];
      assert !e.StartUnlocked?;
      NobodyUnlocked(step, lock, s0, init);
      LockedStep(step, Run(step, Opened(lock, s0), init).value, e);
    }
  }

  /** The lock alone gives the explanation when every call comes from a coroutine: state
      and replies are those of the calls in the order in which they got the lock. */
  lemma {:induction false} CoroutineRunsAreSequential<S>(step: (S, Call) -> (S, Reply), lock: Lock, s0: S,
                                                         es: seq<Event>)
    requires Run(step, Opened(lock, s0), es).Some? && InCoroutines(es)
    ensures var w := Run(step, Opened(lock, s0), es).value;
            && Sequential(step, s0, w)
            && |w.log| == |Tickets(w.log)|
            && w.order == Tickets(w.log) + OpenTicket(w)
  {
    CoroutinesNeverOverlap(step, lock, s0, es);
    SequentialExplanation(step, lock, s0, es);
    NobodyUnlocked(step, lock, s0, es);
  }

  /** A coroutine about to return success has, as its last call on record, the call
      it made last, with a body that ran; and it still holds the lock. */
  lemma {:induction false} SuccessMeansItRan<S>(step: (S, Call) -> (S, Reply), lock: Lock, s0: S,
                                                es: seq<Event>, c: Caller)
    requires Run(step, Opened(lock, s0), es).Some?
    ensures var w := Run(step, Opened(lock, s0), es).value;
            var pc := At(w, c);
            pc.Leaving? && Succeeded(pc.reply) ==>
              && pc.ran && LastOf(w.log, c) == Some(Record(c, pc.call, pc.reply, true, true)) && w.holder == Some(c)
              && Made(es, c) != [] && pc.call == Made(es, c)[|Made(es, c)| - 1]
  {
    LockAlways(step, lock, s0, es);
    CallsAreAnswered(step, lock, s0, es, c);
    LastIsOn(Run(step, Opened(lock, s0), es).value.log, c);
  }

  // ---------------------------------------------------------------- every call made is answered

  /** The calls a caller begins, in order. */
  function Made(es: seq<Event>, c: Caller): seq<Call> {
    if es == [] then [] else
      Made(es[..|es| - 1], c) + Begun(es[|es| - 1], c)
  }

  function Begun(e: Event, c: Caller): seq<Call> {
    match e
    case Enter(d, _, call) => if d == c then [call] else []
    case StartUnlocked(d, call) => if d == c then [call] else []
    case _ => []
  }

  /** The calls of a caller on record, in order. */
  function Answered(log: seq<Record>, c: Caller): seq<Call> {
    if log == [] then [] else
      Answered(log[..|log| - 1], c) + if log[|log| - 1].who == c then [log[|log| - 1].call] else []
  }

  /** The call a caller still waits for. */
  function Awaited<S>(pc: Pc<S>): seq<Call> {
    match pc
    case Idle => []
    case Spinning(_, call) => [call]
    case Holding(_, call) => [call]
    case Running(_, call, _, _) => [call]
    case Leaving(_, _, _, _) => []
    case Unlocked(call, _, _) => [call]
  }

  lemma {:induction false} AnsweredSnoc(log: seq<Record>, r: Record, c: Caller)
    ensures Answered(log + [r], c) == Answered(log, c) + if r.who == c then [r.call] else []
  {
    assert (log + [r])[..|log|] == log;
  }

  lemma {:induction false} AnswerStep<S>(step: (S, Call) -> (S, Reply), w: World<S>, e: Event, c: Caller)
    requires Enabled(w, e)
    ensures var w' := Next(step, w, e);
            Answered(w'.log, c) + Awaited(At(w', c)) ==
            Answered(w.log, c) + Awaited(At(w, c)) + Begun(e, c)
  {
    hide Answered, Bodies;
    var w' := Next(step, w, e);
    OthersStay(step, w, e);
    if |w'.log| > |w.log| {
      assert w'.log == w.log + [w'.log[|w.log|]];
      AnsweredSnoc(w.log, w'.log[|w.log|], c);
    }
  }

  /** What a caller has on record, with the call it waits for, are the calls it made, each
      once and in order: no call is lost, none is another's, and none is answered unmade. */
  lemma {:induction false} CallsAreAnswered<S>(step: (S, Call) -> (S, Reply), lock: Lock, s0: S, es: seq<Event>,
                                               c: Caller)
    requires Run(step, Opened(lock, s0), es).Some?
    ensures var w := Run(step, Opened(lock, s0), es).value; Made(es, c) == Answered(w.log, c) + Awaited(At(w, c))
  {
    if es != [] {
      var init := es[..|es| - 1];
      CallsAreAnswered(step, lock, s0, init, c);
      AnswerStep(step, Run(step, Opened(lock, s0), init).value, es[|es| - 1], c);
    }
  }

  // ---------------------------------------------------------------- exactly when

  /** A connection that keeps every call it has run. */
  function Recorder(s: seq<Call>, c: Call): (seq<Call>, Reply) {
    (s + [c], State(true))
  }

  ghost predicate CountInv(w: World<seq<Call>>) {
    && |w.conn| <= Bodies(w.log)
    && forall c: Caller :: InFlight(At(w, c)) ==>
         var pc := At(w, c);
         |pc.seen| <= pc.since <= Bodies(w.log) && (pc.since == Bodies(w.log) ==> pc.seen == w.conn)
  }

  ghost predicate Stale(w: World<seq<Call>>, c: Caller) {
    InFlight(At(w, c)) && At(w, c).since < Bodies(w.log)
  }

  /** A call has been lost, or some body in flight will lose one when it finishes. */
  ghost predicate Losing(w: World<seq<Call>>) {
    Overlapping(w) || (exists c: Caller :: Stale(w, c)) || |w.conn| < Bodies(w.log)
  }

  lemma {:induction false} BodiesAfter(w: World<seq<Call>>, e: Event)
    requires Enabled(w, e)
    ensures Bodies(Next(Recorder, w, e).log) == Bodies(w.log) + if Ends(e) then 1 else 0
  {
  }

  lemma {:induction false} OthersStay<S>(step: (S, Call) -> (S, Reply), w: World<S>, e: Event)
    requires Enabled(w, e)
    ensures !e.Share? ==> OnlyMoves(w, Next(step, w, e), e.who)
    ensures e.Share? ==> forall d: Caller :: OnlyMoves(w, Next(step, w, e), d) && At(Next(step, w, e), d) == At(w, d)
  {
  }

  /** Everyone but `c` is where they were. */
  ghost predicate OnlyMoves<S>(w: World<S>, w': World<S>, c: Caller) {
    forall d: Caller :: d != c ==> At(w', d) == At(w, d)
  }

  /** A step that changes neither the connection nor the number of bodies. */
  lemma {:induction false} CountKept(w: World<seq<Call>>, w': World<seq<Call>>, c: Caller)
    requires CountInv(w) && OnlyMoves(w, w', c) && w'.conn == w.conn && Bodies(w'.log) == Bodies(w.log)
    requires InFlight(At(w', c)) ==>
               At(w', c) == At(w, c) || (At(w', c).seen == w.conn && At(w', c).since == Bodies(w.log))
    ensures CountInv(w')
  {
    hide Bodies;
  }

  /** A body that finishes. */
  lemma {:induction false} CountFinished(w: World<seq<Call>>, w': World<seq<Call>>, c: Caller)
    requires CountInv(w) && OnlyMoves(w, w', c) && InFlight(At(w, c)) && !InFlight(At(w', c))
    requires |w'.conn| == |At(w, c).seen| + 1 && Bodies(w'.log) == Bodies(w.log) + 1
    ensures CountInv(w')
  {
    hide Bodies;
  }

  predicate Ends(e: Event) { e.Finish? || e.FinishUnlocked? }

  /** What a step does to the caller and to the connection. */
  lemma {:induction false} RecorderStep(w: World<seq<Call>>, e: Event)
    requires Enabled(w, e)
    ensures var w' := Next(Recorder, w, e);
            if Ends(e)
            then InFlight(At(w, e.who)) && !InFlight(At(w', e.who)) && |w'.conn| == |At(w, e.who).seen| + 1
            else w'.conn == w.conn
    ensures !Ends(e) && !e.Share? && InFlight(At(Next(Recorder, w, e), e.who)) ==>
              At(Next(Recorder, w, e), e.who).seen == w.conn && At(Next(Recorder, w, e), e.who).since == Bodies(w.log)
  {
    hide Bodies;
  }

  lemma {:induction false} CountStep(w: World<seq<Call>>, e: Event)
    requires CountInv(w) && Enabled(w, e)
    ensures CountInv(Next(Recorder, w, e))
  {
    BodiesAfter(w, e);
    OthersStay(Recorder, w, e);
    RecorderStep(w, e);
    hide CountInv, Bodies, Next, Enabled;
    var w' := Next(Recorder, w, e);
    if e.Share? {
      CountKept(w, w', 0);
    } else if Ends(e) {
      CountFinished(w, w', e.who);
    } else {
      CountKept(w, w', e.who);
    }
  }

  lemma {:induction false} StillLosing(w: World<seq<Call>>, e: Event)
    requires CountInv(w) && Losing(w) && Enabled(w, e)
    ensures Losing(Next(Recorder, w, e))
  {
    var w' := Next(Recorder, w, e);
    BodiesAfter(w, e);
    OthersStay(Recorder, w, e);
    if Overlapping(w) {
      var c: Caller, d: Caller :| c != d && InFlight(At(w, c)) && InFlight(At(w, d));
      if e.Finish? || e.FinishUnlocked? {
        assert Stale(w', if e.who == c then d else c);
      } else {
        assert InFlight(At(w', c)) && InFlight(At(w', d));
      }
    } else if c: Caller :| Stale(w, c) {
      assert ((e.Finish? || e.FinishUnlocked?) && e.who == c) || Stale(w', c);
    }
  }

  lemma {:induction false} LosingFromOverlap(lock: Lock, es: seq<Event>)
    requires Run(Recorder, Opened(lock, []), es).Some?
    ensures CountInv(Run(Recorder, Opened(lock, []), es).value)
    ensures !NeverOverlaps(Recorder, Opened(lock, []), es) ==> Losing(Run(Recorder, Opened(lock, []), es).value)
  {
    if es != [] {
      var init := es[..|es| - 1];
      LosingFromOverlap(lock, init);
      CountStep(Run(Recorder, Opened(lock, []), init).value, es[|es| - 1]);
      if Losing(Run(Recorder, Opened(lock, []), init).value) {
        StillLosing(Run(Recorder, Opened(lock, []), init).value, es[|es| - 1]);
      }
    } else {
      var w0: World<seq<Call>> := Opened(lock, []);
      assert forall c: Caller :: At(w0, c) == Idle;
    }
  }

  /** The calls of the bodies that ran. */
  function Ran(log: seq<Record>): seq<Call> {
    if log == [] then [] else
      Ran(log[..|log| - 1]) + if log[|log| - 1].ran then [log[|log| - 1].call] else []
  }

  /** The connection after these calls, one after the other. */
  function After<S>(step: (S, Call) -> (S, Reply), s0: S, calls: seq<Call>): S {
    if calls == [] then s0 else step(After(step, s0, calls[..|calls| - 1]), calls[|calls| - 1]).0
  }

  /** Running the calls in some order of their own leaves the connection as it is. */
  ghost predicate Explains<S>(step: (S, Call) -> (S, Reply), s0: S, w: World<S>, calls: seq<Call>) {
    multiset(calls) == multiset(Ran(w.log)) && After(step, s0, calls) == w.conn
  }

  lemma {:induction false} ReplayIsAfter<S>(step: (S, Call) -> (S, Reply), s0: S, log: seq<Record>)
    ensures Replay(step, s0, log) == After(step, s0, Ran(log)) && |Ran(log)| == Bodies(log)
  {
    if log != [] {
      var init, last := log[..|log| - 1], log[|log| - 1];
      ReplayIsAfter(step, s0, init);
      if last.ran {
        assert (Ran(init) + [last.call])[..|Ran(init)|] == Ran(init);
      } else {
        assert Ran(init) + [] == Ran(init);
      }
    }
  }

  lemma {:induction false} RecorderKeeps(calls: seq<Call>)
    ensures |After(Recorder, [], calls)| == |calls|
  {
    if calls != [] {
      RecorderKeeps(calls[..|calls| - 1]);
    }
  }

  /** Where calls outside coroutines overlap nothing a run is sequential, for every DuckDB.
      Where one does, it is not, for one that keeps its calls: once all bodies are over, no
      order of the calls at all leaves the connection as it is. */
  lemma {:induction false} SequentialExactly(lock: Lock, es: seq<Event>)
    requires Run(Recorder, Opened(lock, []), es).Some?
    requires forall c: Caller :: !InFlight(At(Run(Recorder, Opened(lock, []), es).value, c))
    ensures var w := Run(Recorder, Opened(lock, []), es).value;
            && (Sequential(Recorder, [], w) <==> AlwaysAlone(Recorder, Opened(lock, []), es))
            && ((exists calls :: Explains(Recorder, [], w, calls)) <==> AlwaysAlone(Recorder, Opened(lock, []), es))
  {
    var w := Run(Recorder, Opened(lock, []), es).value;
    ReplayIsAfter(Recorder, [], w.log);
    OnlyUnlockedOverlap(Recorder, lock, [], es);
    if AlwaysAlone(Recorder, Opened(lock, []), es) {
      SequentialExplanation(Recorder, lock, [], es);
      assert Explains(Recorder, [], w, Ran(w.log));
    } else {
      LosingFromOverlap(lock, es);
      RecorderKeeps(Ran(w.log));
      forall calls ensures !Explains(Recorder, [], w, calls) {
        RecorderKeeps(calls);
        if multiset(calls) == multiset(Ran(w.log)) {
          assert |calls| == |multiset(calls)| == |multiset(Ran(w.log))| == |Ran(w.log)|;
        }
      }
    }
  }

  /** A call outside any coroutine, started while a coroutine's call runs. */
  const OVERLAP := [Enter(0, Connection, Connect), TestAndSet(0), Start(0), StartUnlocked(1, Connect),
                    Finish(0), FinishUnlocked(1)]

  lemma {:induction false} RunSix<S>(step: (S, Call) -> (S, Reply), w: World<S>, es: seq<Event>)
    requires |es| == 6 && Enabled(w, es[0])
    requires var w1 := Next(step, w, es[0]);
             Enabled(w1, es[1]) && var w2 := Next(step, w1, es[1]);
             Enabled(w2, es[2]) && var w3 := Next(step, w2, es[2]);
             Enabled(w3, es[3]) && var w4 := Next(step, w3, es[3]);
             Enabled(w4, es[4]) && Enabled(Next(step, w4, es[4]), es[5])
    ensures var w3 := Next(step, Next(step, Next(step, w, es[0]), es[1]), es[2]);
            Run(step, w, es) == Some(Next(step, Next(step, Next(step, w3, es[3]), es[4]), es[5]))
  {
    hide Next, Enabled;
    assert es[..5][..4] == es[..4] && es[..4][..3] == es[..3] && es[..3][..2] == es[..2] && es[..2][..1] == es[..1];
    assert es[..1][..0] == [] && Run(step, w, es[..1]) == Some(Next(step, w, es[0]));
    assert Run(step, w, es[..2]).Some?;
    assert Run(step, w, es[..3]).Some?;
    assert Run(step, w, es[..4]).Some?;
    assert Run(step, w, es[..5]).Some?;
  }

  /** One of the two calls is lost. */
  lemma {:induction false} OverlapLosesACall(lock: Lock)
    ensures Run(Recorder, Opened(lock, []), OVERLAP).Some?
    ensures var w := Run(Recorder, Opened(lock, []), OVERLAP).value; |w.conn| == 1 && |Ran(w.log)| == 2
  {
    hide Run, Tickets, LastOf, Replay, After;
    RunSix(Recorder, Opened(lock, []), OVERLAP);
    var r, u := Record(0, Connect, State(true), true, true), Record(1, Connect, State(true), true, false);
    assert [r][..0] == [] && Ran([r]) == [Connect];
    assert [r, u][..1] == [r] && Ran([r, u]) == [Connect, Connect];
    assert [] + [r] == [r] && [r] + [u] == [r, u];
  }

  // ---------------------------------------------------------------- progress

  /** Steps a caller still has to take in its call. */
  function Left<S>(pc: Pc<S>): nat {
    match pc
    case Idle => 0
    case Spinning(_, _) => 4
    case Holding(_, _) => 3
    case Running(_, _, _, _) => 2
    case Leaving(_, _, _, _) => 1
    case Unlocked(_, _, _) => 1
  }

  /** A step of a call that is pending, other than a spin. */
  predicate Advances<S>(w: World<S>, e: Event) {
    !e.Share? && !At(w, e.who).Idle? && Enabled(w, e) && !IsSpin(w, e)
  }

  /** The next step of a caller that need not wait. */
  function NextStep<S>(w: World<S>, c: Caller): Event
    requires !At(w, c).Idle?
  {
    match At(w, c)
    case Spinning(_, _) => TestAndSet(c)
    case Holding(_, _) => Start(c)
    case Running(_, _, _, _) => Finish(c)
    case Leaving(_, _, _, _) => Clear(c)
    case Unlocked(_, _, _) => FinishUnlocked(c)
  }

  /** While a call is pending in a reachable state, some pending call can take a step that
      is not a spin. */
  lemma {:induction false} Progress<S>(step: (S, Call) -> (S, Reply), lock: Lock, s0: S, es: seq<Event>, c: Caller)
    requires Run(step, Opened(lock, s0), es).Some? && !At(Run(step, Opened(lock, s0), es).value, c).Idle?
    ensures exists e :: Advances(Run(step, Opened(lock, s0), es).value, e)
  {
    LockAlways(step, lock, s0, es);
    var w := Run(step, Opened(lock, s0), es).value;
    var d := if At(w, c).Spinning? && w.holder.Some? then w.holder.value else c;
    assert w.holder == Some(d) ==> Holds(At(w, d));
    assert Advances(w, NextStep(w, d));
  }

  lemma {:induction false} RunCons<S>(step: (S, Call) -> (S, Reply), w: World<S>, e: Event, es: seq<Event>)
    requires Enabled(w, e)
    ensures Run(step, w, [e] + es) == Run(step, Next(step, w, e), es)
  {
    var all := [e] + es;
    if es == [] {
      assert all == [e] && all[..0] == [];
    } else {
      assert all[..|all| - 1] == [e] + es[..|es| - 1];
      RunCons(step, w, e, es[..|es| - 1]);
    }
  }

  lemma {:induction false} RunTwice<S>(step: (S, Call) -> (S, Reply), w: World<S>, a: seq<Event>, b: seq<Event>)
    requires Run(step, w, a).Some?
    ensures Run(step, w, a + b) == Run(step, Run(step, w, a).value, b)
  {
    if b == [] {
      assert a + b == a;
    } else {
      assert (a + b)[..|a + b| - 1] == a + b[..|b| - 1];
      RunTwice(step, w, a, b[..|b| - 1]);
    }
  }

  /** A caller that need not wait ends its call on its own. */
  lemma {:induction false} RunToTheEnd<S>(step: (S, Call) -> (S, Reply), w: World<S>, c: Caller)
    returns (more: seq<Event>)
    requires FlagInv(w) && (At(w, c).Spinning? ==> w.holder.None?)
    ensures |more| <= Left(At(w, c)) && Run(step, w, more).Some?
    ensures var w' := Run(step, w, more).value;
            && FlagInv(w') && At(w', c).Idle? && (forall d: Caller :: d != c ==> At(w', d) == At(w, d))
            && (w.holder == None || w.holder == Some(c) ==> w'.holder == None)
    decreases Left(At(w, c))
  {
    if At(w, c).Idle? {
      more := [];
      assert w.holder == Some(c) ==> Holds(At(w, c));
    } else {
      var e := NextStep(w, c);
      assert At(w, c).Holding? || At(w, c).Running? || At(w, c).Leaving? <==> w.holder == Some(c);
      FlagStep(step, w, e);
      OthersStay(step, w, e);
      var rest := RunToTheEnd(step, Next(step, w, e), c);
      RunCons(step, w, e, rest);
      more := [e] + rest;
    }
  }

  /** No reachable state is stuck: from each, every pending call can still be run to its
      end, within seven steps of its caller and of the one it waits for. */
  lemma {:induction false} EveryCallCanEnd<S>(step: (S, Call) -> (S, Reply), lock: Lock, s0: S, es: seq<Event>,
                                              c: Caller)
    requires Run(step, Opened(lock, s0), es).Some?
    ensures exists more: seq<Event> :: |more| <= 7 && EndsCall(step, lock, s0, es + more, c)
  {
    var w0 := Opened(lock, s0);
    var w := Run(step, w0, es).value;
    LockAlways(step, lock, s0, es);
    var first := [];
    assert Run(step, w, first) == Some(w);
    if At(w, c).Spinning? && w.holder.Some? {
      var d := w.holder.value;
      assert Holds(At(w, d));
      first := RunToTheEnd(step, w, d);
    }
    var more := RunToTheEnd(step, Run(step, w, first).value, c);
    RunTwice(step, w, first, more);
    RunTwice(step, w0, es, first + more);
    assert EndsCall(step, lock, s0, es + (first + more), c);
  }

  ghost predicate EndsCall<S>(step: (S, Call) -> (S, Reply), lock: Lock, s0: S, es: seq<Event>, c: Caller) {
    Run(step, Opened(lock, s0), es).Some? && At(Run(step, Opened(lock, s0), es).value, c).Idle?
  }

  predicate Begins(e: Event, c: Caller) {
    (e.Enter? || e.StartUnlocked?) && e.who == c
  }

  function Calls(es: seq<Event>, c: Caller): nat {
    if es == [] then 0 else Calls(es[..|es| - 1], c) + if Begins(es[|es| - 1], c) then 1 else 0
  }

  /** Steps of a caller that are not spins. */
  function Work<S>(step: (S, Call) -> (S, Reply), w: World<S>, es: seq<Event>, c: Caller): nat {
    if es == [] then 0 else
      var init, e := es[..|es| - 1], es[|es| - 1];
      Work(step, w, init, c) +
        match Run(step, w, init)
        case Some(v) => if !e.Share? && e.who == c && Enabled(v, e) && !IsSpin(v, e) then 1 else 0
        case None => 0
  }

  lemma {:induction false} WorkStep<S>(step: (S, Call) -> (S, Reply), w: World<S>, e: Event, c: Caller)
    requires Enabled(w, e)
    ensures Left(At(Next(step, w, e), c)) + (if !e.Share? && e.who == c && !IsSpin(w, e) then 1 else 0)
            <= Left(At(w, c)) + if Begins(e, c) then 5 else 0
  {
  }

  /** A caller's n calls take at most 5n steps, spins aside. */
  lemma {:induction false} WorkIsBounded<S>(step: (S, Call) -> (S, Reply), lock: Lock, s0: S, es: seq<Event>, c: Caller)
    requires Run(step, Opened(lock, s0), es).Some?
    ensures Work(step, Opened(lock, s0), es, c) + Left(At(Run(step, Opened(lock, s0), es).value, c)) <= 5 * Calls(es, c)
  {
    if es != [] {
      var init := es[..|es| - 1];
      WorkIsBounded(step, lock, s0, init, c);
      WorkStep(step, Run(step, Opened(lock, s0), init).value, es[|es| - 1], c);
    }
  }
}
