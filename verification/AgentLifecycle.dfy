/**
The life of one agent: any number of Start and Stop calls, the heartbeat goroutine that the
successful Start spawns, and the in-process master's registry they share.

Each atomic region of the Go code (a mutex section, one registry call, one context operation)
is one step, and a schedule is any sequence of actions; an action that cannot run leaves the
state alone. The log records what happened in order.
*/
module AgentLifecycle {
  import opened Wrappers

  type Pid = nat

  datatype Status = Registered | Idle | Busy | Offline

  datatype StartResult = Finished | AlreadyStarted | NoMaster | RegisterFailed

  /** Program points of a Start call, in program order. */
  datatype StartPoint =
    | Calling
    | RegGet | RegDrop | RegAdd | RegCancel | RegFlip
    | Spawning
    | StreamHead | StreamPull | InTask
    | HeartbeatCancel
    | Deregister
    | Flip
    | Returned(result: StartResult)

  datatype LoopPoint = NotSpawned | Select | Stats | Lookup | AutoRegister | Beat | Exited

  /** `hasCancel`: runCancel was set when Stop read it under the mutex. */
  datatype StopPoint = StopCalling | Captured(hasCancel: bool) | StopReturned(ok: bool)

  datatype Event =
    | Passed(pid: Pid)
    | AgentRegistered
    | TaskBegan | TaskEnded
    | StatsTaken | LookedUp | AutoRegistered | Beaten
    | Deregistered
    | Flipped
    | LoopExited
    | RecordRemoved

  /** The agent's guarded fields, its contexts, the shared registry and the loop. `owner` is the
      Start call that passed the guard, for the proofs only. */
  datatype Core = Core(
    id: string, masterSet: bool,
    started: bool, status: Status, cancelSet: bool,
    parentDone: bool, runDone: bool, heartbeatDone: bool,
    registry: map<string, Status>, loop: LoopPoint, owner: Option<Pid>)

  datatype State = State(
    core: Core, starts: map<Pid, StartPoint>, stops: map<Pid, StopPoint>, log: seq<Event>)

  /** One step of a Start call, of the loop, of a Stop call. */
  datatype StartMove = StartMove(core: Core, point: StartPoint, event: Option<Event>)
  datatype LoopMove = LoopMove(core: Core, event: Option<Event>)
  datatype StopMove = StopMove(core: Core, point: StopPoint)

  /**
  `ok` of a Start step is the answer of the call it makes (Register, NextTask); `tick` says that
  the ticker won the select, `busy` what the executor's load says; `Others` is every change that
  other users make to the registry: to other agents' records, and the removal of this agent's.
  */
  datatype Action =
    | StartStep(pid: Pid, ok: bool)
    | StopStep(pid: Pid)
    | LoopStep(tick: bool, busy: bool)
    | CancelParent
    | Others(registry: map<string, Status>)

  predicate RunCtxDone(c: Core) {
    c.parentDone || c.runDone
  }

  /** Agent.Start with InProcessMasterClient.Register, StreamTasks and Deregister. */
  function StepStart(c: Core, p: Pid, pt: StartPoint, ok: bool): StartMove {
    match pt
    case Calling =>
      if c.started then StartMove(c, Returned(AlreadyStarted), None)
      else if !c.masterSet then StartMove(c, Returned(NoMaster), None)
      else StartMove(c.(started := true, cancelSet := true, status := Registered, owner := Some(p)),
                     RegGet, Some(Passed(p)))
    case RegGet => StartMove(c, if c.id in c.registry then RegDrop else RegAdd, None)
    case RegDrop => StartMove(c.(registry := c.registry - {c.id}), RegAdd, None)
    case RegAdd =>
      if !ok || c.id == "" || c.id in c.registry then StartMove(c, RegCancel, None)
      else StartMove(c.(registry := c.registry[c.id := Registered]), Spawning, Some(AgentRegistered))
    case RegCancel => StartMove(c.(runDone := true), RegFlip, None)
    case RegFlip => StartMove(c.(status := Offline), Returned(RegisterFailed), None)
    case Spawning => StartMove(c.(loop := Select), StreamHead, None)
    case StreamHead => StartMove(c, if RunCtxDone(c) then HeartbeatCancel else StreamPull, None)
    case StreamPull => if ok then StartMove(c, InTask, Some(TaskBegan)) else StartMove(c, StreamHead, None)
    case InTask => StartMove(c, StreamHead, Some(TaskEnded))
    case HeartbeatCancel => StartMove(c.(heartbeatDone := true), Deregister, None)
    case Deregister => StartMove(c.(registry := c.registry - {c.id}), Flip, Some(Deregistered))
    case Flip => StartMove(c.(status := Offline, cancelSet := false), Returned(Finished), Some(Flipped))
    case Returned(_) => StartMove(c, pt, None)
  }

  /** Where heartbeatLoop and InProcessMasterClient.SendHeartbeat go on. */
  function NextPoint(c: Core, tick: bool): LoopPoint {
    match c.loop
    case NotSpawned => NotSpawned
    case Select => if tick then Stats else if c.heartbeatDone || RunCtxDone(c) then Exited else Select
    case Stats => Lookup
    case Lookup => if c.id in c.registry then Beat else AutoRegister
    case AutoRegister => Beat
    case Beat => Select
    case Exited => Exited
  }

  /** Registers: an empty or a known id is refused, and the refusal is ignored. */
  predicate AutoRegisters(c: Core) {
    c.loop == AutoRegister && c.id != "" && c.id !in c.registry
  }

  predicate Beats(c: Core) {
    c.loop == Beat && c.id in c.registry
  }

  function LoopRegistry(c: Core, load: Status): map<string, Status> {
    if AutoRegisters(c) then c.registry[c.id := Registered]
    else if Beats(c) then c.registry[c.id := load]
    else c.registry
  }

  function LoopEvent(c: Core, tick: bool): Option<Event> {
    if c.loop == Select && NextPoint(c, tick) == Exited then Some(LoopExited)
    else if c.loop == Stats then Some(StatsTaken)
    else if c.loop == Lookup then Some(LookedUp)
    else if AutoRegisters(c) then Some(AutoRegistered)
    else if Beats(c) then Some(Beaten)
    else None
  }

  /** One step of heartbeatLoop with InProcessMasterClient.SendHeartbeat. */
  function StepLoop(c: Core, tick: bool, busy: bool): LoopMove {
    var load := if busy then Busy else Idle;
    LoopMove(c.(status := if c.loop == Stats then load else c.status,
                registry := LoopRegistry(c, load),
                loop := NextPoint(c, tick)),
             LoopEvent(c, tick))
  }

  /** Agent.Stop. */
  function StepStop(c: Core, pt: StopPoint): StopMove {
    match pt
    case StopCalling => StopMove(c, if c.started then Captured(c.cancelSet) else StopReturned(false))
    case Captured(hasCancel) => StopMove(c.(runDone := c.runDone || hasCancel), StopReturned(true))
    case StopReturned(_) => StopMove(c, pt)
  }

  function Record(log: seq<Event>, e: Option<Event>): seq<Event> {
    if e.Some? then log + [e.value] else log
  }

  function Step(s: State, a: Action): State {
    match a
    case StartStep(p, ok) =>
      if p !in s.starts then s else
      var m := StepStart(s.core, p, s.starts[p], ok);
      s.(core := m.core, starts := s.starts[p := m.point], log := Record(s.log, m.event))
    case StopStep(p) =>
      if p !in s.stops then s else
      var m := StepStop(s.core, s.stops[p]);
      s.(core := m.core, stops := s.stops[p := m.point])
    case LoopStep(tick, busy) =>
      var m := StepLoop(s.core, tick, busy);
      s.(core := m.core, log := Record(s.log, m.event))
    case CancelParent => s.(core := s.core.(parentDone := true))
    case Others(registry) =>
      if SameRecord(s.core, registry) then s.(core := s.core.(registry := registry))
      else if s.core.id !in registry then
        s.(core := s.core.(registry := registry),
           log := if AgentRegistered in s.log then s.log + [RecordRemoved] else s.log)
      else s
  }

  /** A change that leaves this agent's own record as it is. */
  predicate SameRecord(c: Core, registry: map<string, Status>) {
    if c.id in c.registry then c.id in registry && registry[c.id] == c.registry[c.id]
    else c.id !in registry
  }

  function Exec(s: State, acts: seq<Action>): State
    decreases |acts|
  {
    if acts == [] then s else Exec(Step(s, acts[0]), acts[1..])
  }

  ghost predicate Initial(s: State) {
    && s.core.id != "" && !s.core.started && s.core.status == Offline && !s.core.cancelSet
    && !s.core.runDone && !s.core.heartbeatDone && s.core.loop == NotSpawned
    && s.core.owner == None && s.log == []
    && (forall p | p in s.starts :: s.starts[p] == Calling)
    && (forall p | p in s.stops :: s.stops[p] == StopCalling)
  }

  // ----- order of events

  predicate OfLoop(e: Event) {
    e.StatsTaken? || e.LookedUp? || e.AutoRegistered? || e.Beaten? || e.LoopExited?
  }

  predicate OfTask(e: Event) {
    e.TaskBegan? || e.TaskEnded?
  }

  /** What a log says happened, as far as the proofs need it. */
  datatype Seen = Seen(
    any: bool, registered: bool, deregistered: bool, flipped: bool, exited: bool, removed: bool, present: bool,
    lookedAfterDeregister: bool, statsAfterFlip: bool)

  function Note(h: Seen, e: Event): Seen {
    Seen(true,
         h.registered || e.AgentRegistered?,
         h.deregistered || e.Deregistered?,
         h.flipped || e.Flipped?,
         h.exited || e.LoopExited?,
         h.removed || e.RecordRemoved?,
         e.AgentRegistered? || e.AutoRegistered? || (h.present && !e.Deregistered? && !e.RecordRemoved?),
         h.lookedAfterDeregister || (e.LookedUp? && h.deregistered),
         h.statsAfterFlip || (e.StatsTaken? && h.flipped))
  }

  function History(log: seq<Event>): Seen {
    if log == [] then Seen(false, false, false, false, false, false, false, false, false)
    else Note(History(log[..|log| - 1]), log[|log| - 1])
  }

  /** What must and must not have happened before event `e`. */
  predicate InOrder(h: Seen, e: Event) {
    && (e.Passed? <==> !h.any)
    && (!e.Passed? && !e.AgentRegistered? ==> h.registered)
    && (OfTask(e) ==> !h.deregistered)
    && (e.Flipped? ==> h.deregistered && !h.flipped)
    && (OfLoop(e) ==> !h.exited)
    && (e.AgentRegistered? ==> !h.registered)
    && (e.Deregistered? ==> !h.deregistered)
  }

  ghost predicate LogInOrder(log: seq<Event>) {
    log == [] || (LogInOrder(log[..|log| - 1]) && InOrder(History(log[..|log| - 1]), log[|log| - 1]))
  }

  // ----- where the successful Start is

  function OwnPoint(s: State): StartPoint {
    if s.core.owner.Some? && s.core.owner.value in s.starts then s.starts[s.core.owner.value] else Calling
  }

  /** Progress of a Start call past its registration; 0 before or without it. */
  function Rank(pt: StartPoint): nat {
    match pt
    case Spawning => 1
    case StreamHead => 2
    case StreamPull => 2
    case InTask => 2
    case HeartbeatCancel => 2
    case Deregister => 2
    case Flip => 3
    case Returned(Finished) => 4
    case _ => 0
  }

  predicate PastGuard(pt: StartPoint) {
    pt != Calling && pt != Returned(AlreadyStarted) && pt != Returned(NoMaster)
  }

  /** What the fields say, given where the successful Start is (`own`) and what happened. */
  predicate CoreInv(c: Core, own: StartPoint, h: Seen) {
    && c.id != ""
    && (c.started <==> c.owner.Some?) && (c.owner.Some? <==> h.any)
    && (c.owner.Some? <==> PastGuard(own))
    && (h.registered <==> Rank(own) >= 1)
    && (c.loop != NotSpawned <==> Rank(own) >= 2)
    && (h.deregistered <==> Rank(own) >= 3)
    && (h.flipped <==> Rank(own) >= 4)
    && (h.exited <==> c.loop == Exited)
    && (c.cancelSet <==> c.started && !h.flipped)
    && RecordInv(c, own, h)
  }

  predicate RecordInv(c: Core, own: StartPoint, h: Seen) {
    && (h.registered ==> (c.id in c.registry <==> h.present))
    && (!h.removed ==> UndisturbedInv(c, own, h))
    && (h.flipped ==> (c.status == Offline <==> !h.statsAfterFlip))
    && (h.statsAfterFlip ==> h.flipped)
  }

  /** What holds of the record as long as nobody else has removed it. */
  predicate UndisturbedInv(c: Core, own: StartPoint, h: Seen) {
    && (1 <= Rank(own) <= 2 ==> c.id in c.registry)
    && (c.loop == AutoRegister ==> h.lookedAfterDeregister)
    && (h.deregistered && c.id in c.registry ==> h.lookedAfterDeregister)
    && (h.lookedAfterDeregister ==> h.deregistered && (c.id in c.registry || c.loop == AutoRegister))
  }

  predicate StopInv(c: Core, pt: StopPoint, h: Seen) {
    && (pt == Captured(false) ==> h.flipped)
    && (pt == StopReturned(true) ==> c.runDone || h.flipped)
  }

  ghost predicate Inv(s: State) {
    var h := History(s.log);
    && CoreInv(s.core, OwnPoint(s), h)
    && (s.core.owner.Some? ==> s.core.owner.value in s.starts)
    && (forall p | p in s.starts :: PastGuard(s.starts[p]) <==> s.core.owner == Some(p))
    && (forall p | p in s.stops :: StopInv(s.core, s.stops[p], h))
    && LogInOrder(s.log)
  }

  function Then(h: Seen, e: Option<Event>): Seen {
    if e.Some? then Note(h, e.value) else h
  }

  predicate Orderly(h: Seen, e: Option<Event>) {
    e.Some? ==> InOrder(h, e.value)
  }

  predicate Registering(pt: StartPoint) {
    pt == RegGet || pt == RegDrop || pt == RegAdd || pt == RegCancel || pt == RegFlip
  }

  predicate Streaming(pt: StartPoint) {
    pt == Spawning || pt == StreamHead || pt == StreamPull || pt == InTask
  }

  lemma RegisteringKeeps(c: Core, p: Pid, own: StartPoint, ok: bool, h: Seen)
    requires CoreInv(c, own, h) && Registering(own)
    ensures var m := StepStart(c, p, own, ok);
            && CoreInv(m.core, m.point, Then(h, m.event)) && PastGuard(m.point)
            && m.core.owner == c.owner && Orderly(h, m.event)
            && (c.runDone ==> m.core.runDone)
  {
  }

  lemma StreamingKeeps(c: Core, p: Pid, own: StartPoint, ok: bool, h: Seen)
    requires CoreInv(c, own, h) && Streaming(own)
    ensures var m := StepStart(c, p, own, ok);
            && CoreInv(m.core, m.point, Then(h, m.event)) && PastGuard(m.point)
            && m.core.owner == c.owner && Orderly(h, m.event)
            && (c.runDone ==> m.core.runDone)
  {
  }

  lemma LeavingKeeps(c: Core, p: Pid, own: StartPoint, ok: bool, h: Seen)
    requires CoreInv(c, own, h) && PastGuard(own) && !Registering(own) && !Streaming(own)
    ensures var m := StepStart(c, p, own, ok);
            && CoreInv(m.core, m.point, Then(h, m.event)) && PastGuard(m.point)
            && m.core.owner == c.owner && Orderly(h, m.event)
            && (c.runDone ==> m.core.runDone)
  {
  }

  /** The Start that passed the guard goes on. */
  lemma OwnStartKeeps(c: Core, p: Pid, own: StartPoint, ok: bool, h: Seen)
    requires CoreInv(c, own, h) && PastGuard(own)
    ensures var m := StepStart(c, p, own, ok);
            && CoreInv(m.core, m.point, Then(h, m.event)) && PastGuard(m.point)
            && m.core.owner == c.owner && Orderly(h, m.event)
            && (c.runDone ==> m.core.runDone)
  {
    if Registering(own) {
      RegisteringKeeps(c, p, own, ok, h);
    } else if Streaming(own) {
      StreamingKeeps(c, p, own, ok, h);
    } else {
      LeavingKeeps(c, p, own, ok, h);
    }
  }

  /** A Start enters, passes the guard or is refused. */
  lemma NewStartKeeps(c: Core, p: Pid, own: StartPoint, ok: bool, h: Seen)
    requires CoreInv(c, own, h)
    ensures var m := StepStart(c, p, Calling, ok);
            && (if c.started || !c.masterSet then m.core == c && m.event == None && !PastGuard(m.point)
                else CoreInv(m.core, m.point, Then(h, m.event)) && m.core.owner == Some(p) && PastGuard(m.point))
            && Orderly(h, m.event) && m.core.runDone == c.runDone
  {
  }

  lemma SelectKeeps(c: Core, own: StartPoint, tick: bool, busy: bool, h: Seen)
    requires CoreInv(c, own, h) && (c.loop.Select? || c.loop.Stats?)
    ensures var m := StepLoop(c, tick, busy);
            && CoreInv(m.core, own, Then(h, m.event)) && m.core.owner == c.owner
            && Orderly(h, m.event) && m.core.runDone == c.runDone
  {
  }

  lemma LookupKeeps(c: Core, own: StartPoint, tick: bool, busy: bool, h: Seen)
    requires CoreInv(c, own, h) && c.loop.Lookup?
    ensures var m := StepLoop(c, tick, busy);
            && CoreInv(m.core, own, Then(h, m.event)) && m.core.owner == c.owner
            && Orderly(h, m.event) && m.core.runDone == c.runDone
  {
  }

  lemma AutoRegisterKeeps(c: Core, own: StartPoint, tick: bool, busy: bool, h: Seen)
    requires CoreInv(c, own, h) && c.loop.AutoRegister?
    ensures var m := StepLoop(c, tick, busy);
            && CoreInv(m.core, own, Then(h, m.event)) && m.core.owner == c.owner
            && Orderly(h, m.event) && m.core.runDone == c.runDone
  {
  }

  /** Only the record's load changes, so the record is there exactly as before. */
  lemma RefreshKeeps(c: Core, own: StartPoint, load: Status, h: Seen)
    requires CoreInv(c, own, h) && c.loop.Beat? && c.id in c.registry
    ensures CoreInv(c.(registry := c.registry[c.id := load], loop := Select), own, Then(h, Some(Beaten)))
    ensures Orderly(h, Some(Beaten))
  {
  }

  lemma BeatKeeps(c: Core, own: StartPoint, tick: bool, busy: bool, h: Seen)
    requires CoreInv(c, own, h) && c.loop.Beat?
    ensures var m := StepLoop(c, tick, busy);
            && CoreInv(m.core, own, Then(h, m.event)) && m.core.owner == c.owner
            && Orderly(h, m.event) && m.core.runDone == c.runDone
  {
    var load := if busy then Busy else Idle;
    if c.id in c.registry {
      assert StepLoop(c, tick, busy) ==
             LoopMove(c.(registry := c.registry[c.id := load], loop := Select), Some(Beaten));
      RefreshKeeps(c, own, load, h);
    } else {
      assert StepLoop(c, tick, busy) == LoopMove(c.(loop := Select), None);
      MissKeeps(c, own, h);
    }
  }

  lemma MissKeeps(c: Core, own: StartPoint, h: Seen)
    requires CoreInv(c, own, h) && c.loop.Beat?
    ensures CoreInv(c.(loop := Select), own, h)
  {
  }

  lemma LoopKeeps(c: Core, own: StartPoint, tick: bool, busy: bool, h: Seen)
    requires CoreInv(c, own, h)
    ensures var m := StepLoop(c, tick, busy);
            && CoreInv(m.core, own, Then(h, m.event)) && m.core.owner == c.owner
            && Orderly(h, m.event) && m.core.runDone == c.runDone
  {
    if c.loop.Select? || c.loop.Stats? {
      SelectKeeps(c, own, tick, busy, h);
    } else if c.loop.Lookup? {
      LookupKeeps(c, own, tick, busy, h);
    } else if c.loop.AutoRegister? {
      AutoRegisterKeeps(c, own, tick, busy, h);
    } else if c.loop.Beat? {
      BeatKeeps(c, own, tick, busy, h);
    }
  }

  lemma StopKeeps(c: Core, own: StartPoint, pt: StopPoint, h: Seen)
    requires CoreInv(c, own, h) && StopInv(c, pt, h)
    ensures var m := StepStop(c, pt);
            && CoreInv(m.core, own, h) && StopInv(m.core, m.point, h)
            && m.core.owner == c.owner && (c.runDone ==> m.core.runDone)
  {
  }

  lemma Append(log: seq<Event>, e: Option<Event>)
    ensures History(Record(log, e)) == Then(History(log), e)
    ensures LogInOrder(log) && Orderly(History(log), e) ==> LogInOrder(Record(log, e))
  {
    if e.Some? {
      assert (log + [e.value])[..|log|] == log;
    }
  }

  /** A Stop's promise survives whatever happens later. */
  lemma StopInvLasts(c: Core, d: Core, pt: StopPoint, h: Seen, e: Option<Event>)
    requires StopInv(c, pt, h) && (c.runDone ==> d.runDone)
    ensures StopInv(d, pt, Then(h, e))
  {
  }

  /** Process `p`'s Start moved as `m` says; everyone else stayed. */
  lemma GlueStart(s: State, p: Pid, m: StartMove)
    requires Inv(s) && p in s.starts && (s.core.runDone ==> m.core.runDone)
    requires Orderly(History(s.log), m.event)
    requires || (PastGuard(s.starts[p]) && PastGuard(m.point) && m.core.owner == s.core.owner
                 && CoreInv(m.core, m.point, Then(History(s.log), m.event)))
             || (!PastGuard(s.starts[p]) && !PastGuard(m.point) && m.core == s.core && m.event == None)
             || (!s.core.started && PastGuard(m.point) && m.core.owner == Some(p)
                 && CoreInv(m.core, m.point, Then(History(s.log), m.event)))
    ensures Inv(State(m.core, s.starts[p := m.point], s.stops, Record(s.log, m.event)))
  {
    var t := State(m.core, s.starts[p := m.point], s.stops, Record(s.log, m.event));
    Append(s.log, m.event);
    forall q | q in t.stops ensures StopInv(t.core, t.stops[q], History(t.log)) {
      StopInvLasts(s.core, t.core, t.stops[q], History(s.log), m.event);
    }
    if !PastGuard(m.point) {
      assert OwnPoint(t) == OwnPoint(s);
    } else {
      assert OwnPoint(t) == m.point;
    }
  }

  lemma StartKeepsInv(s: State, p: Pid, ok: bool)
    requires Inv(s)
    ensures Inv(Step(s, StartStep(p, ok)))
  {
    if p in s.starts {
      var pt := s.starts[p];
      if PastGuard(pt) {
        OwnStartKeeps(s.core, p, pt, ok, History(s.log));
      } else if pt == Calling {
        NewStartKeeps(s.core, p, OwnPoint(s), ok, History(s.log));
      }
      GlueStart(s, p, StepStart(s.core, p, pt, ok));
    }
  }

  lemma GlueRest(s: State, core: Core, e: Option<Event>)
    requires Inv(s) && core.owner == s.core.owner && (s.core.runDone ==> core.runDone)
    requires CoreInv(core, OwnPoint(s), Then(History(s.log), e)) && Orderly(History(s.log), e)
    ensures Inv(State(core, s.starts, s.stops, Record(s.log, e)))
  {
    var t := State(core, s.starts, s.stops, Record(s.log, e));
    Append(s.log, e);
    forall q | q in t.stops ensures StopInv(t.core, t.stops[q], History(t.log)) {
      StopInvLasts(s.core, t.core, t.stops[q], History(s.log), e);
    }
    assert OwnPoint(t) == OwnPoint(s);
  }

  lemma StopStepKeepsInv(s: State, p: Pid)
    requires Inv(s)
    ensures Inv(Step(s, StopStep(p)))
  {
    if p in s.stops {
      StopKeeps(s.core, OwnPoint(s), s.stops[p], History(s.log));
      var m := StepStop(s.core, s.stops[p]);
      GlueRest(s, m.core, None);
      var t := State(m.core, s.starts, s.stops, s.log);
      assert OwnPoint(Step(s, StopStep(p))) == OwnPoint(t);
    }
  }

  lemma StepKeepsInv(s: State, a: Action)
    requires Inv(s)
    ensures Inv(Step(s, a))
  {
    match a
    case StartStep(p, ok) => StartKeepsInv(s, p, ok);
    case StopStep(p) => StopStepKeepsInv(s, p);
    case LoopStep(tick, busy) =>
      LoopKeeps(s.core, OwnPoint(s), tick, busy, History(s.log));
      var m := StepLoop(s.core, tick, busy);
      GlueRest(s, m.core, m.event);
    case CancelParent => GlueRest(s, s.core.(parentDone := true), None);
    case Others(registry) => OthersKeepInv(s, registry);
  }

  lemma OthersKeepInv(s: State, registry: map<string, Status>)
    requires Inv(s)
    ensures Inv(Step(s, Others(registry)))
  {
    if SameRecord(s.core, registry) {
      SameRecordKeeps(s.core, OwnPoint(s), registry, History(s.log));
      GlueRest(s, s.core.(registry := registry), None);
    } else if s.core.id !in registry {
      RemovalKeepsInv(s, registry);
    }
  }

  lemma SameRecordKeeps(c: Core, own: StartPoint, registry: map<string, Status>, h: Seen)
    requires CoreInv(c, own, h) && SameRecord(c, registry)
    ensures CoreInv(c.(registry := registry), own, h)
  {
  }

  lemma RegisteredSeen(log: seq<Event>)
    ensures AgentRegistered in log <==> History(log).registered
  {
    HistoryMeaning(log);
    assert AgentRegistered in log <==> Earlier(log, AgentRegistered, |log|);
  }

  lemma RemovalKeepsInv(s: State, registry: map<string, Status>)
    requires Inv(s) && s.core.id !in registry
    ensures var e := if AgentRegistered in s.log then Some(RecordRemoved) else None;
            Inv(State(s.core.(registry := registry), s.starts, s.stops, Record(s.log, e)))
  {
    RegisteredSeen(s.log);
    RemovalKeeps(s.core, OwnPoint(s), registry, History(s.log));
    GlueRest(s, s.core.(registry := registry), if AgentRegistered in s.log then Some(RecordRemoved) else None);
  }

  lemma RemovalKeeps(c: Core, own: StartPoint, registry: map<string, Status>, h: Seen)
    requires CoreInv(c, own, h) && c.id !in registry
    ensures var e := if h.registered then Some(RecordRemoved) else None;
            CoreInv(c.(registry := registry), own, Then(h, e)) && Orderly(h, e)
  {
  }

  lemma {:induction false} ExecKeepsInv(s: State, acts: seq<Action>)
    requires Inv(s)
    ensures Inv(Exec(s, acts))
    decreases |acts|
  {
    if acts != [] {
      StepKeepsInv(s, acts[0]);
      ExecKeepsInv(Step(s, acts[0]), acts[1..]);
    }
  }

  // ----- what the history and the order mean on the log itself

  ghost predicate Earlier(log: seq<Event>, e: Event, i: nat)
    requires i <= |log|
  {
    exists r {:trigger log[r]} | 0 <= r < i :: log[r] == e
  }

  lemma {:induction false} HistoryMeaning(log: seq<Event>)
    ensures var h := History(log);
            && (h.any <==> log != [])
            && (h.registered <==> Earlier(log, AgentRegistered, |log|))
            && (h.deregistered <==> Earlier(log, Deregistered, |log|))
            && (h.flipped <==> Earlier(log, Flipped, |log|))
            && (h.exited <==> Earlier(log, LoopExited, |log|))
  {
    if log != [] {
      var init := log[..|log| - 1];
      HistoryMeaning(init);
      forall e ensures Earlier(log, e, |log|) <==> Earlier(init, e, |init|) || log[|log| - 1] == e {
        EarlierSplit(log, e);
      }
    }
  }

  lemma EarlierSplit(log: seq<Event>, e: Event)
    requires log != []
    ensures var init := log[..|log| - 1];
            Earlier(log, e, |log|) <==> Earlier(init, e, |init|) || log[|log| - 1] == e
  {
    var init := log[..|log| - 1];
    if Earlier(log, e, |log|) {
      var r :| 0 <= r < |log| && log[r] == e;
      assert r < |init| ==> init[r] == e;
    }
    if Earlier(init, e, |init|) {
      var r :| 0 <= r < |init| && init[r] == e;
      assert log[r] == e;
    }
  }

  /** Some `late` event comes after some `mark` event. */
  ghost predicate Follows(log: seq<Event>, mark: Event, late: Event) {
    exists j {:trigger log[j]} | 0 <= j < |log| :: log[j] == late && Earlier(log, mark, j)
  }

  lemma {:induction false} LateMeaning(log: seq<Event>)
    ensures History(log).lookedAfterDeregister <==> Follows(log, Deregistered, LookedUp)
    ensures History(log).statsAfterFlip <==> Follows(log, Flipped, StatsTaken)
  {
    if log != [] {
      var init := log[..|log| - 1];
      LateMeaning(init);
      HistoryMeaning(init);
      FollowsSplit(log, |init|, Deregistered, LookedUp);
      FollowsSplit(log, |init|, Flipped, StatsTaken);
    }
  }

  lemma EarlierPrefix(log: seq<Event>, n: nat, e: Event, i: nat)
    requires i <= n <= |log|
    ensures Earlier(log, e, i) <==> Earlier(log[..n], e, i)
  {
    if Earlier(log, e, i) {
      var r :| 0 <= r < i && log[r] == e;
      assert log[..n][r] == e;
    }
    if Earlier(log[..n], e, i) {
      var r :| 0 <= r < i && log[..n][r] == e;
      assert log[r] == e;
    }
  }

  lemma FollowsGrows(log: seq<Event>, n: nat, mark: Event, late: Event)
    requires n + 1 == |log|
    requires Follows(log[..n], mark, late) || (log[n] == late && Earlier(log[..n], mark, n))
    ensures Follows(log, mark, late)
  {
    if Follows(log[..n], mark, late) {
      var j :| 0 <= j < n && log[..n][j] == late && Earlier(log[..n], mark, j);
      EarlierPrefix(log, n, mark, j);
      assert log[j] == late;
    } else {
      EarlierPrefix(log, n, mark, n);
    }
  }

  lemma FollowsSplit(log: seq<Event>, n: nat, mark: Event, late: Event)
    requires n + 1 == |log|
    ensures Follows(log, mark, late) <==>
            Follows(log[..n], mark, late) || (log[n] == late && Earlier(log[..n], mark, n))
  {
    if Follows(log, mark, late) {
      var j :| 0 <= j < |log| && log[j] == late && Earlier(log, mark, j);
      EarlierPrefix(log, n, mark, j);
      if j < n {
        assert log[..n][j] == late;
      }
    } else if Follows(log[..n], mark, late) || (log[n] == late && Earlier(log[..n], mark, n)) {
      FollowsGrows(log, n, mark, late);
    }
  }

  lemma {:induction false} OrderAt(log: seq<Event>, i: nat)
    requires LogInOrder(log) && i < |log|
    ensures InOrder(History(log[..i]), log[i])
    decreases |log|
  {
    if i < |log| - 1 {
      OrderAt(log[..|log| - 1], i);
      assert log[..|log| - 1][..i] == log[..i];
    }
  }

  /** The order of one event relative to those before it, in terms of positions. */
  lemma OrderOf(log: seq<Event>, i: nat)
    requires LogInOrder(log) && i < |log|
    ensures log[i].Passed? <==> i == 0
    ensures i > 0 && !log[i].AgentRegistered? ==> Earlier(log, AgentRegistered, i)
    ensures OfTask(log[i]) ==> !Earlier(log, Deregistered, i)
    ensures log[i].Flipped? ==> Earlier(log, Deregistered, i)
    ensures OfLoop(log[i]) ==> !Earlier(log, LoopExited, i)
    ensures log[i] in {AgentRegistered, Deregistered, Flipped, LoopExited} ==> !Earlier(log, log[i], i)
  {
    OrderAt(log, i);
    var before := log[..i];
    HistoryMeaning(before);
    forall e ensures Earlier(log, e, i) <==> Earlier(before, e, |before|) {
      EarlierPrefix(log, i, e, i);
    }
  }

  // ----- the theorems

  lemma InitialInv(s: State)
    requires Initial(s)
    ensures Inv(s)
  {
  }

  /**
  Over every interleaving of any number of Start and Stop calls: one Start passes the guard and
  that is the first thing that happens; registration comes before every heartbeat and every
  task, tasks before deregistration, deregistration before the final status flip; the loop is
  silent once it has exited; registration, deregistration and flip happen at most once.
  */
  lemma AgentOrder(s0: State, acts: seq<Action>)
    requires Initial(s0)
    ensures var s := Exec(s0, acts);
            && (forall p, q | p in s.starts && q in s.starts && PastGuard(s.starts[p]) && PastGuard(s.starts[q])
                  :: p == q)
            && (forall i | 0 <= i < |s.log| ::
                  && (s.log[i].Passed? <==> i == 0)
                  && (i > 0 && !s.log[i].AgentRegistered? ==> Earlier(s.log, AgentRegistered, i))
                  && (OfTask(s.log[i]) ==> !Earlier(s.log, Deregistered, i))
                  && (s.log[i].Flipped? ==> Earlier(s.log, Deregistered, i))
                  && (OfLoop(s.log[i]) ==> !Earlier(s.log, LoopExited, i))
                  && (s.log[i] in {AgentRegistered, Deregistered, Flipped, LoopExited} ==>
                        !Earlier(s.log, s.log[i], i)))
  {
    InitialInv(s0);
    ExecKeepsInv(s0, acts);
    var s := Exec(s0, acts);
    forall i | 0 <= i < |s.log|
      ensures && (s.log[i].Passed? <==> i == 0)
              && (i > 0 && !s.log[i].AgentRegistered? ==> Earlier(s.log, AgentRegistered, i))
              && (OfTask(s.log[i]) ==> !Earlier(s.log, Deregistered, i))
              && (s.log[i].Flipped? ==> Earlier(s.log, Deregistered, i))
              && (OfLoop(s.log[i]) ==> !Earlier(s.log, LoopExited, i))
              && (s.log[i] in {AgentRegistered, Deregistered, Flipped, LoopExited} ==>
                    !Earlier(s.log, s.log[i], i))
    {
      OrderOf(s.log, i);
    }
  }

  /** A Stop that returns nil has cancelled the run context, unless Start had already wound down. */
  lemma StopStops(s0: State, acts: seq<Action>, p: Pid)
    requires Initial(s0)
    requires var s := Exec(s0, acts); p in s.stops && s.stops[p] == StopReturned(true)
    ensures var s := Exec(s0, acts); s.core.runDone || Earlier(s.log, Flipped, |s.log|)
  {
    InitialInv(s0);
    ExecKeepsInv(s0, acts);
    HistoryMeaning(Exec(s0, acts).log);
  }

  /**
  The end state.  Once Start has returned after a run and the heartbeat loop has exited, the
  registry still holds the agent exactly when some registration of it was followed neither by the
  deregistration nor by a removal; as long as nobody else removed the record, exactly when a
  heartbeat looked the agent up after Start deregistered it.  The agent calls itself offline
  exactly when no heartbeat took its statistics after the final flip.  If the loop exited before
  the deregistration, the record is gone and the status is offline.
  */
  lemma AgentEndState(s0: State, acts: seq<Action>, p: Pid)
    requires Initial(s0)
    requires var s := Exec(s0, acts);
             p in s.starts && s.starts[p] == Returned(Finished) && s.core.loop == Exited
    ensures var s := Exec(s0, acts);
            && (s.core.id in s.core.registry <==> LastRegistered(s.log))
            && (RecordRemoved !in s.log ==>
                  (s.core.id in s.core.registry <==> Follows(s.log, Deregistered, LookedUp)))
            && (s.core.status == Offline <==> !Follows(s.log, Flipped, StatsTaken))
            && (Follows(s.log, LoopExited, Deregistered) ==>
                  s.core.id !in s.core.registry && s.core.status == Offline)
  {
    InitialInv(s0);
    ExecKeepsInv(s0, acts);
    var s := Exec(s0, acts);
    EndFacts(s.core, OwnPoint(s), History(s.log));
    LateMeaning(s.log);
    PresentMeaning(s.log);
    if Follows(s.log, LoopExited, Deregistered) {
      NothingAfterExit(s.log);
    }
  }

  lemma EndFacts(c: Core, own: StartPoint, h: Seen)
    requires CoreInv(c, own, h) && own == Returned(Finished) && c.loop == Exited
    ensures c.id in c.registry <==> h.present
    ensures !h.removed ==> (c.id in c.registry <==> h.lookedAfterDeregister)
    ensures c.status == Offline <==> !h.statsAfterFlip
  {
  }

  predicate Registers(e: Event) {
    e.AgentRegistered? || e.AutoRegistered?
  }

  predicate Removes(e: Event) {
    e.Deregistered? || e.RecordRemoved?
  }

  /** Event j registers the agent and nothing after it removes the record. */
  ghost predicate StaysAfter(log: seq<Event>, j: nat) {
    j < |log| && Registers(log[j]) && forall k | j < k < |log| :: !Removes(log[k])
  }

  ghost predicate LastRegistered(log: seq<Event>) {
    exists j: nat :: StaysAfter(log, j)
  }

  lemma LastRegisteredSplit(log: seq<Event>, e: Event)
    ensures LastRegistered(log + [e]) <==> Registers(e) || (LastRegistered(log) && !Removes(e))
  {
    var more := log + [e];
    assert more[|log|] == e;
    if LastRegistered(log) && !Removes(e) {
      var j: nat :| StaysAfter(log, j);
      assert StaysAfter(more, j);
    }
    if Registers(e) {
      assert StaysAfter(more, |log|);
    }
    if LastRegistered(more) && !Registers(e) {
      var j: nat :| StaysAfter(more, j);
      assert StaysAfter(log, j) by {
        assert forall k | 0 <= k < |log| :: more[k] == log[k];
      }
    }
  }

  lemma {:induction false} PresentMeaning(log: seq<Event>)
    ensures History(log).present <==> LastRegistered(log)
    ensures History(log).removed <==> RecordRemoved in log
  {
    if log != [] {
      var init, e := log[..|log| - 1], log[|log| - 1];
      assert log == init + [e];
      PresentMeaning(init);
      LastRegisteredSplit(init, e);
    }
  }

  /** A loop that exits before the deregistration neither looks up after it nor reports after the flip. */
  lemma NothingAfterExit(log: seq<Event>)
    requires LogInOrder(log) && Follows(log, LoopExited, Deregistered)
    ensures !Follows(log, Deregistered, LookedUp) && !Follows(log, Flipped, StatsTaken) && !LastRegistered(log)
  {
    NoLateRegistration(log);
    var d :| 0 <= d < |log| && log[d] == Deregistered && Earlier(log, LoopExited, d);
    var x :| 0 <= x < d && log[x] == LoopExited;
    forall j | 0 <= j < |log| && (log[j] == LookedUp || log[j] == StatsTaken)
      ensures !Earlier(log, Deregistered, j) && !Earlier(log, Flipped, j)
    {
      OrderOf(log, j);
      if Earlier(log, Flipped, j) {
        var f :| 0 <= f < j && log[f] == Flipped;
        OrderOf(log, f);
      }
      if Earlier(log, Deregistered, j) {
        var e :| 0 <= e < j && log[e] == Deregistered;
        OrderOf(log, d);
      }
    }
  }

  lemma NoLateRegistration(log: seq<Event>)
    requires LogInOrder(log) && Follows(log, LoopExited, Deregistered)
    ensures !LastRegistered(log)
  {
    var d :| 0 <= d < |log| && log[d] == Deregistered && Earlier(log, LoopExited, d);
    forall j: nat ensures !StaysAfter(log, j) {
      if j < |log| && Registers(log[j]) {
        OrderOf(log, j);
        OrderOf(log, d);
        assert j < d;
      }
    }
  }

  // ----- the late heartbeat

  lemma {:induction false} ExecSplit(s: State, a: seq<Action>, b: seq<Action>)
    ensures Exec(s, a + b) == Exec(Exec(s, a), b)
    decreases |a|
  {
    if a == [] {
      assert a + b == b;
    } else {
      assert (a + b)[1..] == a[1..] + b;
      ExecSplit(Step(s, a[0]), a[1..], b);
    }
  }

  lemma ExecThree(s: State, a: Action, b: Action, c: Action)
    ensures Exec(s, [a, b, c]) == Step(Step(Step(s, a), b), c)
  {
    assert [a, b, c][1..] == [b, c] && [b, c][1..] == [c] && [c][1..] == [];
    var s1 := Step(s, a);
    var s2 := Step(s1, b);
    assert Exec(s, [a, b, c]) == Exec(s1, [b, c]) == Exec(s2, [c]) == Exec(Step(s2, c), []);
  }

  /**
  From every state in which Start is about to deregister while a heartbeat is about to look the
  agent up, some schedule ends with Start returned, the loop exited and the record back.
  */
  lemma LateHeartbeatRevivesRecord(s: State, p: Pid) returns (acts: seq<Action>)
    requires s.core.id != "" && p in s.starts && s.starts[p] == Deregister
    requires s.core.loop == Lookup && s.core.heartbeatDone
    ensures var t := Exec(s, acts);
            && p in t.starts && t.starts[p] == Returned(Finished) && t.core.loop == Exited
            && t.core.id == s.core.id && t.core.id in t.core.registry
  {
    var revive := [StartStep(p, true), LoopStep(false, false), LoopStep(false, false)];
    var finish := [LoopStep(false, false), StartStep(p, true), LoopStep(false, false)];
    acts := revive + finish;
    ExecSplit(s, revive, finish);
    ReviveSteps(s, p);
    FinishSteps(Exec(s, revive), p);
  }

  lemma ReviveSteps(s: State, p: Pid)
    requires s.core.id != "" && p in s.starts && s.starts[p] == Deregister
    requires s.core.loop == Lookup && s.core.heartbeatDone
    ensures var t := Exec(s, [StartStep(p, true), LoopStep(false, false), LoopStep(false, false)]);
            && p in t.starts && t.starts[p] == Flip && t.core.loop == Beat && t.core.heartbeatDone
            && t.core.id == s.core.id && t.core.id in t.core.registry
  {
    ExecThree(s, StartStep(p, true), LoopStep(false, false), LoopStep(false, false));
  }

  lemma FinishSteps(s: State, p: Pid)
    requires p in s.starts && s.starts[p] == Flip && s.core.loop == Beat && s.core.heartbeatDone
    requires s.core.id in s.core.registry
    ensures var t := Exec(s, [LoopStep(false, false), StartStep(p, true), LoopStep(false, false)]);
            && p in t.starts && t.starts[p] == Returned(Finished) && t.core.loop == Exited
            && t.core.id == s.core.id && t.core.id in t.core.registry
  {
    ExecThree(s, LoopStep(false, false), StartStep(p, true), LoopStep(false, false));
  }

  lemma RegisterSteps(s: State, p: Pid)
    requires Initial(s) && s.core.masterSet && p in s.starts && s.core.id !in s.core.registry
    ensures var t := Exec(s, [StartStep(p, true), StartStep(p, true), StartStep(p, true)]);
            && p in t.starts && t.starts[p] == Spawning && t.core.id == s.core.id
  {
    ExecThree(s, StartStep(p, true), StartStep(p, true), StartStep(p, true));
  }

  lemma SpawnSteps(s: State, p: Pid)
    requires p in s.starts && s.starts[p] == Spawning
    ensures var t := Exec(s, [StartStep(p, true), LoopStep(true, false), LoopStep(true, false)]);
            && p in t.starts && t.starts[p] == StreamHead && t.core.loop == Lookup && t.core.id == s.core.id
  {
    ExecThree(s, StartStep(p, true), LoopStep(true, false), LoopStep(true, false));
  }

  lemma WindDownSteps(s: State, p: Pid)
    requires p in s.starts && s.starts[p] == StreamHead && s.core.loop == Lookup
    ensures var t := Exec(s, [CancelParent, StartStep(p, true), StartStep(p, true)]);
            && p in t.starts && t.starts[p] == Deregister && t.core.loop == Lookup
            && t.core.heartbeatDone && t.core.id == s.core.id
  {
    ExecThree(s, CancelParent, StartStep(p, true), StartStep(p, true));
  }

  /** The race of LateHeartbeatRevivesRecord is reached from every fresh agent. */
  lemma LateHeartbeatIsReachable(s0: State, p: Pid) returns (acts: seq<Action>)
    requires Initial(s0) && s0.core.masterSet && p in s0.starts && s0.core.id !in s0.core.registry
    ensures var t := Exec(s0, acts);
            && p in t.starts && t.starts[p] == Returned(Finished) && t.core.loop == Exited
            && t.core.id in t.core.registry
  {
    var go, beat := StartStep(p, true), LoopStep(true, false);
    var register, spawn, wind := [go, go, go], [go, beat, beat], [CancelParent, go, go];
    RegisterSteps(s0, p);
    var s1 := Exec(s0, register);
    SpawnSteps(s1, p);
    var s2 := Exec(s1, spawn);
    WindDownSteps(s2, p);
    var s3 := Exec(s2, wind);
    var rest := LateHeartbeatRevivesRecord(s3, p);
    acts := register + (spawn + (wind + rest));
    ExecSplit(s0, register, spawn + (wind + rest));
    ExecSplit(s1, spawn, wind + rest);
    ExecSplit(s2, wind, rest);
  }

  /** Stop's comment says that it waits for the loop and the stream; it returns before either ends. */
  lemma StopDoesNotWait(s0: State, p: Pid, q: Pid)
    requires Initial(s0) && s0.core.masterSet && p in s0.starts && q in s0.stops
    ensures var s := Exec(s0, [StartStep(p, true), StopStep(q), StopStep(q)]);
            && q in s.stops && s.stops[q] == StopReturned(true) && s.core.runDone
            && p in s.starts && s.starts[p] == RegGet && !Earlier(s.log, Flipped, |s.log|)
  {
    ExecThree(s0, StartStep(p, true), StopStep(q), StopStep(q));
  }

  /** The successful Start has returned and its heartbeat loop is not running. */
  ghost predicate WoundDown(s: State) {
    OwnPoint(s).Returned? && (s.core.loop == NotSpawned || s.core.loop == Exited)
  }

  lemma StepStaysDown(s: State, a: Action)
    requires Inv(s) && WoundDown(s)
    ensures WoundDown(Step(s, a))
  {
    match a
    case StartStep(p, ok) =>
      if p in s.starts {
        assert PastGuard(s.starts[p]) <==> s.core.owner == Some(p);
        StartStaysDown(s.core, p, s.starts[p], ok);
      }
    case StopStep(p) =>
    case LoopStep(tick, busy) =>
    case CancelParent =>
    case Others(registry) =>
  }

  /** A returned Start stays returned, and no other one passes the guard. */
  lemma StartStaysDown(c: Core, p: Pid, pt: StartPoint, ok: bool)
    requires c.started && (PastGuard(pt) ==> pt.Returned?)
    ensures StepStart(c, p, pt, ok).core == c && (pt.Returned? ==> StepStart(c, p, pt, ok).point == pt)
  {
  }

  lemma {:induction false} StaysDown(s: State, acts: seq<Action>)
    requires Inv(s) && WoundDown(s)
    ensures WoundDown(Exec(s, acts))
    decreases |acts|
  {
    if acts != [] {
      StepStaysDown(s, acts[0]);
      StepKeepsInv(s, acts[0]);
      StaysDown(Step(s, acts[0]), acts[1..]);
    }
  }

  lemma StopTwoSteps(s: State, q: Pid)
    requires s.core.started && q in s.stops && s.stops[q] == StopCalling
    ensures var t := Exec(s, [StopStep(q), StopStep(q)]);
            && q in t.stops && t.stops[q] == StopReturned(true)
            && t.starts == s.starts && t.core.loop == s.core.loop && t.core.owner == s.core.owner
  {
    var a := StopStep(q);
    assert [a, a][1..] == [a] && [a][1..] == [];
    assert Exec(s, [a, a]) == Exec(Step(s, a), [a]) == Exec(Step(Step(s, a), a), []);
  }

  /** Whatever happens in the meantime, this Stop returns nil only when everything has wound down. */
  ghost predicate StopWaits(s: State, q: Pid) {
    forall acts: seq<Action> |
      q in Exec(s, acts).stops && Exec(s, acts).stops[q] == StopReturned(true) :: WoundDown(Exec(s, acts))
  }

  /** The promise in Stop's comment holds for a call exactly when there was nothing to wait for. */
  lemma StopWaitsExactly(s0: State, past: seq<Action>, q: Pid)
    requires Initial(s0)
    requires var s := Exec(s0, past); s.core.started && q in s.stops && s.stops[q] == StopCalling
    ensures StopWaits(Exec(s0, past), q) <==> WoundDown(Exec(s0, past))
  {
    InitialInv(s0);
    ExecKeepsInv(s0, past);
    var s := Exec(s0, past);
    if WoundDown(s) {
      forall acts: seq<Action> ensures WoundDown(Exec(s, acts)) {
        StaysDown(s, acts);
      }
    }
    StopTwoSteps(s, q);
    if StopWaits(s, q) {
      assert WoundDown(Exec(s, [StopStep(q), StopStep(q)]));
    }
  }

  // ----- what a Start leaves behind at each of its points

  /** Start has cancelled the heartbeat context. */
  predicate HasCancelled(pt: StartPoint) {
    pt == Deregister || pt == Flip || pt == Returned(Finished)
  }

  predicate ContextInv(c: Core, own: StartPoint) {
    && (PastGuard(own) ==> c.started && c.masterSet)
    && (HasCancelled(own) ==> c.heartbeatDone)
    && (own == RegFlip || own == Returned(RegisterFailed) ==> c.runDone)
    && (own == Returned(RegisterFailed) ==> c.status == Offline)
    && (Registering(own) || own == Returned(RegisterFailed) ==> c.loop == NotSpawned)
  }

  ghost predicate Contexts(s: State) {
    && ContextInv(s.core, OwnPoint(s))
    && forall q | q in s.stops :: s.stops[q].Captured? || s.stops[q] == StopReturned(true) ==> s.core.started
  }

  lemma StartContext(c: Core, p: Pid, own: StartPoint, ok: bool)
    requires ContextInv(c, own) && PastGuard(own)
    ensures var m := StepStart(c, p, own, ok);
            ContextInv(m.core, m.point) && m.core.owner == c.owner && m.core.started == c.started
  {
    match own
    case RegGet =>
    case RegDrop =>
    case RegAdd =>
    case RegCancel =>
    case RegFlip =>
    case Spawning =>
    case StreamHead =>
    case StreamPull =>
    case InTask =>
    case HeartbeatCancel =>
    case Deregister =>
    case Flip =>
    case Returned(_) =>
  }

  /** A Start that enters when none has passed the guard: nothing is running yet. */
  lemma EntryContext(c: Core, p: Pid, ok: bool)
    requires c.loop == NotSpawned || c.started
    ensures var m := StepStart(c, p, Calling, ok);
            && (c.started || !c.masterSet ==> m.core == c && !PastGuard(m.point))
            && (!c.started && c.masterSet ==> ContextInv(m.core, m.point) && m.core.owner == Some(p) && m.core.started)
  {
  }

  /** The loop changes the status, the registry and its own point, and nothing else. */
  lemma LoopFrame(c: Core, tick: bool, busy: bool)
    ensures var d := StepLoop(c, tick, busy).core;
            d == c.(status := d.status, registry := d.registry, loop := d.loop)
  {
  }

  lemma LoopIdle(c: Core, tick: bool, busy: bool)
    requires c.loop == NotSpawned
    ensures StepLoop(c, tick, busy) == LoopMove(c, None)
  {
  }

  lemma LoopContext(c: Core, own: StartPoint, tick: bool, busy: bool)
    requires ContextInv(c, own)
    ensures var d := StepLoop(c, tick, busy).core; ContextInv(d, own) && d.owner == c.owner && d.started == c.started
  {
    LoopFrame(c, tick, busy);
    if c.loop == NotSpawned {
      LoopIdle(c, tick, busy);
    }
  }

  lemma StartStepContexts(s: State, p: Pid, ok: bool)
    requires Inv(s) && Contexts(s) && p in s.starts
    ensures Contexts(Step(s, StartStep(p, ok)))
  {
    var pt := s.starts[p];
    assert PastGuard(pt) <==> s.core.owner == Some(p);
    if PastGuard(pt) {
      StartContext(s.core, p, pt, ok);
    } else if pt == Calling {
      EntryContext(s.core, p, ok);
    }
  }

  lemma StepKeepsContexts(s: State, a: Action)
    requires Inv(s) && Contexts(s)
    ensures Contexts(Step(s, a))
  {
    match a
    case StartStep(p, ok) =>
      if p in s.starts {
        StartStepContexts(s, p, ok);
      }
    case StopStep(p) =>
    case LoopStep(tick, busy) => LoopContext(s.core, OwnPoint(s), tick, busy);
    case CancelParent =>
    case Others(registry) =>
  }

  lemma {:induction false} ExecKeepsContexts(s: State, acts: seq<Action>)
    requires Inv(s) && Contexts(s)
    ensures Contexts(Exec(s, acts))
    decreases |acts|
  {
    if acts != [] {
      StepKeepsContexts(s, acts[0]);
      StepKeepsInv(s, acts[0]);
      ExecKeepsContexts(Step(s, acts[0]), acts[1..]);
    }
  }

  lemma Reachable(s0: State, acts: seq<Action>)
    requires Initial(s0)
    ensures Inv(Exec(s0, acts)) && Contexts(Exec(s0, acts))
  {
    InitialInv(s0);
    ExecKeepsInv(s0, acts);
    ExecKeepsContexts(s0, acts);
  }

  // ----- Stop does stop

  predicate OfAgent(a: Action) {
    a.StartStep? || a.LoopStep?
  }

  ghost predicate AgentOnly(acts: seq<Action>) {
    forall a | a in acts :: OfAgent(a)
  }

  lemma AgentOnlyAppend(a: Action, acts: seq<Action>)
    requires OfAgent(a) && AgentOnly(acts)
    ensures AgentOnly([a] + acts)
  {
  }

  lemma ExecFirst(s: State, a: Action, acts: seq<Action>)
    ensures Exec(s, [a] + acts) == Exec(Step(s, a), acts)
  {
    assert ([a] + acts)[1..] == acts;
  }

  /** How far a Start call whose run context is cancelled is from its return. */
  function StepsLeft(pt: StartPoint): nat {
    match pt
    case Returned(_) => 0
    case Flip => 1
    case Deregister => 2
    case HeartbeatCancel => 3
    case StreamHead => 4
    case StreamPull => 5
    case InTask => 5
    case Spawning => 5
    case RegFlip => 1
    case RegCancel => 2
    case RegAdd => 6
    case RegDrop => 7
    case RegGet => 8
    case Calling => 9
  }

  function LoopLeft(pt: LoopPoint): nat {
    match pt
    case NotSpawned => 0
    case Exited => 0
    case Select => 1
    case Beat => 2
    case AutoRegister => 3
    case Lookup => 4
    case Stats => 5
  }

  /** Once the run context is cancelled, each step of the Start call brings it nearer to its return. */
  lemma StartStepNearer(c: Core, p: Pid, pt: StartPoint)
    requires c.runDone && PastGuard(pt) && !pt.Returned?
    ensures var m := StepStart(c, p, pt, pt == RegAdd);
            StepsLeft(m.point) < StepsLeft(pt) && m.core.runDone && m.core.owner == c.owner
  {
  }

  lemma {:induction false} StartReturns(s: State) returns (acts: seq<Action>)
    requires Inv(s) && s.core.started && s.core.runDone
    ensures AgentOnly(acts) && Inv(Exec(s, acts))
    ensures OwnPoint(Exec(s, acts)).Returned? && Exec(s, acts).core.runDone
    decreases StepsLeft(OwnPoint(s))
  {
    acts := [];
    if !OwnPoint(s).Returned? {
      var p, pt := s.core.owner.value, OwnPoint(s);
      var a := StartStep(p, pt == RegAdd);
      StartStepNearer(s.core, p, pt);
      StepKeepsInv(s, a);
      var rest := StartReturns(Step(s, a));
      AgentOnlyAppend(a, rest);
      ExecFirst(s, a, rest);
      acts := [a] + rest;
    }
  }

  lemma SelectNearer(c: Core)
    requires (c.runDone || c.heartbeatDone) && c.loop == Select
    ensures StepLoop(c, false, false).core.loop == Exited
  {
  }

  lemma BeatNearer(c: Core)
    requires c.loop == Stats || c.loop == Lookup || c.loop == AutoRegister || c.loop == Beat
    ensures LoopLeft(StepLoop(c, false, false).core.loop) < LoopLeft(c.loop)
  {
  }

  lemma LoopStepNearer(c: Core)
    requires (c.runDone || c.heartbeatDone) && LoopLeft(c.loop) > 0
    ensures var m := StepLoop(c, false, false);
            && LoopLeft(m.core.loop) < LoopLeft(c.loop) && m.core.owner == c.owner
            && m.core.runDone == c.runDone && m.core.heartbeatDone == c.heartbeatDone
  {
    LoopFrame(c, false, false);
    if c.loop == Select {
      SelectNearer(c);
    } else {
      BeatNearer(c);
    }
  }

  lemma {:induction false} LoopExits(s: State) returns (acts: seq<Action>)
    requires Inv(s) && OwnPoint(s).Returned? && (s.core.runDone || s.core.heartbeatDone)
    ensures AgentOnly(acts) && WoundDown(Exec(s, acts))
    decreases LoopLeft(s.core.loop)
  {
    acts := [];
    if LoopLeft(s.core.loop) > 0 {
      var a := LoopStep(false, false);
      LoopStepNearer(s.core);
      StepKeepsInv(s, a);
      var rest := LoopExits(Step(s, a));
      AgentOnlyAppend(a, rest);
      ExecFirst(s, a, rest);
      acts := [a] + rest;
    }
  }

  /**
  After a Stop that returned nil, the agent's own steps alone, without the parent context or
  anyone else, can bring Start to its return and the loop to its exit.
  */
  lemma StopWindsDown(s0: State, past: seq<Action>, q: Pid) returns (acts: seq<Action>)
    requires Initial(s0)
    requires var s := Exec(s0, past); q in s.stops && s.stops[q] == StopReturned(true)
    ensures AgentOnly(acts) && WoundDown(Exec(Exec(s0, past), acts))
  {
    Reachable(s0, past);
    var s := Exec(s0, past);
    if s.core.runDone {
      var first := StartReturns(s);
      var second := LoopExits(Exec(s, first));
      acts := first + second;
      ExecSplit(s, first, second);
    } else {
      acts := LoopExits(s);
    }
  }

  function CountTasks(log: seq<Event>): nat {
    if log == [] then 0 else CountTasks(log[..|log| - 1]) + if log[|log| - 1].TaskBegan? then 1 else 0
  }

  /** How many tasks a Start call can still begin once its run context is cancelled. */
  function TasksLeft(c: Core, own: StartPoint): nat {
    if c.started && c.runDone && own == StreamPull then 1 else 0
  }

  /** The run context is cancelled, or Start is past its task stream. */
  predicate NoMoreTasks(c: Core, own: StartPoint) {
    c.started && (c.runDone || Rank(own) >= 4)
  }

  lemma CountTasksRecord(log: seq<Event>, e: Option<Event>)
    ensures CountTasks(Record(log, e)) == CountTasks(log) + if e == Some(TaskBegan) then 1 else 0
  {
    if e.Some? {
      assert (log + [e.value])[..|log|] == log;
    }
  }

  /** The Start call that runs the stream, after the run context is cancelled or the stream has ended. */
  lemma StartTasks(c: Core, p: Pid, own: StartPoint, ok: bool)
    requires NoMoreTasks(c, own)
    ensures var m := StepStart(c, p, own, ok);
            && (PastGuard(own) ==> NoMoreTasks(m.core, m.point))
            && (PastGuard(own) ==>
                  TasksLeft(m.core, m.point) + (if m.event == Some(TaskBegan) then 1 else 0) <= TasksLeft(c, own))
  {
  }

  lemma OtherStarts(c: Core, p: Pid, pt: StartPoint, ok: bool)
    requires !PastGuard(pt) && c.started
    ensures StepStart(c, p, pt, ok).core == c && StepStart(c, p, pt, ok).event == None
  {
  }

  lemma StartStepTasks(s: State, p: Pid, ok: bool)
    requires Inv(s) && Contexts(s) && NoMoreTasks(s.core, OwnPoint(s)) && p in s.starts
    ensures var t := Step(s, StartStep(p, ok));
            && NoMoreTasks(t.core, OwnPoint(t))
            && CountTasks(t.log) + TasksLeft(t.core, OwnPoint(t)) <= CountTasks(s.log) + TasksLeft(s.core, OwnPoint(s))
  {
    var pt := s.starts[p];
    assert PastGuard(pt) <==> s.core.owner == Some(p);
    var m := StepStart(s.core, p, pt, ok);
    CountTasksRecord(s.log, m.event);
    if PastGuard(pt) {
      StartTasks(s.core, p, pt, ok);
      StartContext(s.core, p, pt, ok);
    } else {
      OtherStarts(s.core, p, pt, ok);
    }
  }

  lemma LoopBeginsNoTask(c: Core, tick: bool, busy: bool)
    ensures StepLoop(c, tick, busy).event != Some(TaskBegan)
  {
  }

  /** Nothing of the task stream depends on the loop. */
  lemma SameTasks(c: Core, d: Core, own: StartPoint)
    requires d.started == c.started && d.runDone == c.runDone
    ensures NoMoreTasks(d, own) == NoMoreTasks(c, own) && TasksLeft(d, own) == TasksLeft(c, own)
  {
  }

  lemma LoopStepShape(s: State, tick: bool, busy: bool)
    ensures var m := StepLoop(s.core, tick, busy);
            Step(s, LoopStep(tick, busy)) == State(m.core, s.starts, s.stops, Record(s.log, m.event))
  {
  }

  lemma LoopStepTasks(s: State, tick: bool, busy: bool)
    ensures var m := StepLoop(s.core, tick, busy);
            && CountTasks(Record(s.log, m.event)) == CountTasks(s.log)
            && m.core.started == s.core.started && m.core.runDone == s.core.runDone && m.core.owner == s.core.owner
  {
    LoopFrame(s.core, tick, busy);
    LoopBeginsNoTask(s.core, tick, busy);
    CountTasksRecord(s.log, StepLoop(s.core, tick, busy).event);
  }

  lemma OthersShape(s: State, registry: map<string, Status>) returns (core: Core, e: Option<Event>)
    ensures Step(s, Others(registry)) == State(core, s.starts, s.stops, Record(s.log, e))
    ensures core.owner == s.core.owner && core.started == s.core.started && core.runDone == s.core.runDone
    ensures e == None || e == Some(RecordRemoved)
  {
    if SameRecord(s.core, registry) {
      core, e := s.core.(registry := registry), None;
    } else if s.core.id !in registry {
      core, e := s.core.(registry := registry), if AgentRegistered in s.log then Some(RecordRemoved) else None;
    } else {
      core, e := s.core, None;
    }
  }

  lemma StopShape(s: State, p: Pid)
    ensures var t := Step(s, StopStep(p));
            && t.starts == s.starts && t.log == s.log && t.core.owner == s.core.owner
            && t.core.started == s.core.started && (s.core.runDone ==> t.core.runDone)
  {
  }

  /** Stop, the parent context and other registry users begin no task and leave the starts alone. */
  lemma OutsideTasks(s: State, a: Action)
    requires a.StopStep? || a.CancelParent? || a.Others?
    ensures var t := Step(s, a);
            && t.starts == s.starts && t.core.owner == s.core.owner && t.core.started == s.core.started
            && (s.core.runDone ==> t.core.runDone) && CountTasks(t.log) == CountTasks(s.log)
  {
    if a.Others? {
      var core, e := OthersShape(s, a.registry);
      CountTasksRecord(s.log, e);
    } else if a.StopStep? {
      StopShape(s, a.pid);
    } else {
      assert Step(s, a) == s.(core := s.core.(parentDone := true));
    }
  }

  /** Cancelling the run context admits no more tasks than before once none was coming. */
  lemma MoreDone(c: Core, d: Core, own: StartPoint)
    requires NoMoreTasks(c, own) && d.started == c.started && (c.runDone ==> d.runDone)
    ensures NoMoreTasks(d, own) && TasksLeft(d, own) <= TasksLeft(c, own)
  {
  }

  lemma StepTasks(s: State, a: Action)
    requires Inv(s) && Contexts(s) && NoMoreTasks(s.core, OwnPoint(s))
    ensures var t := Step(s, a);
            && NoMoreTasks(t.core, OwnPoint(t))
            && CountTasks(t.log) + TasksLeft(t.core, OwnPoint(t)) <= CountTasks(s.log) + TasksLeft(s.core, OwnPoint(s))
  {
    if a.StartStep? {
      if a.pid in s.starts {
        StartStepTasks(s, a.pid, a.ok);
      }
    } else if a.LoopStep? {
      LoopStepShape(s, a.tick, a.busy);
      LoopStepTasks(s, a.tick, a.busy);
      SameTasks(s.core, StepLoop(s.core, a.tick, a.busy).core, OwnPoint(s));
    } else {
      OutsideTasks(s, a);
      MoreDone(s.core, Step(s, a).core, OwnPoint(s));
    }
  }

  lemma {:induction false} ExecTasks(s: State, acts: seq<Action>)
    requires Inv(s) && Contexts(s) && NoMoreTasks(s.core, OwnPoint(s))
    ensures CountTasks(Exec(s, acts).log) <= CountTasks(s.log) + TasksLeft(s.core, OwnPoint(s))
    decreases |acts|
  {
    if acts != [] {
      StepTasks(s, acts[0]);
      StepKeepsInv(s, acts[0]);
      StepKeepsContexts(s, acts[0]);
      ExecTasks(Step(s, acts[0]), acts[1..]);
    }
  }

  /** After a Stop that returned nil at most one more task begins, and only if Start was just asking for it. */
  lemma StopEndsTasks(s0: State, past: seq<Action>, q: Pid, acts: seq<Action>)
    requires Initial(s0)
    requires var s := Exec(s0, past); q in s.stops && s.stops[q] == StopReturned(true)
    ensures var s := Exec(s0, past);
            && CountTasks(Exec(s, acts).log) <= CountTasks(s.log) + 1
            && (OwnPoint(s) != StreamPull ==> CountTasks(Exec(s, acts).log) == CountTasks(s.log))
  {
    Reachable(s0, past);
    var s := Exec(s0, past);
    ExecTasks(s, acts);
    TasksOnlyGrow(s, acts);
  }

  lemma {:induction false} TasksOnlyGrow(s: State, acts: seq<Action>)
    ensures CountTasks(Exec(s, acts).log) >= CountTasks(s.log)
    decreases |acts|
  {
    if acts != [] {
      var t := Step(s, acts[0]);
      assert t.log == s.log || t.log[..|t.log| - 1] == s.log;
      TasksOnlyGrow(t, acts[1..]);
    }
  }

  /** A Start that could not register leaves the agent offline, its context cancelled, and no loop. */
  lemma RefusedStart(s0: State, acts: seq<Action>, p: Pid)
    requires Initial(s0) && p in Exec(s0, acts).starts
    ensures var s := Exec(s0, acts);
            && (s.starts[p] == Returned(RegisterFailed) ==>
                  && s.core.status == Offline && s.core.runDone && s.core.loop == NotSpawned
                  && !Earlier(s.log, AgentRegistered, |s.log|))
            && (PastGuard(s.starts[p]) ==> s.core.started && s.core.masterSet)
  {
    Reachable(s0, acts);
    var s := Exec(s0, acts);
    HistoryMeaning(s.log);
    if PastGuard(s.starts[p]) {
      assert OwnPoint(s) == s.starts[p];
      NotRegistered(s.core, OwnPoint(s), History(s.log));
    }
  }

  lemma NotRegistered(c: Core, own: StartPoint, h: Seen)
    requires CoreInv(c, own, h)
    ensures own == Returned(RegisterFailed) ==> !h.registered
  {
  }

  /** The first Start, undisturbed: whatever record the registry held under its id, the agent is registered anew. */
  lemma StartRegisters(s: State, p: Pid)
    requires Initial(s) && s.core.masterSet && p in s.starts
    ensures var a := StartStep(p, true);
            var t := Exec(s, [a, a, a, a]);
            && t.core.id == s.core.id && t.core.id in t.core.registry && t.core.registry[t.core.id] == Registered
            && t.log == [Passed(p), AgentRegistered]
  {
    var a := StartStep(p, true);
    assert [a] + [a, a, a] == [a, a, a, a];
    ExecFirst(s, a, [a, a, a]);
    ExecThree(Step(s, a), a, a, a);
  }

  /** The same with a master that refuses the registration: the Start fails and no record is left. */
  lemma StartFails(s: State, p: Pid)
    requires Initial(s) && s.core.masterSet && p in s.starts
    ensures var a := StartStep(p, false);
            var t := Exec(s, [a, a, a] + [a, a, a]);
            && p in t.starts && t.starts[p] == Returned(RegisterFailed)
            && t.core.id == s.core.id && t.core.id !in t.core.registry && t.log == [Passed(p)]
  {
    var a := StartStep(p, false);
    ExecSplit(s, [a, a, a], [a, a, a]);
    FailsToRegister(s, p);
    GivesUp(Exec(s, [a, a, a]), p);
  }

  lemma FailsToRegister(s: State, p: Pid)
    requires Initial(s) && s.core.masterSet && p in s.starts
    ensures var a := StartStep(p, false);
            var t := Exec(s, [a, a, a]);
            && p in t.starts && (t.starts[p] == RegAdd || t.starts[p] == RegCancel)
            && t.core.id == s.core.id && t.core.id !in t.core.registry && t.log == [Passed(p)]
  {
    ExecThree(s, StartStep(p, false), StartStep(p, false), StartStep(p, false));
  }

  lemma GivesUp(s: State, p: Pid)
    requires p in s.starts && (s.starts[p] == RegAdd || s.starts[p] == RegCancel)
    ensures var a := StartStep(p, false);
            var t := Exec(s, [a, a, a]);
            && p in t.starts && t.starts[p] == Returned(RegisterFailed)
            && t.core.id == s.core.id && t.core.registry == s.core.registry && t.log == s.log
  {
    ExecThree(s, StartStep(p, false), StartStep(p, false), StartStep(p, false));
  }
}
