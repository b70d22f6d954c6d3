/**
The status of one change run while several `levee` processes and a server work on it at once.

Every command reads the run once and writes it later.  `apply` and the rollback repair write
with a compare-and-set on the status; `link`, `plan`, `cancel` and `retry` write the whole
record they read.  A state holds the stored run, the number of stored retry audit rows, the
processes with their program points, and a log of everything that took effect.  A schedule is
any sequence of actions; an action that is not possible in a state leaves the state alone, so
every theorem below ranges over all interleavings.
*/
module RunProtocol {
  import opened Wrappers

  const MAX_ATTEMPTS: nat := 3

  type Pid = nat

  datatype Run = Run(status: string, incident: string, rest: int)

  /** A plan stores new plan fields (`rest`); `replanned` says that the plan's hash is new. */
  datatype Kind =
    | Apply(force: bool) | Link(incident: string) | Plan(rest: int, replanned: bool) | Cancel | Retry | Repair

  /** Program points: before GetRun, after it (guard passed), after a plan's reset of the approval,
      after the retry count, after the retry's UpdateRun, and returned. `readAt` is the log length
      when the status in hand was read. */
  datatype Phase =
    | Fresh | Loaded(run: Run, readAt: nat) | Drafted(run: Run, readAt: nat) | Counted(run: Run) | Recording | Done

  datatype Proc = Proc(kind: Kind, phase: Phase)

  /** `Other` is a write by anyone else that opened the run or added retry rows. */
  datatype Event =
    | Applied(pid: Pid, force: bool, from: string)
    | Linked(pid: Pid, run: Run, readAt: nat)
    | Planned(pid: Pid, run: Run, readAt: nat)
    | Cancelled(pid: Pid)
    | Repaired(pid: Pid)
    | Retried(pid: Pid)
    | RetryRecorded(pid: Pid)
    | RetryUnrecorded(pid: Pid)
    | Other(opens: bool, rows: nat)

  datatype State = State(run: Option<Run>, retryRows: nat, procs: map<Pid, Proc>, log: seq<Event>)

  /** `Fail` is a store error, a failed audit write or a killed process; `Env` is any write by
      anyone else (engine, approvals, server), with the retry rows it adds. */
  datatype Action = Advance(pid: Pid) | Fail(pid: Pid) | Env(run: Option<Run>, rows: nat)

  // ----- guards of the commands

  predicate IsApplicable(status: string, force: bool) {
    status == "approved" || ((status == "pending" || status == "draft") && force)
  }

  predicate IsCancellable(status: string) {
    status == "pending" || status == "draft"
  }

  predicate IsRetryable(status: string) {
    status == "failed" || status == "paused"
  }

  predicate IsLegacyRollingBack(status: string) {
    status == "rolling_back"
  }

  predicate Guard(kind: Kind, status: string) {
    match kind
    case Apply(force) => IsApplicable(status, force)
    case Link(_) => true
    case Plan(_, _) => true
    case Cancel => IsCancellable(status)
    case Retry => IsRetryable(status)
    case Repair => IsLegacyRollingBack(status)
  }

  /** Some apply, forced or not, would accept this status. */
  predicate Admitted(status: string) {
    IsApplicable(status, true)
  }

  predicate Open(run: Option<Run>) {
    run.Some? && Admitted(run.value.status)
  }

  /** The commands that write back the status they read. */
  predicate Restores(kind: Kind) {
    kind.Link? || kind.Plan?
  }

  predicate Holds(phase: Phase) {
    phase.Loaded? || phase.Drafted?
  }

  /** Rows the budget query returns: it asks for at most one row more than the cap. */
  function RunUsage(rows: nat): nat {
    if rows <= MAX_ATTEMPTS then rows else MAX_ATTEMPTS + 1
  }

  // ----- one step

  function Goto(s: State, p: Pid, phase: Phase): State
    requires p in s.procs
  {
    s.(procs := s.procs[p := s.procs[p].(phase := phase)])
  }

  /** GetRun and the guard on what it returned. */
  function Load(s: State, p: Pid): State
    requires p in s.procs
  {
    if s.run.None? || !Guard(s.procs[p].kind, s.run.value.status) then Goto(s, p, Done)
    else Goto(s, p, Loaded(s.run.value, |s.log|))
  }

  /** UpdateRun: the whole record, or an error when the row is gone. */
  function Overwrite(s: State, p: Pid, run: Run, e: Event, next: Phase): State
    requires p in s.procs
  {
    if s.run.None? then Goto(s, p, Done)
    else Goto(s.(run := Some(run), log := s.log + [e]), p, next)
  }

  /** UpdateRunStatusIf: only the status, and only when it is still `from`. */
  function CompareAndSet(s: State, p: Pid, from: string, to: string, e: Event): State
    requires p in s.procs
  {
    if s.run.None? || s.run.value.status != from then Goto(s, p, Done)
    else Goto(s.(run := Some(s.run.value.(status := to)), log := s.log + [e]), p, Done)
  }

  /** A new plan sends an approved run back to draft, and the copy in hand follows if that worked. */
  function ResetApproval(s: State, p: Pid, run: Run, readAt: nat, replanned: bool): State
    requires p in s.procs
  {
    if replanned && run.status == "approved" && s.run.Some? && s.run.value.status == "approved" then
      Goto(s.(run := Some(s.run.value.(status := "draft"))), p, Drafted(run.(status := "draft"), |s.log|))
    else Goto(s, p, Drafted(run, readAt))
  }

  function Proceed(s: State, p: Pid, run: Run, readAt: nat): State
    requires p in s.procs
  {
    match s.procs[p].kind
    case Apply(force) => CompareAndSet(s, p, run.status, "running", Applied(p, force, run.status))
    case Link(incident) =>
      var linked := run.(incident := incident);
      Overwrite(s, p, linked, Linked(p, linked, readAt), Done)
    case Plan(_, replanned) => ResetApproval(s, p, run, readAt, replanned)
    case Cancel => Overwrite(s, p, run.(status := "cancelled"), Cancelled(p), Done)
    case Retry =>
      if RunUsage(s.retryRows) >= MAX_ATTEMPTS then Goto(s, p, Done) else Goto(s, p, Counted(run))
    case Repair => CompareAndSet(s, p, run.status, "rollback_incomplete", Repaired(p))
  }

  /** The tier of a new plan is recorded by writing the whole copy in hand. */
  function RecordTier(s: State, p: Pid, run: Run, readAt: nat): State
    requires p in s.procs
  {
    var planned := run.(rest := if s.procs[p].kind.Plan? then s.procs[p].kind.rest else run.rest);
    Overwrite(s, p, planned, Planned(p, planned, readAt), Done)
  }

  function OtherWrite(s: State, run: Option<Run>, rows: nat): State {
    var opens := Open(run) && !Open(s.run);
    s.(run := run, retryRows := s.retryRows + rows,
       log := if opens || rows > 0 then s.log + [Other(opens, rows)] else s.log)
  }

  function Step(s: State, a: Action): State {
    match a
    case Env(run, rows) => OtherWrite(s, run, rows)
    case Fail(p) =>
      if p !in s.procs then s
      else if s.procs[p].phase.Recording? then
        Goto(s.(log := s.log + [RetryUnrecorded(p)]), p, Done)
      else Goto(s, p, Done)
    case Advance(p) =>
      if p !in s.procs then s else
      match s.procs[p].phase
      case Fresh => Load(s, p)
      case Loaded(run, readAt) => Proceed(s, p, run, readAt)
      case Drafted(run, readAt) => RecordTier(s, p, run, readAt)
      case Counted(run) => Overwrite(s, p, run.(status := "running"), Retried(p), Recording)
      case Recording =>
        Goto(s.(retryRows := s.retryRows + 1, log := s.log + [RetryRecorded(p)]), p, Done)
      case Done => s
  }

  function Exec(s: State, acts: seq<Action>): State
    decreases |acts|
  {
    if acts == [] then s else Exec(Step(s, acts[0]), acts[1..])
  }

  ghost predicate Initial(s: State) {
    && s.log == []
    && forall p | p in s.procs :: s.procs[p].phase == Fresh
  }

  // ----- apply

  predicate IsWriteBack(e: Event) {
    e.Linked? || e.Planned?
  }

  /** An event that can open a closed run: an admitted status written back, or someone else's write. */
  predicate CanOpen(e: Event) {
    (IsWriteBack(e) && Admitted(e.run.status)) || (e.Other? && e.opens)
  }

  /** Event `m` opens the run: it writes back what was read before event `i`, or it is someone else's. */
  ghost predicate Reopens(log: seq<Event>, i: nat, m: nat)
    requires m < |log|
  {
    CanOpen(log[m]) && (IsWriteBack(log[m]) ==> log[m].readAt <= i)
  }

  ghost predicate ReopenedBetween(log: seq<Event>, i: nat, j: nat)
    requires j <= |log|
  {
    exists m {:trigger log[m]} | i < m < j :: Reopens(log, i, m)
  }

  /** No apply can follow event i: the run is closed, and no admitted status read later is in hand. */
  ghost predicate Sealed(s: State, i: nat) {
    && !Open(s.run)
    && forall p | p in s.procs && Restores(s.procs[p].kind) && Holds(s.procs[p].phase)
                  && s.procs[p].phase.readAt > i :: !Admitted(s.procs[p].phase.run.status)
  }

  ghost predicate ProcOk(s: State, p: Pid)
    requires p in s.procs
  {
    && (s.procs[p].phase.Loaded? ==>
          Guard(s.procs[p].kind, s.procs[p].phase.run.status) && s.procs[p].phase.readAt <= |s.log|)
    && (s.procs[p].phase.Drafted? ==> s.procs[p].kind.Plan? && s.procs[p].phase.readAt <= |s.log|)
    && (s.procs[p].phase.Counted? || s.procs[p].phase.Recording? ==> s.procs[p].kind == Retry)
  }

  ghost predicate ProcsOk(s: State) {
    forall p | p in s.procs :: ProcOk(s, p)
  }

  ghost predicate EventOk(s: State, e: Event) {
    match e
    case Applied(p, force, from) =>
      p in s.procs && s.procs[p] == Proc(Apply(force), Done) && IsApplicable(from, force)
    case Linked(p, run, _) => p in s.procs && s.procs[p].kind == Link(run.incident)
    case Planned(p, run, _) => p in s.procs && s.procs[p].kind.Plan? && s.procs[p].kind.rest == run.rest
    case _ => true
  }

  ghost predicate EventsOk(s: State) {
    && (forall e | e in s.log :: EventOk(s, e))
    && (forall i, j | 0 <= i < j < |s.log| && s.log[i].Applied? && s.log[j].Applied? ::
          s.log[i].pid != s.log[j].pid && ReopenedBetween(s.log, i, j))
  }

  ghost predicate AppliesClosed(s: State) {
    forall i | 0 <= i < |s.log| && s.log[i].Applied? ::
      ReopenedBetween(s.log, i, |s.log|) || Sealed(s, i)
  }

  ghost predicate ApplyInv(s: State) {
    ProcsOk(s) && EventsOk(s) && AppliesClosed(s)
  }

  lemma ReopenedGrows(log: seq<Event>, e: Event, i: nat, j: nat)
    requires j <= |log| && ReopenedBetween(log, i, j)
    ensures ReopenedBetween(log + [e], i, j) && ReopenedBetween(log + [e], i, |log| + 1)
  {
    var m :| i < m < j && Reopens(log, i, m);
    assert (log + [e])[m] == log[m];
  }

  /** The status in hand after a quiet step was in hand before it, or is that of the stored run. */
  ghost predicate KeptReading(s: State, was: Phase, now: Phase)
    requires Holds(now)
  {
    || (Holds(was) && now.run.status == was.run.status && now.readAt == was.readAt)
    || (Admitted(now.run.status) ==> Open(s.run))
  }

  /** A step that logs nothing: it cannot open the run, and what a writer newly holds is the run's. */
  ghost predicate Quiet(s: State, t: State) {
    && t.log == s.log
    && t.procs.Keys == s.procs.Keys
    && (Open(t.run) ==> Open(s.run))
    && forall p | p in s.procs ::
         && t.procs[p].kind == s.procs[p].kind
         && (s.procs[p].phase == Done ==> t.procs[p].phase == Done)
         && (Restores(t.procs[p].kind) && Holds(t.procs[p].phase) ==>
               t.procs[p] == s.procs[p] || KeptReading(s, s.procs[p].phase, t.procs[p].phase))
  }

  /** A step that logs `e`: only process `p` moves, and only a write-back can open the run. */
  ghost predicate Logged(s: State, t: State, p: Pid, e: Event) {
    && t.log == s.log + [e] && !e.Other?
    && p in s.procs && s.procs[p].phase != Done
    && p in t.procs && t.procs == s.procs[p := t.procs[p]]
    && t.procs[p].kind == s.procs[p].kind && !Holds(t.procs[p].phase)
    && EventOk(t, e)
    && (Open(t.run) ==> IsWriteBack(e) || Open(s.run))
    && (e.Applied? ==> e.pid == p && Open(s.run) && !Open(t.run))
    && (IsWriteBack(e) ==>
          && e.pid == p && Restores(s.procs[p].kind) && Holds(s.procs[p].phase) && t.run == Some(e.run)
          && e.run.status == s.procs[p].phase.run.status && e.readAt == s.procs[p].phase.readAt)
    && (e.Linked? ==>
          && s.procs[p].phase.Loaded? && s.procs[p].kind.Link?
          && e.run == s.procs[p].phase.run.(incident := s.procs[p].kind.incident))
  }

  /** A step of someone else that is logged: it says so when it opens the run. */
  ghost predicate Foreign(s: State, t: State, e: Event) {
    && t.log == s.log + [e] && e.Other? && t.procs == s.procs
    && (Open(t.run) ==> Open(s.run) || e.opens)
  }

  lemma ProceedShape(s: State, p: Pid)
    requires ProcsOk(s) && p in s.procs && s.procs[p].phase.Loaded?
    ensures var t := Proceed(s, p, s.procs[p].phase.run, s.procs[p].phase.readAt);
            Quiet(s, t) || (|t.log| == |s.log| + 1 && Logged(s, t, p, t.log[|s.log|]))
  {
    assert ProcOk(s, p);
  }

  lemma OthersKeepProcOk(s: State, t: State, p: Pid, q: Pid)
    requires q in s.procs && ProcOk(s, q) && q != p && |s.log| <= |t.log|
    requires p in t.procs && t.procs == s.procs[p := t.procs[p]]
    ensures q in t.procs && ProcOk(t, q)
  {
  }

  lemma MoverOk(s: State, a: Action)
    requires !a.Env? && a.pid in s.procs && ProcOk(s, a.pid)
    ensures a.pid in Step(s, a).procs && ProcOk(Step(s, a), a.pid) && |s.log| <= |Step(s, a).log|
  {
  }

  lemma StepKeepsProcsOk(s: State, a: Action)
    requires ProcsOk(s)
    ensures ProcsOk(Step(s, a))
  {
    var t := Step(s, a);
    if !a.Env? && a.pid in s.procs {
      assert ProcOk(s, a.pid);
      MoverOk(s, a);
      OneMoves(s, a);
      forall q | q in t.procs && q != a.pid ensures ProcOk(t, q) {
        assert ProcOk(s, q);
        OthersKeepProcOk(s, t, a.pid, q);
      }
    } else {
      forall q | q in t.procs ensures ProcOk(t, q) {
        assert ProcOk(s, q);
      }
    }
  }

  lemma StepShape(s: State, a: Action)
    requires ProcsOk(s)
    ensures var t := Step(s, a);
            || Quiet(s, t)
            || (!a.Env? && |t.log| == |s.log| + 1 && Logged(s, t, a.pid, t.log[|s.log|]))
            || (a.Env? && |t.log| == |s.log| + 1 && Foreign(s, t, t.log[|s.log|]))
  {
    if !a.Env? && a.pid in s.procs {
      assert ProcOk(s, a.pid);
      if a.Advance? && s.procs[a.pid].phase.Loaded? {
        ProceedShape(s, a.pid);
      }
    }
  }

  lemma QuietKeepsApplyInv(s: State, t: State)
    requires ApplyInv(s) && ProcsOk(t) && Quiet(s, t)
    ensures ApplyInv(t)
  {
    assert forall e | e in t.log :: EventOk(s, e);
    forall i | 0 <= i < |t.log| && t.log[i].Applied? && Sealed(s, i) ensures Sealed(t, i) {
    }
  }

  /** The two halves of the invariant that speak of earlier applies, after a logged event. */
  lemma AppliesStayClosed(s: State, t: State, e: Event)
    requires ApplyInv(s) && t.log == s.log + [e]
    requires forall i | 0 <= i < |s.log| && s.log[i].Applied? && Sealed(s, i) ::
               Sealed(t, i) || Reopens(t.log, i, |s.log|)
    requires e.Applied? ==> Open(s.run) && Sealed(t, |s.log|)
                            && forall i | 0 <= i < |s.log| && s.log[i].Applied? :: s.log[i].pid != e.pid
    ensures AppliesClosed(t)
    ensures forall i, j | 0 <= i < j < |t.log| && t.log[i].Applied? && t.log[j].Applied? ::
              t.log[i].pid != t.log[j].pid && ReopenedBetween(t.log, i, j)
  {
    forall i | 0 <= i < |s.log| && s.log[i].Applied?
      ensures ReopenedBetween(t.log, i, |t.log|) || Sealed(t, i)
      ensures e.Applied? ==> ReopenedBetween(t.log, i, |s.log|)
    {
      if ReopenedBetween(s.log, i, |s.log|) {
        ReopenedGrows(s.log, e, i, |s.log|);
      }
    }
    forall i, j | 0 <= i < j < |t.log| && t.log[i].Applied? && t.log[j].Applied?
      ensures t.log[i].pid != t.log[j].pid && ReopenedBetween(t.log, i, j)
    {
      if j < |s.log| {
        ReopenedGrows(s.log, e, i, j);
      }
    }
  }

  lemma LoggedKeepsApplyInv(s: State, t: State, p: Pid, e: Event)
    requires ApplyInv(s) && ProcsOk(t) && Logged(s, t, p, e)
    ensures ApplyInv(t)
  {
    forall i | 0 <= i < |s.log| && s.log[i].Applied?
      ensures Sealed(s, i) ==> Sealed(t, i) || Reopens(t.log, i, |s.log|)
      ensures e.Applied? ==> s.log[i].pid != p
    {
      assert s.log[i] in s.log;
    }
    if e.Applied? {
      assert forall q | q in t.procs && Holds(t.procs[q].phase) :: ProcOk(s, q);
    }
    AppliesStayClosed(s, t, e);
    forall x | x in t.log ensures EventOk(t, x) {
      if x in s.log {
        assert EventOk(s, x);
      }
    }
  }

  lemma ForeignKeepsApplyInv(s: State, t: State, e: Event)
    requires ApplyInv(s) && ProcsOk(t) && Foreign(s, t, e)
    ensures ApplyInv(t)
  {
    AppliesStayClosed(s, t, e);
    forall x | x in t.log ensures EventOk(t, x) {
      if x in s.log {
        assert EventOk(s, x);
      }
    }
  }

  lemma StepKeepsApplyInv(s: State, a: Action)
    requires ApplyInv(s)
    ensures ApplyInv(Step(s, a))
  {
    StepShape(s, a);
    StepKeepsProcsOk(s, a);
    var t := Step(s, a);
    if Quiet(s, t) {
      QuietKeepsApplyInv(s, t);
    } else if a.Env? {
      ForeignKeepsApplyInv(s, t, t.log[|s.log|]);
    } else {
      LoggedKeepsApplyInv(s, t, a.pid, t.log[|s.log|]);
    }
  }

  lemma {:induction false} ExecKeepsApplyInv(s: State, acts: seq<Action>)
    requires ApplyInv(s)
    ensures ApplyInv(Exec(s, acts))
    decreases |acts|
  {
    if acts != [] {
      StepKeepsApplyInv(s, acts[0]);
      ExecKeepsApplyInv(Step(s, acts[0]), acts[1..]);
    }
  }

  /**
  Apply under every interleaving.  A successful apply found a status its own guard admits at
  the instant of the write.  Two successful applies are by different processes, and between
  them either a link or a plan stored an admitted status that it had read before the first one,
  or somebody else's write opened the run.
  */
  lemma AppliesAreGuarded(s0: State, acts: seq<Action>)
    requires Initial(s0)
    ensures var log := Exec(s0, acts).log;
            && (forall i | 0 <= i < |log| && log[i].Applied? ::
                  && log[i].pid in s0.procs && s0.procs[log[i].pid].kind == Apply(log[i].force)
                  && (log[i].from == "approved"
                      || (log[i].force && (log[i].from == "pending" || log[i].from == "draft"))))
            && (forall i, j | 0 <= i < j < |log| && log[i].Applied? && log[j].Applied? ::
                  log[i].pid != log[j].pid && ReopenedBetween(log, i, j))
  {
    ExecKeepsApplyInv(s0, acts);
    ProcsKeepTheirKinds(s0, acts);
    var s := Exec(s0, acts);
    forall i | 0 <= i < |s.log| && s.log[i].Applied? ensures EventOk(s, s.log[i]) {
      assert s.log[i] in s.log;
    }
  }

  // ----- what each command writes

  /** Event e took the store from s to t: the status words of every transition. */
  ghost predicate WroteAs(s: State, p: Pid, t: State, e: Event) {
    && p in s.procs
    && var phase := s.procs[p].phase;
    match e
    case Applied(_, _, from) =>
      s.run.Some? && s.run.value.status == from && t.run == Some(s.run.value.(status := "running"))
    case Linked(_, run, _) => t.run == Some(run)
    case Planned(_, run, _) => t.run == Some(run)
    case Cancelled(_) =>
      && phase.Loaded? && (phase.run.status == "pending" || phase.run.status == "draft")
      && t.run == Some(phase.run.(status := "cancelled"))
    case Repaired(_) =>
      && s.run.Some? && s.run.value.status == "rolling_back"
      && t.run == Some(s.run.value.(status := "rollback_incomplete"))
    case Retried(_) => phase.Counted? && t.run == Some(phase.run.(status := "running"))
    case RetryRecorded(_) => t.retryRows == s.retryRows + 1 && t.run == s.run
    case RetryUnrecorded(_) => t.retryRows == s.retryRows && t.run == s.run
    case Other(_, _) => false
  }

  /** Over every schedule, a logged step of a command is one of these transitions. */
  lemma WritesMean(s0: State, acts: seq<Action>, a: Action)
    requires Initial(s0) && !a.Env? && |Step(Exec(s0, acts), a).log| > |Exec(s0, acts).log|
    ensures var s := Exec(s0, acts);
            var t := Step(s, a);
            |t.log| == |s.log| + 1 && WroteAs(s, a.pid, t, t.log[|s.log|])
  {
    ExecKeepsApplyInv(s0, acts);
    WriteMeans(Exec(s0, acts), a);
  }

  lemma WriteMeans(s: State, a: Action)
    requires ProcsOk(s) && !a.Env? && |Step(s, a).log| > |s.log|
    ensures var t := Step(s, a); |t.log| == |s.log| + 1 && WroteAs(s, a.pid, t, t.log[|s.log|])
  {
    if a.pid in s.procs {
      assert ProcOk(s, a.pid);
    }
  }

  function Turns(p: Pid): seq<Action> {
    [Advance(p), Advance(p), Advance(p), Advance(p)]
  }

  lemma ExecFour(s: State, p: Pid)
    ensures Exec(s, Turns(p)) == Step(Step(Step(Step(s, Advance(p)), Advance(p)), Advance(p)), Advance(p))
  {
    var a := Advance(p);
    assert Turns(p) == [a] + [a, a, a];
    ExecSplit(s, [a], [a, a, a]);
    assert [a][1..] == [];
    assert Exec(s, [a]) == Exec(Step(s, a), []) == Step(s, a);
    ExecThree(Step(s, a), a, a, a);
  }

  /** An apply that nobody disturbs: exactly which status words it accepts, and what it stores. */
  lemma ApplyAlone(s: State, p: Pid)
    requires p in s.procs && s.procs[p].kind.Apply? && s.procs[p].phase == Fresh
    ensures var t := Exec(s, Turns(p));
            var st := if s.run.Some? then s.run.value.status else "";
            var accepted := st == "approved" || (s.procs[p].kind.force && (st == "pending" || st == "draft"));
            && t.run == (if accepted then Some(s.run.value.(status := "running")) else s.run)
            && t.log == (if accepted then s.log + [Applied(p, s.procs[p].kind.force, st)] else s.log)
            && p in t.procs && t.procs[p].phase == Done
  {
    ExecFour(s, p);
  }

  lemma CancelAlone(s: State, p: Pid)
    requires p in s.procs && s.procs[p] == Proc(Cancel, Fresh)
    ensures var t := Exec(s, Turns(p));
            var st := if s.run.Some? then s.run.value.status else "";
            var accepted := st == "pending" || st == "draft";
            && t.run == (if accepted then Some(s.run.value.(status := "cancelled")) else s.run)
            && t.log == (if accepted then s.log + [Cancelled(p)] else s.log)
  {
    ExecFour(s, p);
  }

  /** A retry is accepted in a failed or paused run with fewer than three rows, and leaves a row. */
  lemma RetryUndisturbed(s: State, p: Pid)
    requires p in s.procs && s.procs[p] == Proc(Retry, Fresh)
    ensures var t := Exec(s, Turns(p));
            var st := if s.run.Some? then s.run.value.status else "";
            var accepted := (st == "failed" || st == "paused") && s.retryRows < 3;
            && t.run == (if accepted then Some(s.run.value.(status := "running")) else s.run)
            && t.retryRows == s.retryRows + Bit(accepted)
            && t.log == (if accepted then s.log + [Retried(p)] + [RetryRecorded(p)] else s.log)
  {
    ExecFour(s, p);
  }

  lemma RepairAlone(s: State, p: Pid)
    requires p in s.procs && s.procs[p] == Proc(Repair, Fresh)
    ensures var t := Exec(s, Turns(p));
            var accepted := s.run.Some? && s.run.value.status == "rolling_back";
            && t.run == (if accepted then Some(s.run.value.(status := "rollback_incomplete")) else s.run)
            && t.log == (if accepted then s.log + [Repaired(p)] else s.log)
  {
    ExecFour(s, p);
  }

  lemma LinkAlone(s: State, p: Pid)
    requires p in s.procs && s.procs[p].kind.Link? && s.procs[p].phase == Fresh
    ensures Exec(s, Turns(p)).run ==
            if s.run.None? then None else Some(s.run.value.(incident := s.procs[p].kind.incident))
  {
    ExecFour(s, p);
  }

  /** A new plan of an approved run sends it back to draft; any other plan keeps the status. */
  lemma PlanAlone(s: State, p: Pid)
    requires p in s.procs && s.procs[p].kind.Plan? && s.procs[p].phase == Fresh
    ensures Exec(s, Turns(p)).run ==
            if s.run.None? then None
            else Some(Run(if s.procs[p].kind.replanned && s.run.value.status == "approved" then "draft"
                          else s.run.value.status,
                          s.run.value.incident, s.procs[p].kind.rest))
  {
    ExecFour(s, p);
  }

  /** An apply with a reading in hand succeeds exactly when the stored status is still the one it read. */
  lemma ApplySucceedsExactly(s: State, p: Pid)
    requires p in s.procs && s.procs[p].kind.Apply? && s.procs[p].phase.Loaded?
    ensures var from := s.procs[p].phase.run.status;
            Step(s, Advance(p)).log ==
            if s.run.Some? && s.run.value.status == from then s.log + [Applied(p, s.procs[p].kind.force, from)]
            else s.log
  {
  }

  // ----- whole-record writes store an earlier reading

  /** Right after some prefix of the schedule, with `at` events logged, the store held `run`. */
  ghost predicate WasStored(s0: State, acts: seq<Action>, run: Run, at: nat) {
    exists n {:trigger acts[..n]} | 0 <= n <= |acts| ::
      Exec(s0, acts[..n]).run == Some(run) && |Exec(s0, acts[..n]).log| == at
  }

  /** At that time the stored run had this status. */
  ghost predicate StatusWasStored(s0: State, acts: seq<Action>, status: string, at: nat) {
    exists run :: WasStored(s0, acts, run, at) && run.status == status
  }

  ghost predicate ReadingsOk(s0: State, acts: seq<Action>, s: State) {
    && (forall p | p in s.procs && s.procs[p].phase.Loaded? ::
          WasStored(s0, acts, s.procs[p].phase.run, s.procs[p].phase.readAt))
    && (forall p | p in s.procs && s.procs[p].phase.Drafted? ::
          StatusWasStored(s0, acts, s.procs[p].phase.run.status, s.procs[p].phase.readAt))
    && (forall m | 0 <= m < |s.log| && IsWriteBack(s.log[m]) :: WroteBack(s0, acts, s.log[m]))
  }

  /** A link stores a record that was read, with only the incident changed; a plan its status. */
  ghost predicate WroteBack(s0: State, acts: seq<Action>, e: Event)
    requires IsWriteBack(e)
  {
    exists run :: && WasStored(s0, acts, run, e.readAt) && run.status == e.run.status
                  && (e.Linked? ==> e.run == run.(incident := e.run.incident))
  }

  lemma WasStoredGrows(s0: State, acts: seq<Action>, a: Action, run: Run, at: nat)
    requires WasStored(s0, acts, run, at)
    ensures WasStored(s0, acts + [a], run, at)
  {
    var n :| 0 <= n <= |acts| && Exec(s0, acts[..n]).run == Some(run) && |Exec(s0, acts[..n]).log| == at;
    assert (acts + [a])[..n] == acts[..n];
  }

  lemma StatusGrows(s0: State, acts: seq<Action>, a: Action, status: string, at: nat)
    requires StatusWasStored(s0, acts, status, at)
    ensures StatusWasStored(s0, acts + [a], status, at)
  {
    var run :| WasStored(s0, acts, run, at) && run.status == status;
    WasStoredGrows(s0, acts, a, run, at);
  }

  lemma WroteBackGrows(s0: State, acts: seq<Action>, a: Action, e: Event)
    requires IsWriteBack(e) && WroteBack(s0, acts, e)
    ensures WroteBack(s0, acts + [a], e)
  {
    var run :| && WasStored(s0, acts, run, e.readAt) && run.status == e.run.status
               && (e.Linked? ==> e.run == run.(incident := e.run.incident));
    WasStoredGrows(s0, acts, a, run, e.readAt);
  }

  lemma NowStored(s0: State, acts: seq<Action>, run: Run)
    requires Exec(s0, acts).run == Some(run)
    ensures WasStored(s0, acts, run, |Exec(s0, acts).log|)
  {
    assert acts[..|acts|] == acts;
  }

  /** A reading in hand after a step was in hand before it, or is what the store held or holds. */
  lemma ReadsTheStore(s: State, a: Action, p: Pid)
    requires p in Step(s, a).procs && Step(s, a).procs[p].phase.Loaded?
    ensures || (p in s.procs && s.procs[p] == Step(s, a).procs[p])
            || (s.run == Some(Step(s, a).procs[p].phase.run) && Step(s, a).procs[p].phase.readAt == |s.log|)
  {
  }

  lemma DraftsTheStore(s: State, a: Action, p: Pid)
    requires p in Step(s, a).procs && Step(s, a).procs[p].phase.Drafted?
    ensures var t := Step(s, a);
            var phase := t.procs[p].phase;
            || (p in s.procs && Holds(s.procs[p].phase) && s.procs[p].phase.run.status == phase.run.status
                && s.procs[p].phase.readAt == phase.readAt)
            || (t.run.Some? && t.run.value.status == phase.run.status && phase.readAt == |t.log|)
  {
  }

  /** A write-back that is logged writes the reading its process has in hand. */
  lemma WritesItsReading(s: State, a: Action, m: nat)
    requires ProcsOk(s) && |s.log| <= m < |Step(s, a).log| && IsWriteBack(Step(s, a).log[m])
    ensures !a.Env? && a.pid in s.procs && Holds(s.procs[a.pid].phase)
    ensures var e, phase := Step(s, a).log[m], s.procs[a.pid].phase;
            && e.readAt == phase.readAt && e.run.status == phase.run.status
            && (e.Linked? ==> phase.Loaded? && e.run == phase.run.(incident := e.run.incident))
  {
    StepShape(s, a);
  }

  lemma LogGrows(s: State, a: Action, m: nat)
    requires m < |s.log|
    ensures m < |Step(s, a).log| && Step(s, a).log[m] == s.log[m]
  {
  }

  lemma LoadedStaysOk(s0: State, acts: seq<Action>, s: State, a: Action, p: Pid)
    requires s == Exec(s0, acts) && ReadingsOk(s0, acts, s)
    requires p in Step(s, a).procs && Step(s, a).procs[p].phase.Loaded?
    ensures WasStored(s0, acts + [a], Step(s, a).procs[p].phase.run, Step(s, a).procs[p].phase.readAt)
  {
    var phase := Step(s, a).procs[p].phase;
    ReadsTheStore(s, a, p);
    if !(p in s.procs && s.procs[p] == Step(s, a).procs[p]) {
      NowStored(s0, acts, phase.run);
    }
    WasStoredGrows(s0, acts, a, phase.run, phase.readAt);
  }

  /** What a process holds, its status was stored when it says. */
  lemma HeldStatus(s0: State, acts: seq<Action>, s: State, p: Pid)
    requires ReadingsOk(s0, acts, s) && p in s.procs && Holds(s.procs[p].phase)
    ensures StatusWasStored(s0, acts, s.procs[p].phase.run.status, s.procs[p].phase.readAt)
  {
  }

  lemma DraftedStaysOk(s0: State, acts: seq<Action>, s: State, a: Action, p: Pid)
    requires s == Exec(s0, acts) && Step(s, a) == Exec(s0, acts + [a]) && ReadingsOk(s0, acts, s)
    requires p in Step(s, a).procs && Step(s, a).procs[p].phase.Drafted?
    ensures var phase := Step(s, a).procs[p].phase;
            StatusWasStored(s0, acts + [a], phase.run.status, phase.readAt)
  {
    var t := Step(s, a);
    var phase := t.procs[p].phase;
    DraftsTheStore(s, a, p);
    if p in s.procs && Holds(s.procs[p].phase) && s.procs[p].phase.run.status == phase.run.status
       && s.procs[p].phase.readAt == phase.readAt {
      HeldStatus(s0, acts, s, p);
      StatusGrows(s0, acts, a, phase.run.status, phase.readAt);
    } else {
      NowStored(s0, acts + [a], t.run.value);
    }
  }

  lemma EventStaysOk(s0: State, acts: seq<Action>, s: State, a: Action, m: nat)
    requires s == Exec(s0, acts) && ProcsOk(s) && ReadingsOk(s0, acts, s)
    requires m < |Step(s, a).log| && IsWriteBack(Step(s, a).log[m])
    ensures WroteBack(s0, acts + [a], Step(s, a).log[m])
  {
    var e := Step(s, a).log[m];
    if m < |s.log| {
      LogGrows(s, a, m);
    } else {
      WritesItsReading(s, a, m);
      HeldStatus(s0, acts, s, a.pid);
    }
    WroteBackGrows(s0, acts, a, e);
  }

  lemma StepKeepsReadings(s0: State, acts: seq<Action>, s: State, a: Action)
    requires s == Exec(s0, acts) && Step(s, a) == Exec(s0, acts + [a]) && ProcsOk(s) && ReadingsOk(s0, acts, s)
    ensures ReadingsOk(s0, acts + [a], Step(s, a))
  {
    var t := Step(s, a);
    forall p | p in t.procs && t.procs[p].phase.Loaded?
      ensures WasStored(s0, acts + [a], t.procs[p].phase.run, t.procs[p].phase.readAt)
    {
      LoadedStaysOk(s0, acts, s, a, p);
    }
    forall p | p in t.procs && t.procs[p].phase.Drafted?
      ensures StatusWasStored(s0, acts + [a], t.procs[p].phase.run.status, t.procs[p].phase.readAt)
    {
      DraftedStaysOk(s0, acts, s, a, p);
    }
    forall m | 0 <= m < |t.log| && IsWriteBack(t.log[m]) ensures WroteBack(s0, acts + [a], t.log[m]) {
      EventStaysOk(s0, acts, s, a, m);
    }
  }

  lemma {:induction false} ExecKeepsReadings(s0: State, acts: seq<Action>)
    requires Initial(s0)
    ensures ReadingsOk(s0, acts, Exec(s0, acts))
    decreases |acts|
  {
    if acts != [] {
      var init, last := acts[..|acts| - 1], acts[|acts| - 1];
      assert acts == init + [last];
      ExecKeepsReadings(s0, init);
      ExecKeepsApplyInv(s0, init);
      ExecSplit(s0, init, [last]);
      assert Exec(Exec(s0, init), [last]) == Step(Exec(s0, init), last);
      StepKeepsReadings(s0, init, Exec(s0, init), last);
    }
  }

  /**
  A link writes back a record that really was stored when `readAt` events had happened, with
  nothing but the incident changed, and a plan writes back a status that was: whatever came in
  between is undone.
  */
  lemma WritersWriteBack(s0: State, acts: seq<Action>, m: nat)
    requires Initial(s0) && m < |Exec(s0, acts).log| && IsWriteBack(Exec(s0, acts).log[m])
    ensures var e := Exec(s0, acts).log[m];
            && e.pid in s0.procs
            && (if e.Linked? then s0.procs[e.pid].kind == Link(e.run.incident)
                else s0.procs[e.pid].kind.Plan? && s0.procs[e.pid].kind.rest == e.run.rest)
            && WroteBack(s0, acts, e)
  {
    ExecKeepsReadings(s0, acts);
    ExecKeepsApplyInv(s0, acts);
    ProcsKeepTheirKinds(s0, acts);
    var s := Exec(s0, acts);
    assert EventOk(s, s.log[m]) by {
      assert s.log[m] in s.log;
    }
  }

  function CountApplied(log: seq<Event>): nat {
    if log == [] then 0
    else CountApplied(log[..|log| - 1]) + Bit(log[|log| - 1].Applied?)
  }

  function CountOpening(log: seq<Event>): nat {
    if log == [] then 0
    else CountOpening(log[..|log| - 1]) + Bit(CanOpen(log[|log| - 1]))
  }

  function Bit(b: bool): nat {
    if b then 1 else 0
  }

  lemma CountsAppend(log: seq<Event>, e: Event)
    ensures CountApplied(log + [e]) == CountApplied(log) + Bit(e.Applied?)
    ensures CountOpening(log + [e]) == CountOpening(log) + Bit(CanOpen(e))
  {
    assert (log + [e])[..|log|] == log;
  }

  lemma StepCosts(s: State, a: Action)
    requires ProcsOk(s)
    ensures var t := Step(s, a);
            CountApplied(t.log) + Bit(Open(t.run)) + CountOpening(s.log)
            <= CountApplied(s.log) + Bit(Open(s.run)) + CountOpening(t.log)
  {
    var t := Step(s, a);
    StepShape(s, a);
    if t.log != s.log {
      CountsAppend(s.log, t.log[|s.log|]);
    }
  }

  /** Each apply closes the run, and only a write-back or someone else opens it again. */
  lemma {:induction false} AppliesCost(s: State, acts: seq<Action>)
    requires ProcsOk(s)
    requires CountApplied(s.log) + Bit(Open(s.run)) <= CountOpening(s.log) + 1
    ensures CountApplied(Exec(s, acts).log) <= CountOpening(Exec(s, acts).log) + 1
    decreases |acts|
  {
    if acts != [] {
      StepCosts(s, acts[0]);
      StepKeepsProcsOk(s, acts[0]);
      AppliesCost(Step(s, acts[0]), acts[1..]);
    }
  }

  /** A log without write-backs and without openings by others opens nothing. */
  lemma {:induction false} NothingOpens(log: seq<Event>)
    requires forall e | e in log :: !CanOpen(e)
    ensures CountOpening(log) == 0
    decreases |log|
  {
    if log != [] {
      assert log[|log| - 1] in log;
      NothingOpens(log[..|log| - 1]);
    }
  }

  lemma {:induction false} ProcsKeepTheirKinds(s: State, acts: seq<Action>)
    ensures Exec(s, acts).procs.Keys == s.procs.Keys
    ensures forall p | p in s.procs :: Exec(s, acts).procs[p].kind == s.procs[p].kind
    decreases |acts|
  {
    if acts != [] {
      StepKeepsKinds(s, acts[0]);
      ProcsKeepTheirKinds(Step(s, acts[0]), acts[1..]);
    }
  }

  lemma StepKeepsKinds(s: State, a: Action)
    ensures Step(s, a).procs.Keys == s.procs.Keys
    ensures forall p | p in s.procs :: Step(s, a).procs[p].kind == s.procs[p].kind
  {
    if !a.Env? && a.pid in s.procs {
      OneMoves(s, a);
    }
  }

  lemma OneMoves(s: State, a: Action)
    requires !a.Env? && a.pid in s.procs
    ensures var t := Step(s, a);
            a.pid in t.procs && t.procs == s.procs[a.pid := s.procs[a.pid].(phase := t.procs[a.pid].phase)]
  {
  }

  /** Nobody but the modelled commands opens the run. */
  ghost predicate NobodyElseOpens(log: seq<Event>) {
    forall e | e in log :: e.Other? ==> !e.opens
  }

  /**
  Every apply but the first is paid for by a write-back of an admitted status or by someone
  else's opening; without link and plan processes and without such openings at most one succeeds.
  */
  lemma AppliesBound(s0: State, acts: seq<Action>)
    requires Initial(s0)
    ensures var log := Exec(s0, acts).log;
            && CountApplied(log) <= 1 + CountOpening(log)
            && ((forall p | p in s0.procs :: !Restores(s0.procs[p].kind)) && NobodyElseOpens(log) ==>
                  CountApplied(log) <= 1)
  {
    AppliesCost(s0, acts);
    ExecKeepsApplyInv(s0, acts);
    ProcsKeepTheirKinds(s0, acts);
    var s := Exec(s0, acts);
    if (forall p | p in s0.procs :: !Restores(s0.procs[p].kind)) && NobodyElseOpens(s.log) {
      assert forall e | e in s.log :: EventOk(s, e);
      NothingOpens(s.log);
    }
  }

  // ----- when a second apply is possible at all

  ghost predicate TwoApplies(s0: State) {
    exists a, b :: a != b && a in s0.procs && b in s0.procs
                   && s0.procs[a].kind.Apply? && s0.procs[b].kind.Apply?
  }

  ghost predicate HasDoubleApply(s0: State) {
    exists acts: seq<Action> :: CountApplied(Exec(s0, acts).log) >= 2
  }

  /** A double apply in which others may approve a run that is open but open no closed one. */
  ghost predicate HasDoubleApplyUnopened(s0: State) {
    exists acts: seq<Action> :: CountApplied(Exec(s0, acts).log) >= 2 && NobodyElseOpens(Exec(s0, acts).log)
  }

  /** The run can be applied now, and a link or plan and two applies are among the processes. */
  ghost predicate WriterRacesTwoApplies(s0: State) {
    Open(s0.run) && TwoApplies(s0) && exists w :: w in s0.procs && Restores(s0.procs[w].kind)
  }

  ghost predicate Shut(s: State) {
    && ProcsOk(s) && !Open(s.run)
    && (forall p | p in s.procs && Restores(s.procs[p].kind) && Holds(s.procs[p].phase) ::
          !Admitted(s.procs[p].phase.run.status))
    && (forall e | e in s.log :: !e.Applied?)
  }

  lemma StepStaysShut(s: State, a: Action)
    requires Shut(s) && NobodyElseOpens(Step(s, a).log)
    ensures Shut(Step(s, a))
  {
    var t := Step(s, a);
    StepShape(s, a);
    StepKeepsProcsOk(s, a);
    if t.log != s.log {
      assert t.log[|s.log|] in t.log;
    }
  }

  lemma {:induction false} LogOnlyGrows(s: State, acts: seq<Action>, e: Event)
    requires e in s.log
    ensures e in Exec(s, acts).log
    decreases |acts|
  {
    if acts != [] {
      var i :| 0 <= i < |s.log| && s.log[i] == e;
      LogGrows(s, acts[0], i);
      LogOnlyGrows(Step(s, acts[0]), acts[1..], e);
    }
  }

  lemma {:induction false} ShutStaysShut(s: State, acts: seq<Action>)
    requires Shut(s) && NobodyElseOpens(Exec(s, acts).log)
    ensures Shut(Exec(s, acts))
    decreases |acts|
  {
    if acts != [] {
      var t := Step(s, acts[0]);
      forall e | e in t.log ensures e.Other? ==> !e.opens {
        LogOnlyGrows(t, acts[1..], e);
      }
      StepStaysShut(s, acts[0]);
      ShutStaysShut(t, acts[1..]);
    }
  }

  lemma {:induction false} FindApplied(log: seq<Event>) returns (i: nat)
    requires CountApplied(log) >= 1
    ensures i < |log| && log[i].Applied?
    ensures CountApplied(log[..i]) == CountApplied(log) - 1
    decreases |log|
  {
    if log[|log| - 1].Applied? {
      i := |log| - 1;
    } else {
      i := FindApplied(log[..|log| - 1]);
      assert log[..|log| - 1][..i] == log[..i];
    }
  }

  lemma DoubleApplyNeeds(s0: State, acts: seq<Action>)
    requires Initial(s0) && CountApplied(Exec(s0, acts).log) >= 2
    ensures TwoApplies(s0)
    ensures NobodyElseOpens(Exec(s0, acts).log) ==> WriterRacesTwoApplies(s0)
  {
    var s := Exec(s0, acts);
    var j := FindApplied(s.log);
    var i := FindApplied(s.log[..j]);
    assert s.log[i] in s.log && s.log[j] in s.log;
    ExecKeepsApplyInv(s0, acts);
    ProcsKeepTheirKinds(s0, acts);
    assert EventOk(s, s.log[i]) && EventOk(s, s.log[j]) && ReopenedBetween(s.log, i, j);
    if NobodyElseOpens(s.log) {
      if !Open(s0.run) {
        ShutStaysShut(s0, acts);
      }
      var m :| i < m < j && Reopens(s.log, i, m);
      assert EventOk(s, s.log[m]) by {
        assert s.log[m] in s.log;
      }
    }
  }

  lemma {:induction false} ExecSplit(s: State, a: seq<Action>, b: seq<Action>)
    ensures Exec(s, a + b) == Exec(Exec(s, a), b)
    decreases |a|
  {
    if a == [] {
      assert a + b == b;
    } else {
      assert (a + b)[1..] == a[1..] + b;
      ExecSplit(Step(s, a[0]), a[1..], b);
    }
  }

  lemma ExecThree(s: State, a: Action, b: Action, c: Action)
    ensures Exec(s, [a, b, c]) == Step(Step(Step(s, a), b), c)
  {
    assert [a, b, c][1..] == [b, c] && [b, c][1..] == [c] && [c][1..] == [];
    var s1 := Step(s, a);
    var s2 := Step(s1, b);
    assert Exec(s, [a, b, c]) == Exec(s1, [b, c]) == Exec(s2, [c]) == Exec(Step(s2, c), []);
  }

  // ----- the commands acting alone

  ghost predicate CommandsOnly(acts: seq<Action>) {
    forall a | a in acts :: !a.Env?
  }

  ghost predicate HasDoubleApplyByCommands(s0: State) {
    exists acts: seq<Action> :: CommandsOnly(acts) && CountApplied(Exec(s0, acts).log) >= 2
  }

  /** Both applies accept the status the run has. */
  ghost predicate BothAccept(s0: State, a: Pid, b: Pid) {
    && s0.run.Some? && a != b && a in s0.procs && b in s0.procs
    && s0.procs[a].kind.Apply? && s0.procs[b].kind.Apply?
    && IsApplicable(s0.run.value.status, s0.procs[a].kind.force)
    && IsApplicable(s0.run.value.status, s0.procs[b].kind.force)
  }

  /** A link or plan and two applies that accept the status the run has. */
  ghost predicate WriterRacesOnStatus(s0: State) {
    && (exists w :: w in s0.procs && Restores(s0.procs[w].kind))
    && (exists a, b :: BothAccept(s0, a, b))
  }

  /** The only admitted status in the store, in hand or ever applied is `st`. */
  ghost predicate OnlyStatus(s: State, st: string) {
    && (Open(s.run) ==> s.run.value.status == st)
    && (forall p | p in s.procs && Holds(s.procs[p].phase) && Admitted(s.procs[p].phase.run.status) ::
          s.procs[p].phase.run.status == st)
    && (forall e | e in s.log :: e.Applied? ==> e.from == st)
  }

  lemma ProceedKeepsStatus(s: State, p: Pid, st: string)
    requires ProcsOk(s) && OnlyStatus(s, st) && st != "approved" && p in s.procs && s.procs[p].phase.Loaded?
    ensures OnlyStatus(Proceed(s, p, s.procs[p].phase.run, s.procs[p].phase.readAt), st)
  {
    assert ProcOk(s, p);
  }

  lemma StepKeepsStatus(s: State, a: Action, st: string)
    requires ProcsOk(s) && OnlyStatus(s, st) && st != "approved" && !a.Env?
    ensures OnlyStatus(Step(s, a), st)
  {
    if a.pid in s.procs {
      assert ProcOk(s, a.pid);
      if a.Advance? && s.procs[a.pid].phase.Loaded? {
        ProceedKeepsStatus(s, a.pid, st);
      }
    }
  }

  lemma {:induction false} CommandsKeepStatus(s: State, acts: seq<Action>, st: string)
    requires ProcsOk(s) && OnlyStatus(s, st) && st != "approved" && CommandsOnly(acts)
    ensures OnlyStatus(Exec(s, acts), st)
    decreases |acts|
  {
    if acts != [] {
      assert acts[0] in acts;
      StepKeepsStatus(s, acts[0], st);
      StepKeepsProcsOk(s, acts[0]);
      CommandsKeepStatus(Step(s, acts[0]), acts[1..], st);
    }
  }

  lemma {:induction false} CommandsLogThemselves(s: State, acts: seq<Action>)
    requires CommandsOnly(acts) && forall e | e in s.log :: !e.Other?
    ensures NobodyElseOpens(Exec(s, acts).log)
    decreases |acts|
  {
    if acts != [] {
      assert acts[0] in acts;
      StepLogsItself(s, acts[0]);
      CommandsLogThemselves(Step(s, acts[0]), acts[1..]);
    }
  }

  lemma StepLogsItself(s: State, a: Action)
    requires !a.Env? && forall e | e in s.log :: !e.Other?
    ensures forall e | e in Step(s, a).log :: !e.Other?
  {
  }

  lemma TwoApplied(s: State) returns (e: Event, f: Event)
    requires EventsOk(s) && CountApplied(s.log) >= 2
    ensures e in s.log && f in s.log && e.Applied? && f.Applied? && e.pid != f.pid
  {
    var j := FindApplied(s.log);
    var i := FindApplied(s.log[..j]);
    e, f := s.log[i], s.log[j];
  }

  lemma CommandsStatus(s0: State, acts: seq<Action>, st: string)
    requires Initial(s0) && CommandsOnly(acts) && s0.run.Some? && st == s0.run.value.status
    ensures st == "approved" || OnlyStatus(Exec(s0, acts), st)
  {
    if st != "approved" {
      CommandsKeepStatus(s0, acts, st);
    }
  }

  lemma CommandsNeed(s0: State, acts: seq<Action>)
    requires Initial(s0) && CommandsOnly(acts) && CountApplied(Exec(s0, acts).log) >= 2
    ensures WriterRacesOnStatus(s0)
  {
    var s := Exec(s0, acts);
    CommandsLogThemselves(s0, acts);
    DoubleApplyNeeds(s0, acts);
    var st := s0.run.value.status;
    ExecKeepsApplyInv(s0, acts);
    ProcsKeepTheirKinds(s0, acts);
    CommandsStatus(s0, acts, st);
    var e, f := TwoApplied(s);
    ApplierAccepts(s0, s, e, st);
    ApplierAccepts(s0, s, f, st);
    assert BothAccept(s0, e.pid, f.pid);
  }

  lemma ApplierAccepts(s0: State, s: State, e: Event, st: string)
    requires e.Applied? && e in s.log && EventsOk(s) && (st == "approved" || OnlyStatus(s, st))
    requires s.procs.Keys == s0.procs.Keys && forall p | p in s0.procs :: s.procs[p].kind == s0.procs[p].kind
    ensures e.pid in s0.procs && s0.procs[e.pid].kind.Apply? && IsApplicable(st, s0.procs[e.pid].kind.force)
  {
    assert EventOk(s, e);
  }

  /** The writer and both applies read the run. */
  lemma AllRead(s0: State, w: Pid, a: Pid, b: Pid)
    requires Initial(s0) && BothAccept(s0, a, b) && w in s0.procs && Restores(s0.procs[w].kind)
    ensures var run := s0.run.value;
            Exec(s0, [Advance(w), Advance(b), Advance(a)]) ==
            s0.(procs := s0.procs[w := Proc(s0.procs[w].kind, Loaded(run, 0))]
                                 [b := Proc(s0.procs[b].kind, Loaded(run, 0))]
                                 [a := Proc(s0.procs[a].kind, Loaded(run, 0))])
  {
    ExecThree(s0, Advance(w), Advance(b), Advance(a));
  }

  lemma LoadedApplies(s: State, a: Pid, run: Run)
    requires a in s.procs && s.procs[a].kind.Apply? && s.procs[a].phase == Loaded(run, 0)
    requires s.run.Some? && s.run.value.status == run.status
    ensures Step(s, Advance(a)) ==
            State(Some(s.run.value.(status := "running")), s.retryRows, s.procs[a := Proc(s.procs[a].kind, Done)],
                  s.log + [Applied(a, s.procs[a].kind.force, run.status)])
  {
  }

  /** A writer that read the run before it was applied puts the old status back. */
  lemma WriterRestores(s: State, w: Pid, run: Run) returns (acts: seq<Action>)
    requires w in s.procs && Restores(s.procs[w].kind) && s.procs[w].phase == Loaded(run, 0)
    requires s.run.Some? && s.run.value.status == "running"
    ensures CommandsOnly(acts)
    ensures var t := Exec(s, acts);
            && t.run.Some? && t.run.value.status == run.status
            && t.procs == s.procs[w := Proc(s.procs[w].kind, Done)]
            && |t.log| == |s.log| + 1 && t.log[..|s.log|] == s.log && IsWriteBack(t.log[|s.log|])
  {
    var step := Advance(w);
    var s1 := Step(s, step);
    assert [step][1..] == [] && [step, step][1..] == [step];
    if s.procs[w].kind.Link? {
      acts := [step];
      assert Exec(s, [step]) == Exec(s1, []) == s1;
    } else {
      acts := [step, step];
      assert Exec(s, [step, step]) == Exec(s1, [step]) == Exec(Step(s1, step), []) == Step(s1, step);
    }
  }

  lemma CommandsLetTwoApply(s0: State, w: Pid, a: Pid, b: Pid) returns (acts: seq<Action>)
    requires Initial(s0) && BothAccept(s0, a, b) && w in s0.procs && Restores(s0.procs[w].kind)
    ensures CommandsOnly(acts) && CountApplied(Exec(s0, acts).log) == 2
  {
    var run := s0.run.value;
    var read := [Advance(w), Advance(b), Advance(a)];
    AllRead(s0, w, a, b);
    var s1 := Exec(s0, read);
    LoadedApplies(s1, a, run);
    var s2 := Step(s1, Advance(a));
    var back := WriterRestores(s2, w, run);
    var s3 := Exec(s2, back);
    LoadedApplies(s3, b, run);
    var s4 := Step(s3, Advance(b));
    acts := read + ([Advance(a)] + (back + [Advance(b)]));
    ExecSplit(s0, read, [Advance(a)] + (back + [Advance(b)]));
    ExecSplit(s1, [Advance(a)], back + [Advance(b)]);
    ExecSplit(s2, back, [Advance(b)]);
    assert Exec(s1, [Advance(a)]) == s2 && Exec(s3, [Advance(b)]) == s4;
    TwoAppliedLog(s4.log);
  }

  // ----- with others

  /** Someone approves the run, and a fresh apply reads and applies it. */
  lemma ApprovedApply(s: State, a: Pid, approved: Run)
    requires a in s.procs && s.procs[a].kind.Apply? && s.procs[a].phase == Fresh && approved.status == "approved"
    ensures var t := Exec(s, [Env(Some(approved), 0), Advance(a), Advance(a)]);
            var mid := if Open(s.run) then s.log else s.log + [Other(true, 0)];
            && t.run == Some(approved.(status := "running"))
            && t.log == mid + [Applied(a, s.procs[a].kind.force, "approved")]
            && t.procs == s.procs[a := Proc(s.procs[a].kind, Done)]
  {
    ExecThree(s, Env(Some(approved), 0), Advance(a), Advance(a));
  }

  /** Someone approves the run, and a writer reads it and comes to the point of writing it back. */
  lemma ApprovedReading(s: State, w: Pid, approved: Run) returns (acts: seq<Action>)
    requires w in s.procs && Restores(s.procs[w].kind) && s.procs[w].phase == Fresh
    requires Open(s.run) && approved.status == "approved"
    ensures var t := Exec(s, acts);
            && w in t.procs && Open(t.run) && t.log == s.log && t.procs == s.procs[w := t.procs[w]]
            && t.procs[w].kind == s.procs[w].kind && Holds(t.procs[w].phase)
            && (t.procs[w].phase.Loaded? ==> t.procs[w].kind.Link?)
            && Admitted(t.procs[w].phase.run.status)
  {
    var env := Env(Some(approved), 0);
    if s.procs[w].kind.Link? {
      acts := [env, env, Advance(w)];
      ExecThree(s, env, env, Advance(w));
    } else {
      acts := [env, Advance(w), Advance(w)];
      ExecThree(s, env, Advance(w), Advance(w));
    }
  }

  /** It writes the admitted status back. */
  lemma WriterReopens(s: State, w: Pid)
    requires w in s.procs && s.run.Some? && Restores(s.procs[w].kind) && Holds(s.procs[w].phase)
    requires s.procs[w].phase.Loaded? ==> s.procs[w].kind.Link?
    requires Admitted(s.procs[w].phase.run.status)
    ensures var t := Step(s, Advance(w));
            && Open(t.run) && t.procs == s.procs[w := Proc(s.procs[w].kind, Done)]
            && |t.log| == |s.log| + 1 && t.log[..|s.log|] == s.log && IsWriteBack(t.log[|s.log|])
  {
  }

  lemma CountPair(log: seq<Event>, x: Event, y: Event)
    requires x.Applied? && !y.Applied?
    ensures CountApplied(log + [x, y]) == CountApplied(log) + 1
  {
    CountsAppend(log, x);
    CountsAppend(log + [x], y);
    assert log + [x, y] == log + [x] + [y];
  }

  lemma WriterLetsTwoApply(s0: State, w: Pid, a: Pid, b: Pid) returns (acts: seq<Action>)
    requires Initial(s0) && Open(s0.run) && a != b
    requires w in s0.procs && a in s0.procs && b in s0.procs
    requires Restores(s0.procs[w].kind) && s0.procs[a].kind.Apply? && s0.procs[b].kind.Apply?
    ensures CountApplied(Exec(s0, acts).log) == 2 && NobodyElseOpens(Exec(s0, acts).log)
  {
    var approved := s0.run.value.(status := "approved");
    var read := ApprovedReading(s0, w, approved);
    var s1 := Exec(s0, read);
    var first := [Env(Some(approved), 0), Advance(a), Advance(a)];
    ApprovedApply(s1, a, approved);
    var s2 := Exec(s1, first);
    WriterReopens(s2, w);
    var s3 := Step(s2, Advance(w));
    var second := [Env(Some(approved), 0), Advance(b), Advance(b)];
    ApprovedApply(s3, b, approved);
    var s4 := Exec(s3, second);
    acts := read + first + ([Advance(w)] + second);
    ExecSplit(s0, read + first, [Advance(w)] + second);
    ExecSplit(s0, read, first);
    ExecSplit(s2, [Advance(w)], second);
    assert Exec(s2, [Advance(w)]) == s3;
    TwoAppliedLog(s4.log);
  }

  lemma TwoAppliedLog(log: seq<Event>)
    requires |log| == 3 && log[0].Applied? && IsWriteBack(log[1]) && log[2].Applied?
    ensures CountApplied(log) == 2 && NobodyElseOpens(log)
  {
    CountPair([], log[0], log[1]);
    CountsAppend([log[0], log[1]], log[2]);
    assert [] + [log[0], log[1]] == [log[0], log[1]];
    assert log == [log[0], log[1]] + [log[2]];
  }

  /** Two applies and somebody else who opens the run in between. */
  lemma OthersLetTwoApply(s0: State, a: Pid, b: Pid) returns (acts: seq<Action>)
    requires Initial(s0) && a != b && a in s0.procs && b in s0.procs
    requires s0.procs[a].kind.Apply? && s0.procs[b].kind.Apply?
    ensures CountApplied(Exec(s0, acts).log) == 2
  {
    var approved := Run("approved", "", 0);
    var first := [Env(Some(approved), 0), Advance(a), Advance(a)];
    var second := [Env(Some(approved), 0), Advance(b), Advance(b)];
    acts := first + second;
    ExecSplit(s0, first, second);
    FirstRound(s0, a, b, approved);
    ApprovedApplyCounts(Exec(s0, first), b, approved);
  }

  lemma FirstRound(s0: State, a: Pid, b: Pid, approved: Run)
    requires Initial(s0) && a != b && a in s0.procs && b in s0.procs && approved.status == "approved"
    requires s0.procs[a].kind.Apply? && s0.procs[b].kind.Apply?
    ensures var t := Exec(s0, [Env(Some(approved), 0), Advance(a), Advance(a)]);
            b in t.procs && t.procs[b] == s0.procs[b] && CountApplied(t.log) == 1
  {
    ApprovedApply(s0, a, approved);
    ApprovedApplyCounts(s0, a, approved);
  }

  lemma ApprovedApplyCounts(s: State, a: Pid, approved: Run)
    requires a in s.procs && s.procs[a].kind.Apply? && s.procs[a].phase == Fresh && approved.status == "approved"
    ensures CountApplied(Exec(s, [Env(Some(approved), 0), Advance(a), Advance(a)]).log) == CountApplied(s.log) + 1
  {
    ApprovedApply(s, a, approved);
    var applied := Applied(a, s.procs[a].kind.force, "approved");
    CountsAppend(s.log, Other(true, 0));
    CountsAppend(s.log, applied);
    CountsAppend(s.log + [Other(true, 0)], applied);
  }

  /**
  The comment on apply's compare-and-set promises that no concurrent command can cause a second
  apply. Exactly when it fails: for the modelled commands acting alone, when a link or a plan and
  two applies that accept the run's status race; when others may approve an open run and open no
  closed one, when a link or a plan and any two applies meet a run that can be applied; when
  others may do anything, when there are two applies.
  */
  lemma DoubleApplyExactly(s0: State)
    requires Initial(s0)
    ensures HasDoubleApplyByCommands(s0) <==> WriterRacesOnStatus(s0)
    ensures HasDoubleApplyUnopened(s0) <==> WriterRacesTwoApplies(s0)
    ensures HasDoubleApply(s0) <==> TwoApplies(s0)
  {
    ByCommandsExactly(s0);
    UnopenedExactly(s0);
    ByAnyoneExactly(s0);
  }

  lemma ByCommandsExactly(s0: State)
    requires Initial(s0)
    ensures HasDoubleApplyByCommands(s0) <==> WriterRacesOnStatus(s0)
  {
    if HasDoubleApplyByCommands(s0) {
      var acts: seq<Action> :| CommandsOnly(acts) && CountApplied(Exec(s0, acts).log) >= 2;
      CommandsNeed(s0, acts);
    }
    if WriterRacesOnStatus(s0) {
      var w :| w in s0.procs && Restores(s0.procs[w].kind);
      var a, b :| BothAccept(s0, a, b);
      var acts := CommandsLetTwoApply(s0, w, a, b);
    }
  }

  lemma UnopenedExactly(s0: State)
    requires Initial(s0)
    ensures HasDoubleApplyUnopened(s0) <==> WriterRacesTwoApplies(s0)
  {
    if HasDoubleApplyUnopened(s0) {
      var acts: seq<Action> :| CountApplied(Exec(s0, acts).log) >= 2 && NobodyElseOpens(Exec(s0, acts).log);
      DoubleApplyNeeds(s0, acts);
    }
    if WriterRacesTwoApplies(s0) {
      var a, b :| a != b && a in s0.procs && b in s0.procs
                  && s0.procs[a].kind.Apply? && s0.procs[b].kind.Apply?;
      var w :| w in s0.procs && Restores(s0.procs[w].kind);
      var acts := WriterLetsTwoApply(s0, w, a, b);
    }
  }

  lemma ByAnyoneExactly(s0: State)
    requires Initial(s0)
    ensures HasDoubleApply(s0) <==> TwoApplies(s0)
  {
    if HasDoubleApply(s0) {
      var acts: seq<Action> :| CountApplied(Exec(s0, acts).log) >= 2;
      DoubleApplyNeeds(s0, acts);
    }
    if TwoApplies(s0) {
      var a, b :| a != b && a in s0.procs && b in s0.procs
                  && s0.procs[a].kind.Apply? && s0.procs[b].kind.Apply?;
      var acts := OthersLetTwoApply(s0, a, b);
    }
  }

  // ----- the retry cap

  function CountRetried(log: seq<Event>): nat {
    if log == [] then 0
    else CountRetried(log[..|log| - 1]) + if log[|log| - 1].Retried? then 1 else 0
  }

  function CountUnrecorded(log: seq<Event>): nat {
    if log == [] then 0
    else CountUnrecorded(log[..|log| - 1]) + if log[|log| - 1].RetryUnrecorded? then 1 else 0
  }

  /** The retry rows that others stored. */
  function OtherRows(log: seq<Event>): nat {
    if log == [] then 0
    else OtherRows(log[..|log| - 1]) + if log[|log| - 1].Other? then log[|log| - 1].rows else 0
  }

  /** Retry processes between a passed count and the end of their audit write. */
  ghost function InFlight(s: State): set<Pid> {
    set p | p in s.procs && (s.procs[p].phase.Counted? || s.procs[p].phase.Recording?)
  }

  ghost function Unsettled(s: State): set<Pid> {
    set p | p in s.procs && s.procs[p].phase.Recording?
  }

  ghost predicate AtMostInFlight(s: State, acts: seq<Action>, k: nat)
    decreases |acts|
  {
    && |InFlight(s)| <= k
    && (acts == [] || AtMostInFlight(Step(s, acts[0]), acts[1..], k))
  }

  /** `rows0` retry rows were stored when the schedule began; others may have added to them. */
  ghost predicate RetryInv(s: State, rows0: nat, k: nat) {
    && CountRetried(s.log) + OtherRows(s.log) == s.retryRows - rows0 + CountUnrecorded(s.log) + |Unsettled(s)|
    && rows0 + OtherRows(s.log) <= s.retryRows
    && (rows0 < MAX_ATTEMPTS ==> s.retryRows - OtherRows(s.log) + |InFlight(s)| <= MAX_ATTEMPTS - 1 + k)
    && (rows0 >= MAX_ATTEMPTS ==> InFlight(s) == {})
  }

  predicate Flying(phase: Phase) {
    phase.Counted? || phase.Recording?
  }

  lemma ToggleSize<T>(a: set<T>, b: set<T>, p: T)
    requires a - {p} == b - {p}
    ensures |b| == |a| - Bit(p in a) + Bit(p in b)
  {
    assert a == if p in a then (a - {p}) + {p} else a - {p};
    assert b == if p in b then (b - {p}) + {p} else b - {p};
  }

  lemma MoveSizes(s: State, t: State, p: Pid)
    requires p in s.procs && p in t.procs && t.procs == s.procs[p := t.procs[p]]
    ensures |InFlight(t)| == |InFlight(s)| - Bit(Flying(s.procs[p].phase)) + Bit(Flying(t.procs[p].phase))
    ensures |Unsettled(t)| ==
            |Unsettled(s)| - Bit(s.procs[p].phase.Recording?) + Bit(t.procs[p].phase.Recording?)
  {
    ToggleSize(InFlight(s), InFlight(t), p);
    ToggleSize(Unsettled(s), Unsettled(t), p);
  }

  /** What one step of process `p` does to the rows and to the retry events. */
  ghost predicate RetryDelta(s: State, t: State, p: Pid, failed: bool) {
    && p in s.procs && p in t.procs && t.procs == s.procs[p := t.procs[p]]
    && var was, now := s.procs[p].phase, t.procs[p].phase;
    && (now.Recording? ==> was.Counted?)
    && (now.Counted? ==> was.Loaded? && s.retryRows < MAX_ATTEMPTS)
    && t.retryRows == s.retryRows + Bit(was.Recording? && !failed)
    && CountRetried(t.log) == CountRetried(s.log) + Bit(now.Recording?)
    && CountUnrecorded(t.log) == CountUnrecorded(s.log) + Bit(was.Recording? && failed)
    && OtherRows(t.log) == OtherRows(s.log)
  }

  lemma CountOneMore(log: seq<Event>, e: Event)
    ensures CountRetried(log + [e]) == CountRetried(log) + Bit(e.Retried?)
    ensures CountUnrecorded(log + [e]) == CountUnrecorded(log) + Bit(e.RetryUnrecorded?)
    ensures OtherRows(log + [e]) == OtherRows(log) + if e.Other? then e.rows else 0
  {
    assert (log + [e])[..|log|] == log;
  }

  lemma ProceedRetryDelta(s: State, p: Pid)
    requires p in s.procs && s.procs[p].phase.Loaded?
    ensures RetryDelta(s, Proceed(s, p, s.procs[p].phase.run, s.procs[p].phase.readAt), p, false)
  {
    var t := Proceed(s, p, s.procs[p].phase.run, s.procs[p].phase.readAt);
    if t.log != s.log {
      OtherWriteDelta(s, t, p, t.log[|s.log|]);
    }
  }

  lemma OtherWriteDelta(s: State, t: State, p: Pid, e: Event)
    requires p in s.procs && p in t.procs && t.procs == s.procs[p := t.procs[p]]
    requires Holds(s.procs[p].phase) && t.procs[p].phase == Done
    requires t.retryRows == s.retryRows && t.log == s.log + [e]
    requires !e.Retried? && !e.RetryUnrecorded? && !e.Other?
    ensures RetryDelta(s, t, p, false)
  {
    CountOneMore(s.log, e);
  }

  lemma StepRetryDelta(s: State, a: Action)
    requires !a.Env? && a.pid in s.procs
    ensures RetryDelta(s, Step(s, a), a.pid, a.Fail?)
           || (Step(s, a) == s && s.procs[a.pid].phase == Done)
  {
    var t := Step(s, a);
    if a.Advance? && s.procs[a.pid].phase.Loaded? {
      ProceedRetryDelta(s, a.pid);
    } else if t.log != s.log {
      CountOneMore(s.log, t.log[|s.log|]);
    }
  }

  lemma StepKeepsRetryInv(s: State, a: Action, rows0: nat, k: nat)
    requires RetryInv(s, rows0, k)
    requires |InFlight(Step(s, a))| <= k
    ensures RetryInv(Step(s, a), rows0, k)
  {
    var t := Step(s, a);
    if a.Env? {
      assert InFlight(t) == InFlight(s) && Unsettled(t) == Unsettled(s);
      if t.log != s.log {
        CountOneMore(s.log, t.log[|s.log|]);
      }
    } else if a.pid in s.procs && t != s {
      StepRetryDelta(s, a);
      MoveSizes(s, t, a.pid);
      assert a.pid in InFlight(s) <==> Flying(s.procs[a.pid].phase);
    }
  }

  lemma {:induction false} ExecKeepsRetryInv(s: State, acts: seq<Action>, rows0: nat, k: nat)
    requires RetryInv(s, rows0, k) && AtMostInFlight(s, acts, k)
    ensures RetryInv(Exec(s, acts), rows0, k)
    decreases |acts|
  {
    if acts != [] {
      StepKeepsRetryInv(s, acts[0], rows0, k);
      ExecKeepsRetryInv(Step(s, acts[0]), acts[1..], rows0, k);
    }
  }

  /**
  The retry cap is counted in audit rows, so concurrency and lost rows stretch it: with at
  most k retries between count and audit at any time the run is retried at most
  (cap - 1 - rows already there) + k + lost rows times, and never once the cap is reached.
  One retry at a time with every audit row written gives the documented three.
  */
  lemma RetryBound(s0: State, acts: seq<Action>, k: nat)
    requires Initial(s0) && AtMostInFlight(s0, acts, k)
    ensures var log := Exec(s0, acts).log;
            && (s0.retryRows < MAX_ATTEMPTS ==>
                  CountRetried(log) + s0.retryRows <= MAX_ATTEMPTS - 1 + k + CountUnrecorded(log))
            && (s0.retryRows >= MAX_ATTEMPTS ==> CountRetried(log) == 0)
            && (k == 1 && s0.retryRows == 0 && CountUnrecorded(log) == 0 ==> CountRetried(log) <= 3)
  {
    assert InFlight(s0) == {} && Unsettled(s0) == {};
    ExecKeepsRetryInv(s0, acts, s0.retryRows, k);
    var s := Exec(s0, acts);
    SubsetSize(Unsettled(s), InFlight(s));
    if s0.retryRows >= MAX_ATTEMPTS {
      NoRetryAtCap(s0, acts);
    }
  }

  lemma {:induction false} SubsetSize<T>(a: set<T>, b: set<T>)
    requires a <= b
    ensures |a| <= |b|
  {
    if a != {} {
      var x :| x in a;
      SubsetSize(a - {x}, b - {x});
    }
  }

  lemma NoRetryStep(s: State, a: Action)
    requires s.retryRows >= MAX_ATTEMPTS && InFlight(s) == {}
    ensures var t := Step(s, a);
            t.retryRows >= MAX_ATTEMPTS && InFlight(t) == {} && CountRetried(t.log) == CountRetried(s.log)
  {
    var t := Step(s, a);
    assert forall p | p in s.procs :: p !in InFlight(s);
    if a.Env? {
      if t.log != s.log {
        CountOneMore(s.log, t.log[|s.log|]);
      }
    } else if a.pid in s.procs && t != s {
      StepRetryDelta(s, a);
    }
  }

  lemma {:induction false} NoRetryAtCap(s: State, acts: seq<Action>)
    requires s.retryRows >= MAX_ATTEMPTS && InFlight(s) == {}
    ensures CountRetried(Exec(s, acts).log) == CountRetried(s.log)
    decreases |acts|
  {
    if acts != [] {
      NoRetryStep(s, acts[0]);
      NoRetryAtCap(Step(s, acts[0]), acts[1..]);
    }
  }

  // ----- the bound is reached

  lemma {:induction false} InFlightSplit(s: State, a: seq<Action>, b: seq<Action>, k: nat)
    requires AtMostInFlight(s, a, k) && AtMostInFlight(Exec(s, a), b, k)
    ensures AtMostInFlight(s, a + b, k)
    decreases |a|
  {
    if a == [] {
      assert a + b == b;
    } else {
      assert (a + b)[1..] == a[1..] + b;
      InFlightSplit(Step(s, a[0]), a[1..], b, k);
    }
  }

  lemma InFlightOne(s: State, a: Action, k: nat)
    requires |InFlight(s)| <= k && |InFlight(Step(s, a))| <= k
    ensures AtMostInFlight(s, [a], k) && Exec(s, [a]) == Step(s, a)
  {
    assert [a][1..] == [];
  }

  /** `p` and every process from `p` up to `hi` still wait to retry a failed run. */
  ghost predicate Waiting(s: State, run: Run, p: nat, hi: nat) {
    && run.status == "failed" && s.run == Some(run)
    && forall q | p <= q < hi :: q in s.procs && s.procs[q] == Proc(Retry, Fresh)
  }

  lemma Extend(s: State, acts: seq<Action>, a: Action, k: nat) returns (more: seq<Action>)
    requires AtMostInFlight(s, acts, k) && AtMostInFlight(Exec(s, acts), [a], k)
    ensures AtMostInFlight(s, more, k) && Exec(s, more) == Step(Exec(s, acts), a)
  {
    more := acts + [a];
    ExecSplit(s, acts, [a]);
    InFlightSplit(s, acts, [a], k);
    InFlightOne(Exec(s, acts), a, k);
  }

  /** Processes p .. hi all pass the count before any of them writes. */
  lemma {:induction false} CountAll(s: State, run: Run, p: nat, hi: nat, k: nat) returns (acts: seq<Action>)
    requires Waiting(s, run, p, hi) && p <= hi && s.retryRows < MAX_ATTEMPTS
    requires |InFlight(s)| + (hi - p) <= k
    ensures AtMostInFlight(s, acts, k)
    ensures var t := Exec(s, acts);
            && t.run == s.run && t.log == s.log && t.retryRows == s.retryRows
            && |InFlight(t)| <= |InFlight(s)| + (hi - p)
            && t.procs.Keys == s.procs.Keys
            && (forall q | q in s.procs && !(p <= q < hi) :: t.procs[q] == s.procs[q])
            && (forall q | p <= q < hi :: t.procs[q] == Proc(Retry, Counted(run)))
    decreases hi - p
  {
    acts := [];
    if p < hi {
      var s1 := Step(s, Advance(p));
      var s2 := Step(s1, Advance(p));
      MoveSizes(s, s1, p);
      MoveSizes(s1, s2, p);
      InFlightOne(s, Advance(p), k);
      InFlightOne(s1, Advance(p), k);
      var first := Extend(s, [Advance(p)], Advance(p), k);
      var rest := CountAll(s2, run, p + 1, hi, k);
      acts := first + rest;
      ExecSplit(s, first, rest);
      InFlightSplit(s, first, rest, k);
    }
  }

  lemma RetryWrites(s: State, run: Run, p: nat)
    requires s.run == Some(run) && p in s.procs && s.procs[p] == Proc(Retry, Counted(run))
    ensures var t := Step(s, Advance(p));
            && t.run.Some? && t.procs == s.procs[p := Proc(Retry, Recording)] && t.retryRows == s.retryRows
            && CountRetried(t.log) == CountRetried(s.log) + 1 && CountUnrecorded(t.log) == CountUnrecorded(s.log)
            && |InFlight(t)| == |InFlight(s)|
  {
    CountOneMore(s.log, Retried(p));
    MoveSizes(s, Step(s, Advance(p)), p);
  }

  lemma RetrySettles(s: State, p: nat, lost: bool)
    requires p in s.procs && s.procs[p] == Proc(Retry, Recording)
    ensures var t := Step(s, if lost then Fail(p) else Advance(p));
            && t.run == s.run && t.procs == s.procs[p := Proc(Retry, Done)]
            && t.retryRows == s.retryRows + Bit(!lost)
            && CountRetried(t.log) == CountRetried(s.log)
            && CountUnrecorded(t.log) == CountUnrecorded(s.log) + Bit(lost)
            && |InFlight(t)| <= |InFlight(s)|
  {
    CountOneMore(s.log, if lost then RetryUnrecorded(p) else RetryRecorded(p));
    MoveSizes(s, Step(s, if lost then Fail(p) else Advance(p)), p);
  }

  /** A counted retry writes, settles its audit row, and the environment fails the run again. */
  lemma FinishRetry(s: State, run: Run, p: nat, lost: bool, k: nat) returns (acts: seq<Action>)
    requires run.status == "failed" && s.run == Some(run) && p in s.procs
    requires s.procs[p] == Proc(Retry, Counted(run)) && |InFlight(s)| <= k
    ensures AtMostInFlight(s, acts, k)
    ensures var t := Exec(s, acts);
            && t.run == Some(run) && t.procs == s.procs[p := Proc(Retry, Done)]
            && t.retryRows == s.retryRows + Bit(!lost)
            && CountRetried(t.log) == CountRetried(s.log) + 1
            && CountUnrecorded(t.log) == CountUnrecorded(s.log) + Bit(lost)
  {
    var last := if lost then Fail(p) else Advance(p);
    var s1 := Step(s, Advance(p));
    var s2 := Step(s1, last);
    RetryWrites(s, run, p);
    RetrySettles(s1, p, lost);
    InFlightOne(s, Advance(p), k);
    InFlightOne(s1, last, k);
    acts := Extend(s, [Advance(p)], last, k);
    assert InFlight(Step(s2, Env(Some(run), 0))) == InFlight(s2);
    InFlightOne(s2, Env(Some(run), 0), k);
    acts := Extend(s, acts, Env(Some(run), 0), k);
  }

  /** One retry from start to end. */
  lemma RetryAlone(s: State, run: Run, p: nat, hi: nat, lost: bool, k: nat) returns (acts: seq<Action>)
    requires Waiting(s, run, p, hi) && p < hi && s.retryRows < MAX_ATTEMPTS
    requires InFlight(s) == {} && k >= 1
    ensures AtMostInFlight(s, acts, k)
    ensures var t := Exec(s, acts);
            && Waiting(t, run, p + 1, hi) && InFlight(t) == {}
            && t.retryRows == s.retryRows + Bit(!lost)
            && CountRetried(t.log) == CountRetried(s.log) + 1
            && CountUnrecorded(t.log) == CountUnrecorded(s.log) + Bit(lost)
  {
    var first := CountAll(s, run, p, p + 1, k);
    var s1 := Exec(s, first);
    var rest := FinishRetry(s1, run, p, lost, k);
    acts := first + rest;
    ExecSplit(s, first, rest);
    InFlightSplit(s, first, rest, k);
    AloneAgain(s, s1, Exec(s1, rest), run, p, hi);
  }

  lemma AloneAgain(s: State, s1: State, t: State, run: Run, p: nat, hi: nat)
    requires Waiting(s, run, p, hi) && p < hi && InFlight(s) == {} && t.run == Some(run)
    requires s1.procs.Keys == s.procs.Keys && forall q | q in s.procs && q != p :: s1.procs[q] == s.procs[q]
    requires t.procs == s1.procs[p := Proc(Retry, Done)]
    ensures Waiting(t, run, p + 1, hi) && InFlight(t) == {}
  {
    assert forall q | q in s.procs :: q !in InFlight(s);
  }

  lemma {:induction false} RetrySeveral(s: State, run: Run, p: nat, n: nat, hi: nat, lost: bool, k: nat)
    returns (acts: seq<Action>)
    requires Waiting(s, run, p, hi) && p + n <= hi
    requires s.retryRows + (if lost then 0 else n) <= MAX_ATTEMPTS - 1
    requires InFlight(s) == {} && k >= 1
    ensures AtMostInFlight(s, acts, k)
    ensures var t := Exec(s, acts);
            && Waiting(t, run, p + n, hi) && InFlight(t) == {}
            && t.retryRows == s.retryRows + (if lost then 0 else n)
            && CountRetried(t.log) == CountRetried(s.log) + n
            && CountUnrecorded(t.log) == CountUnrecorded(s.log) + (if lost then n else 0)
    decreases n
  {
    if n == 0 {
      acts := [];
    } else {
      var first := RetryAlone(s, run, p, hi, lost, k);
      var rest := RetrySeveral(Exec(s, first), run, p + 1, n - 1, hi, lost, k);
      acts := first + rest;
      ExecSplit(s, first, rest);
      InFlightSplit(s, first, rest, k);
    }
  }

  lemma {:induction false} WriteAll(s: State, run: Run, p: nat, hi: nat, k: nat) returns (acts: seq<Action>)
    requires s.run.Some? && p <= hi && |InFlight(s)| <= k
    requires forall q | p <= q < hi :: q in s.procs && s.procs[q] == Proc(Retry, Counted(run))
    ensures AtMostInFlight(s, acts, k)
    ensures CountRetried(Exec(s, acts).log) == CountRetried(s.log) + (hi - p)
    ensures CountUnrecorded(Exec(s, acts).log) == CountUnrecorded(s.log)
    decreases hi - p
  {
    acts := [];
    if p < hi {
      var s1 := Step(s, Advance(p));
      MoveSizes(s, s1, p);
      CountOneMore(s.log, Retried(p));
      InFlightOne(s, Advance(p), k);
      var rest := WriteAll(s1, run, p + 1, hi, k);
      acts := [Advance(p)] + rest;
      ExecSplit(s, [Advance(p)], rest);
      InFlightSplit(s, [Advance(p)], rest, k);
    }
  }

  function FreshRetries(n: nat): (procs: map<Pid, Proc>)
    ensures forall q: nat :: q in procs <==> q < n
    ensures forall q | q in procs :: procs[q] == Proc(Retry, Fresh)
  {
    if n == 0 then map[] else FreshRetries(n - 1)[n - 1 := Proc(Retry, Fresh)]
  }

  /** For every k >= 1 and every number of lost rows some schedule reaches the bound of RetryBound. */
  lemma RetryBoundIsReached(k: nat, lost: nat) returns (s0: State, acts: seq<Action>)
    requires k >= 1
    ensures Initial(s0) && s0.retryRows == 0 && AtMostInFlight(s0, acts, k)
    ensures CountUnrecorded(Exec(s0, acts).log) == lost
    ensures CountRetried(Exec(s0, acts).log) == MAX_ATTEMPTS - 1 + k + lost
  {
    var hi := lost + 2 + k;
    var run := Run("failed", "", 0);
    s0 := State(Some(run), 0, FreshRetries(hi), []);
    assert InFlight(s0) == {};
    var a := RetrySeveral(s0, run, 0, lost, hi, true, k);
    var s1 := Exec(s0, a);
    var b := RetrySeveral(s1, run, lost, 2, hi, false, k);
    var s2 := Exec(s1, b);
    var c := CountAll(s2, run, lost + 2, hi, k);
    var s3 := Exec(s2, c);
    var d := WriteAll(s3, run, lost + 2, hi, k);
    ExecSplit(s2, c, d);
    InFlightSplit(s2, c, d, k);
    ExecSplit(s1, b, c + d);
    InFlightSplit(s1, b, c + d, k);
    acts := a + (b + (c + d));
    ExecSplit(s0, a, b + (c + d));
    InFlightSplit(s0, a, b + (c + d), k);
  }

  /** With at most k retries in flight and at most this many lost rows, three retries are the most. */
  ghost predicate CapHolds(k: nat, lost: nat) {
    forall s0: State, acts: seq<Action> |
      Initial(s0) && s0.retryRows == 0 && AtMostInFlight(s0, acts, k) && CountUnrecorded(Exec(s0, acts).log) <= lost ::
      CountRetried(Exec(s0, acts).log) <= 3
  }

  /** The cap of three is kept exactly when retries run one at a time and no audit row is lost. */
  lemma CapHoldsExactly(k: nat, lost: nat)
    requires k >= 1
    ensures CapHolds(k, lost) <==> k == 1 && lost == 0
  {
    if k == 1 && lost == 0 {
      forall s0: State, acts: seq<Action> | Initial(s0) && s0.retryRows == 0 && AtMostInFlight(s0, acts, k)
                                            && CountUnrecorded(Exec(s0, acts).log) <= lost
        ensures CountRetried(Exec(s0, acts).log) <= 3
      {
        RetryBound(s0, acts, k);
      }
    } else {
      var s0, acts := RetryBoundIsReached(k, lost);
    }
  }
}
