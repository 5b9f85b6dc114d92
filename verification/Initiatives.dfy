/**
 The initiative lifecycle (launchInitiative, recordInitiativeOutcome, stopInitiative and
 addInitiativeDecision in src/lib/api-impl.ts) under concurrent requests.

 A process is one request. Its statements are not in a transaction: it reads the row, checks it,
 closes it with a compare-and-set (or creates it), and then appends to the decision log. Each
 statement is one `Run` event and a `Crash` may stop the request between any two of them.
 */
module Initiatives {
  import opened Wrappers

  datatype Status = Draft | Active | InReview | Completed | Stopped

  datatype Outcome = Improved | Unchanged | Worsened | Inconclusive

  datatype Initiative = Initiative(owner: string, status: Status, outcome: Option<Outcome>)

  datatype DecisionEvent = LaunchedEvent | NotedEvent | CompletedEvent | StoppedEvent

  datatype Decision = Decision(id: string, author: string, event: DecisionEvent, note: Option<string>)

  datatype Call =
    | Launch(id: string, isManager: bool, actor: string)
    | Review(id: string, outcome: Outcome, isAdmin: bool, actor: string)
    | Stop(id: string, isAdmin: bool, actor: string)
    | Note(id: string, note: string, isAdmin: bool, actor: string)
  {
    predicate Closes() {
      Review? || Stop?
    }

    // The log entry the call appends when it succeeds.
    function Entry(): Decision {
      match this
      case Launch(id, _, actor) => Decision(id, actor, LaunchedEvent, None)
      case Review(id, _, _, actor) => Decision(id, actor, CompletedEvent, None)
      case Stop(id, _, actor) => Decision(id, actor, StoppedEvent, None)
      case Note(id, note, _, actor) => Decision(id, actor, NotedEvent, Some(note))
    }
  }

  datatype Pc = Start | Guarded | Written | Succeeded | NotFound | Forbidden | Conflict | Crashed(written: bool)

  datatype Process = Process(call: Call, pc: Pc)

  // `winners` is history: which process's compare-and-set closed an initiative.
  datatype State = State(rows: map<string, Initiative>, log: seq<Decision>, procs: map<nat, Process>,
                         winners: map<string, nat>)

  datatype Event = Begin(pid: nat, call: Call) | Run(pid: nat) | Crash(pid: nat)

  predicate Reviewable(status: Status) {
    status == Active || status == InReview
  }

  predicate Open(status: Status) {
    status == Draft || Reviewable(status)
  }

  // ------------------------------------------------------------------- steps

  function SetPc(s: State, pid: nat, pc: Pc): State
    requires pid in s.procs
  {
    s.(procs := s.procs[pid := s.procs[pid].(pc := pc)])
  }

  // The read of the row with the authorization and status guards that follow it.
  function Guard(s: State, call: Call): Pc
    requires !call.Launch?
  {
    if call.id !in s.rows then NotFound
    else
      var row := s.rows[call.id];
      if !call.isAdmin && row.owner != call.actor then Forbidden
      else if call.Review? && !Reviewable(row.status) then Conflict
      else if call.Stop? && !Open(row.status) then Conflict
      else Guarded
  }

  // setOutcome and setStatus: one conditional update, which reports whether it applied.
  function CompareAndSet(s: State, pid: nat): State
    requires pid in s.procs && s.procs[pid].call.Closes()
  {
    var call := s.procs[pid].call;
    if call.id in s.rows && (if call.Review? then Reviewable(s.rows[call.id].status) else Open(s.rows[call.id].status)) then
      var row := if call.Review? then s.rows[call.id].(status := Completed, outcome := Some(call.outcome))
                 else s.rows[call.id].(status := Stopped);
      SetPc(s, pid, Written).(rows := s.rows[call.id := row], winners := s.winners[call.id := pid])
    else SetPc(s, pid, Conflict)
  }

  function RunNext(s: State, pid: nat): State
    requires pid in s.procs
  {
    var call := s.procs[pid].call;
    match s.procs[pid].pc
    case Start =>
      if call.Launch? then
        if !call.isManager then SetPc(s, pid, Forbidden)
        else if call.id in s.rows then s
        else SetPc(s, pid, Written).(rows := s.rows[call.id := Initiative(call.actor, Active, None)])
      else SetPc(s, pid, Guard(s, call))
    case Guarded => if call.Closes() then CompareAndSet(s, pid) else SetPc(s, pid, Written)
    case Written => SetPc(s, pid, Succeeded).(log := s.log + [call.Entry()])
    case _ => s
  }

  function Next(s: State, e: Event): State {
    match e
    case Begin(pid, call) =>
      if pid in s.procs then s else s.(procs := s.procs[pid := Process(call, Start)])
    case Run(pid) => if pid in s.procs then RunNext(s, pid) else s
    case Crash(pid) =>
      if pid in s.procs && (s.procs[pid].pc.Start? || s.procs[pid].pc.Guarded? || s.procs[pid].pc.Written?)
      then SetPc(s, pid, Crashed(s.procs[pid].pc.Written?)) else s
  }

  function Exec(s: State, events: seq<Event>): State {
    if events == [] then s else Next(Exec(s, events[..|events| - 1]), events[|events| - 1])
  }

  predicate IsTerminal(d: Decision, id: string) {
    d.id == id && (d.event == CompletedEvent || d.event == StoppedEvent)
  }

  // The terminal entries of one initiative, in log order.
  function Terminals(log: seq<Decision>, id: string): seq<Decision> {
    if log == [] then []
    else Terminals(log[..|log| - 1], id) + if IsTerminal(log[|log| - 1], id) then [log[|log| - 1]] else []
  }

  // No request is running, and open initiatives have no outcome and no terminal entry.
  ghost predicate Quiet(s: State) {
    && s.procs == map[] && s.winners == map[]
    && (forall id | id in s.rows && Open(s.rows[id].status) :: s.rows[id].outcome == None)
    && (forall id | id !in s.rows || Open(s.rows[id].status) :: Terminals(s.log, id) == [])
  }

  // --------------------------------------------------------------- invariant

  predicate Won(p: Process) {
    p.call.Closes() && (p.pc.Written? || p.pc.Succeeded? || p.pc == Crashed(true))
  }

  // What the winner of an initiative left: its status and outcome, and its log entry once appended.
  ghost predicate Closed(s: State, id: string, w: nat) {
    && w in s.procs && Won(s.procs[w]) && s.procs[w].call.id == id && id in s.rows
    && (match s.procs[w].call
        case Review(_, outcome, _, _) => s.rows[id].status == Completed && s.rows[id].outcome == Some(outcome)
        case _ => s.rows[id].status == Stopped && s.rows[id].outcome == None)
    && Terminals(s.log, id) == if s.procs[w].pc.Succeeded? then [s.procs[w].call.Entry()] else []
  }

  ghost predicate Inv(s: State) {
    && (forall p | p in s.procs && Won(s.procs[p]) ::
          s.procs[p].call.id in s.winners && s.winners[s.procs[p].call.id] == p)
    && (forall id | id in s.winners :: Closed(s, id, s.winners[id]))
    && (forall id | id in s.rows && Open(s.rows[id].status) ::
          s.rows[id].outcome == None && Terminals(s.log, id) == [] && id !in s.winners)
    && (forall id | id !in s.rows :: Terminals(s.log, id) == [] && id !in s.winners)
  }

  lemma TerminalsAppend(log: seq<Decision>, d: Decision, id: string)
    ensures Terminals(log + [d], id) == Terminals(log, id) + if IsTerminal(d, id) then [d] else []
  {
    assert (log + [d])[..|log|] == log;
  }

  // A compare-and-set that applied: one open row is closed by a process that becomes its winner.
  lemma WinKeepsInv(s: State, s': State, pid: nat, id: string)
    requires Inv(s) && pid in s.procs && !Won(s.procs[pid])
    requires id == s.procs[pid].call.id && id in s.rows && Open(s.rows[id].status)
    requires s'.log == s.log && s'.winners == s.winners[id := pid]
    requires s'.procs == s.procs[pid := Process(s.procs[pid].call, Written)]
    requires id in s'.rows && s'.rows == s.rows[id := s'.rows[id]] && !Open(s'.rows[id].status)
    requires Closed(s', id, pid)
    ensures Inv(s')
  {
    forall other | other in s'.winners ensures Closed(s', other, s'.winners[other]) {
      if other != id {
        assert Closed(s, other, s.winners[other]);
      }
    }
  }

  lemma CompareAndSetKeepsInv(s: State, pid: nat)
    requires Inv(s) && pid in s.procs && s.procs[pid].pc.Guarded? && s.procs[pid].call.Closes()
    ensures Inv(CompareAndSet(s, pid))
  {
    var s', id := CompareAndSet(s, pid), s.procs[pid].call.id;
    if s'.procs[pid].pc.Conflict? {
      QuietStepKeepsInv(s, s');
    } else {
      assert s'.procs[pid] == Process(s.procs[pid].call, Written);
      assert Closed(s', id, pid);
      WinKeepsInv(s, s', pid, id);
    }
  }

  lemma LaunchKeepsInv(s: State, pid: nat)
    requires Inv(s) && pid in s.procs && s.procs[pid].pc.Start? && s.procs[pid].call.Launch?
    ensures Inv(RunNext(s, pid))
  {
    var s' := RunNext(s, pid);
    forall id | id in s'.winners ensures Closed(s', id, s'.winners[id]) {
      assert Closed(s, id, s.winners[id]);
    }
  }

  // A step that leaves the tables alone and moves no process into or out of the winners.
  ghost predicate LeavesTables(s: State, s': State) {
    && s'.rows == s.rows && s'.log == s.log && s'.winners == s.winners
    && (forall p | p in s.procs && Won(s.procs[p]) ::
          p in s'.procs && s'.procs[p].call == s.procs[p].call && Won(s'.procs[p])
          && (s'.procs[p].pc.Succeeded? <==> s.procs[p].pc.Succeeded?))
    && (forall p | p in s'.procs && Won(s'.procs[p]) :: p in s.procs && Won(s.procs[p]))
  }

  // A creation, a compare-and-set or an append.
  predicate Writes(s: State, e: Event) {
    && e.Run? && e.pid in s.procs
    && var p := s.procs[e.pid];
    p.pc.Written? || (p.pc.Guarded? && p.call.Closes()) || (p.pc.Start? && p.call.Launch?)
  }

  lemma OtherStepsLeaveTables(s: State, e: Event)
    requires !Writes(s, e)
    ensures LeavesTables(s, Next(s, e))
  {
  }

  lemma QuietStepKeepsInv(s: State, s': State)
    requires Inv(s) && LeavesTables(s, s')
    ensures Inv(s')
  {
    forall id | id in s'.winners ensures Closed(s', id, s'.winners[id]) {
      assert Closed(s, id, s.winners[id]);
    }
  }

  lemma StepKeepsInv(s: State, e: Event)
    requires Inv(s)
    ensures Inv(Next(s, e))
  {
    if !Writes(s, e) {
      OtherStepsLeaveTables(s, e);
      QuietStepKeepsInv(s, Next(s, e));
    } else if s.procs[e.pid].pc.Written? {
      AppendKeepsInv(s, Next(s, e), e.pid);
    } else if s.procs[e.pid].pc.Guarded? {
      CompareAndSetKeepsInv(s, e.pid);
    } else {
      LaunchKeepsInv(s, e.pid);
    }
  }

  // The entry of a call ends an initiative exactly when the call closes it.
  lemma EntryIsTerminal(call: Call, id: string)
    ensures IsTerminal(call.Entry(), id) <==> call.Closes() && call.id == id
  {
  }

  // One process succeeds and its entry joins the log.
  ghost predicate Appends(s: State, s': State, pid: nat) {
    && pid in s.procs && s.procs[pid].pc.Written?
    && s'.rows == s.rows && s'.winners == s.winners
    && s'.log == s.log + [s.procs[pid].call.Entry()]
    && s'.procs == s.procs[pid := Process(s.procs[pid].call, Succeeded)]
  }

  lemma AppendKeepsClosed(s: State, s': State, pid: nat, id: string)
    requires Inv(s) && Appends(s, s', pid) && id in s.winners
    ensures Closed(s', id, s.winners[id])
  {
    var call := s.procs[pid].call;
    TerminalsAppend(s.log, call.Entry(), id);
    EntryIsTerminal(call, id);
    assert Closed(s, id, s.winners[id]);
    assert call.Closes() ==> Won(s.procs[pid]);
  }

  lemma AppendElsewhere(s: State, s': State, pid: nat, id: string)
    requires Inv(s) && Appends(s, s', pid) && id !in s.winners
    ensures Terminals(s'.log, id) == Terminals(s.log, id)
  {
    var call := s.procs[pid].call;
    TerminalsAppend(s.log, call.Entry(), id);
    EntryIsTerminal(call, id);
    assert call.Closes() ==> Won(s.procs[pid]);
  }

  lemma AppendKeepsInv(s: State, s': State, pid: nat)
    requires Inv(s) && Appends(s, s', pid)
    ensures Inv(s')
  {
    forall id | id in s'.winners ensures Closed(s', id, s'.winners[id]) {
      AppendKeepsClosed(s, s', pid, id);
    }
    forall id | id !in s.winners ensures Terminals(s'.log, id) == Terminals(s.log, id) {
      AppendElsewhere(s, s', pid, id);
    }
    forall p | p in s'.procs && Won(s'.procs[p])
      ensures s'.procs[p].call.id in s'.winners && s'.winners[s'.procs[p].call.id] == p
    {
      assert Won(s.procs[p]);
    }
  }

  // ---------------------------------------------------------------- theorems

  lemma {:induction false} RunsKeepInv(s: State, events: seq<Event>)
    requires Quiet(s)
    ensures Inv(Exec(s, events))
  {
    if events != [] {
      RunsKeepInv(s, events[..|events| - 1]);
      StepKeepsInv(Exec(s, events[..|events| - 1]), events[|events| - 1]);
    }
  }

  /** At most one closing request of an initiative wins its compare-and-set. */
  lemma {:induction false} AtMostOneWins(s: State, events: seq<Event>, p: nat, q: nat)
    requires Quiet(s) && p in Exec(s, events).procs && q in Exec(s, events).procs
    requires Won(Exec(s, events).procs[p]) && Won(Exec(s, events).procs[q])
    requires Exec(s, events).procs[p].call.id == Exec(s, events).procs[q].call.id
    ensures p == q
  {
    RunsKeepInv(s, events);
  }

  /**
   The log of an initiative that was open or did not exist at the start never holds more than one
   completed or stopped entry. If it is closed at the end, one request closed it: the row has that
   request's status and outcome, and the log has that request's entry exactly when it succeeded.
   */
  lemma {:induction false} OneTerminalEntry(s: State, events: seq<Event>, id: string)
    requires Quiet(s) && (id in s.rows ==> Open(s.rows[id].status))
    ensures |Terminals(Exec(s, events).log, id)| <= 1
    ensures id in Exec(s, events).rows && !Open(Exec(s, events).rows[id].status) ==>
              id in Exec(s, events).winners && Closed(Exec(s, events), id, Exec(s, events).winners[id])
  {
    RunsKeepInv(s, events);
    ClosedRowsHaveWinners(s, events, id);
    if id in Exec(s, events).winners {
      assert Closed(Exec(s, events), id, Exec(s, events).winners[id]);
    }
  }

  lemma {:induction false} ClosedRowsHaveWinners(s: State, events: seq<Event>, id: string)
    requires Quiet(s) && (id in s.rows ==> Open(s.rows[id].status))
    ensures id in Exec(s, events).rows && !Open(Exec(s, events).rows[id].status) ==> id in Exec(s, events).winners
  {
    if events != [] {
      ClosedRowsHaveWinners(s, events[..|events| - 1], id);
    }
  }

  // No statement touches a closed row; rows are never deleted, owners never change.
  lemma StepRespectsClosed(s: State, e: Event, id: string)
    requires id in s.rows
    ensures id in Next(s, e).rows && Next(s, e).rows[id].owner == s.rows[id].owner
    ensures !Open(s.rows[id].status) ==> Next(s, e).rows[id] == s.rows[id]
  {
  }

  /** Once an initiative is completed or stopped, its status and outcome never change again. */
  lemma {:induction false} ClosedForever(s: State, events: seq<Event>, id: string)
    requires id in s.rows && !Open(s.rows[id].status)
    ensures id in Exec(s, events).rows && Exec(s, events).rows[id] == s.rows[id]
  {
    if events != [] {
      ClosedForever(s, events[..|events| - 1], id);
      StepRespectsClosed(Exec(s, events[..|events| - 1]), events[|events| - 1], id);
    }
  }

  /** The decision log is append-only, and a request that did not succeed appended nothing. */
  lemma StepAppends(s: State, e: Event)
    ensures Next(s, e).log == s.log || (e.Run? && e.pid in s.procs && Next(s, e).log == s.log + [s.procs[e.pid].call.Entry()]
                                        && Next(s, e).procs[e.pid].pc == Succeeded)
  {
  }

  // A closing request past its guard: the row is still open for it, or another request has closed it.
  ghost predicate GuardInv(s: State) {
    forall pid | pid in s.procs && s.procs[pid].pc.Guarded? && s.procs[pid].call.Closes() ::
      StillOpen(s, s.procs[pid].call) || s.procs[pid].call.id in s.winners
  }

  ghost predicate StillOpen(s: State, call: Call) {
    && call.id in s.rows
    && if call.Review? then Reviewable(s.rows[call.id].status) else Open(s.rows[call.id].status)
  }

  // A row stays open for a call unless a step closes it and records its winner.
  lemma StepKeepsOpen(s: State, e: Event, call: Call)
    requires StillOpen(s, call) || call.id in s.winners
    ensures StillOpen(Next(s, e), call) || call.id in Next(s, e).winners
  {
  }

  lemma StepKeepsGuarded(s: State, e: Event)
    requires GuardInv(s)
    ensures GuardInv(Next(s, e))
  {
    var s' := Next(s, e);
    forall pid | pid in s'.procs && s'.procs[pid].pc.Guarded? && s'.procs[pid].call.Closes()
      ensures StillOpen(s', s'.procs[pid].call) || s'.procs[pid].call.id in s'.winners
    {
      if pid in s.procs && s.procs[pid].pc.Guarded? {
        StepKeepsOpen(s, e, s.procs[pid].call);
      }
    }
  }

  lemma {:induction false} RunsKeepGuarded(s: State, events: seq<Event>)
    requires Quiet(s)
    ensures GuardInv(Exec(s, events))
  {
    if events != [] {
      RunsKeepGuarded(s, events[..|events| - 1]);
      StepKeepsGuarded(Exec(s, events[..|events| - 1]), events[|events| - 1]);
    }
  }

  /**
   In every run, a closing request that saw an open initiative is refused at its compare-and-set exactly
   when another request has closed the initiative in between.
   */
  lemma RefusedExactlyWhenClosed(s: State, events: seq<Event>, pid: nat)
    requires Quiet(s) && pid in Exec(s, events).procs
    requires Exec(s, events).procs[pid].pc.Guarded? && Exec(s, events).procs[pid].call.Closes()
    ensures var t, id := Exec(s, events), Exec(s, events).procs[pid].call.id;
            && (RunNext(t, pid).procs[pid].pc == Conflict <==> id in t.winners)
            && (id in t.winners ==>
                  && t.winners[id] != pid && t.winners[id] in t.procs
                  && Won(t.procs[t.winners[id]]) && t.procs[t.winners[id]].call.id == id
                  && id in t.rows && !Open(t.rows[id].status))
  {
    var t, id := Exec(s, events), Exec(s, events).procs[pid].call.id;
    RunsKeepInv(s, events);
    RunsKeepGuarded(s, events);
    if id in t.winners {
      assert Closed(t, id, t.winners[id]);
    } else {
      assert StillOpen(t, t.procs[pid].call);
    }
  }

  // ------------------------------------------------ one request, in full

  // Three statements of one request in a row.
  function Alone(s: State, pid: nat): State {
    Exec(s, [Run(pid), Run(pid), Run(pid)])
  }

  lemma AloneIsThreeSteps(s: State, pid: nat)
    ensures Alone(s, pid) == Next(Next(Next(s, Run(pid)), Run(pid)), Run(pid))
  {
    var e := Run(pid);
    assert [e, e, e][..2] == [e, e] && [e, e][..1] == [e] && [e][..0] == [];
    assert Exec(s, [e]) == Next(s, e);
    assert Exec(s, [e, e]) == Next(Next(s, e), e);
  }

  // The request ended with this answer and left rows and log as they were.
  ghost predicate Refuses(s: State, pid: nat, answer: Pc) {
    var t := Alone(s, pid);
    t.rows == s.rows && t.log == s.log && pid in t.procs && t.procs[pid].pc == answer
  }

  // The request succeeded, left this row and appended this entry.
  ghost predicate Succeeds(s: State, pid: nat, id: string, row: Initiative, entry: Decision) {
    var t := Alone(s, pid);
    t.rows == s.rows[id := row] && t.log == s.log + [entry] && pid in t.procs && t.procs[pid].pc == Succeeded
  }

  lemma LaunchAlone(s: State, pid: nat)
    requires pid in s.procs && s.procs[pid].pc.Start? && s.procs[pid].call.Launch?
    ensures var id, actor := s.procs[pid].call.id, s.procs[pid].call.actor;
            && (!s.procs[pid].call.isManager ==> Refuses(s, pid, Forbidden))
            && (s.procs[pid].call.isManager && id !in s.rows ==>
                  Succeeds(s, pid, id, Initiative(actor, Active, None), Decision(id, actor, LaunchedEvent, None)))
  {
    AloneIsThreeSteps(s, pid);
  }

  /**
   What a request on an existing initiative does when it runs alone. A missing row is not found. A caller who is
   neither the owner nor an admin is refused. A review is refused unless the row is active or in review, and
   otherwise completes it with the outcome; a stop is refused on a completed or stopped row, and otherwise stops
   it; a note is always taken. Each success appends its own entry, and a refusal changes nothing.
   */
  lemma RequestAlone(s: State, pid: nat)
    requires pid in s.procs && s.procs[pid].pc.Start? && !s.procs[pid].call.Launch?
    ensures var call := s.procs[pid].call;
            && (call.id !in s.rows ==> Refuses(s, pid, NotFound))
            && (call.id in s.rows ==>
                  var row := s.rows[call.id];
                  var may := call.isAdmin || row.owner == call.actor;
                  && (!may ==> Refuses(s, pid, Forbidden))
                  && (may && call.Review? ==>
                        if row.status in {Active, InReview}
                        then Succeeds(s, pid, call.id, Initiative(row.owner, Completed, Some(call.outcome)),
                                      Decision(call.id, call.actor, CompletedEvent, None))
                        else Refuses(s, pid, Conflict))
                  && (may && call.Stop? ==>
                        if row.status in {Completed, Stopped} then Refuses(s, pid, Conflict)
                        else Succeeds(s, pid, call.id, Initiative(row.owner, Stopped, row.outcome),
                                      Decision(call.id, call.actor, StoppedEvent, None)))
                  && (may && call.Note? ==>
                        Succeeds(s, pid, call.id, row, Decision(call.id, call.actor, NotedEvent, Some(call.note)))))
  {
    AloneIsThreeSteps(s, pid);
    var call := s.procs[pid].call;
    if call.id in s.rows && (call.isAdmin || s.rows[call.id].owner == call.actor) && call.Note? {
      assert s.rows[call.id := s.rows[call.id]] == s.rows;
    }
  }

  /** A request begins in its own name and changes nothing else. A crash may end any unfinished one; it changes neither rows nor log. */
  lemma BeginAndCrash(s: State, pid: nat, call: Call)
    ensures Next(s, Begin(pid, call)) == if pid in s.procs then s else s.(procs := s.procs[pid := Process(call, Start)])
    ensures pid in s.procs && s.procs[pid].pc in {Start, Guarded, Written} ==>
              && Next(s, Crash(pid)).rows == s.rows && Next(s, Crash(pid)).log == s.log
              && Next(s, Crash(pid)).procs[pid].pc == Crashed(s.procs[pid].pc == Written)
  {
  }

  function SucceededCalls(s: State): set<nat> {
    set pid | pid in s.procs && s.procs[pid].pc.Succeeded?
  }

  // A statement appends an entry exactly when it makes its request succeed.
  lemma RunAppendsOnSuccess(s: State, pid: nat)
    requires pid in s.procs
    ensures var s', before := RunNext(s, pid), s.procs[pid].pc;
            && s'.procs.Keys == s.procs.Keys && (forall q | q in s.procs && q != pid :: s'.procs[q] == s.procs[q])
            && (before.Succeeded? ==> s'.procs[pid].pc.Succeeded?)
            && s'.log == s.log + if s'.procs[pid].pc.Succeeded? && !before.Succeeded? then [s.procs[pid].call.Entry()] else []
  {
  }

  lemma OneMoreSucceeds(s: State, s': State, pid: nat)
    requires pid in s.procs && s'.procs.Keys == s.procs.Keys && !s.procs[pid].pc.Succeeded?
    requires forall q | q in s.procs && q != pid :: s'.procs[q] == s.procs[q]
    ensures SucceededCalls(s') == SucceededCalls(s) + if s'.procs[pid].pc.Succeeded? then {pid} else {}
  {
  }

  lemma OthersSucceed(s: State, e: Event)
    requires !(e.Run? && e.pid in s.procs)
    ensures Next(s, e).log == s.log && SucceededCalls(Next(s, e)) == SucceededCalls(s)
  {
  }

  lemma StepCountsSuccess(s: State, e: Event)
    ensures |Next(s, e).log| - |s.log| == |SucceededCalls(Next(s, e))| - |SucceededCalls(s)|
  {
    if !(e.Run? && e.pid in s.procs) {
      OthersSucceed(s, e);
    } else if s.procs[e.pid].pc.Succeeded? {
      assert Next(s, e) == s;
    } else {
      RunAppendsOnSuccess(s, e.pid);
      OneMoreSucceeds(s, RunNext(s, e.pid), e.pid);
    }
  }

  /** In every run the log grows by one entry for each call that succeeds. */
  lemma {:induction false} OneEntryPerSuccess(s: State, events: seq<Event>)
    requires Quiet(s)
    ensures |Exec(s, events).log| == |s.log| + |SucceededCalls(Exec(s, events))|
  {
    if events == [] {
      assert SucceededCalls(s) == {};
    } else {
      OneEntryPerSuccess(s, events[..|events| - 1]);
      StepCountsSuccess(Exec(s, events[..|events| - 1]), events[|events| - 1]);
    }
  }

  // ----------------------------------------------------------- authorization

  predicate PastGuard(pc: Pc) {
    pc.Guarded? || pc.Written? || pc.Succeeded? || pc == Crashed(true)
  }

  // Who may act on an initiative: a manager who launched it, and afterwards its owner or an admin.
  ghost predicate May(rows: map<string, Initiative>, call: Call) {
    && call.id in rows
    && if call.Launch? then call.isManager && rows[call.id].owner == call.actor
       else call.isAdmin || rows[call.id].owner == call.actor
  }

  ghost predicate AuthInv(s: State) {
    forall pid | pid in s.procs && PastGuard(s.procs[pid].pc) :: May(s.rows, s.procs[pid].call)
  }

  lemma StepKeepsAuthorized(s: State, e: Event)
    requires AuthInv(s)
    ensures AuthInv(Next(s, e))
  {
    var s' := Next(s, e);
    forall pid | pid in s'.procs && PastGuard(s'.procs[pid].pc) ensures May(s'.rows, s'.procs[pid].call) {
      if pid in s.procs && PastGuard(s.procs[pid].pc) {
        StepRespectsClosed(s, e, s.procs[pid].call.id);
      }
    }
  }

  ghost predicate FromSucceeded(s: State, d: Decision) {
    exists pid | pid in s.procs :: s.procs[pid].pc.Succeeded? && d == s.procs[pid].call.Entry()
  }

  lemma SucceededStays(s: State, e: Event, d: Decision)
    requires FromSucceeded(s, d)
    ensures FromSucceeded(Next(s, e), d)
  {
    var pid :| pid in s.procs && s.procs[pid].pc.Succeeded? && d == s.procs[pid].call.Entry();
    assert pid in Next(s, e).procs && Next(s, e).procs[pid] == s.procs[pid];
  }

  lemma {:induction false} RunsKeepAuthorized(s: State, events: seq<Event>)
    requires Quiet(s)
    ensures AuthInv(Exec(s, events)) && s.log <= Exec(s, events).log
    ensures forall i | |s.log| <= i < |Exec(s, events).log| :: FromSucceeded(Exec(s, events), Exec(s, events).log[i])
  {
    if events != [] {
      var before, e := Exec(s, events[..|events| - 1]), events[|events| - 1];
      RunsKeepAuthorized(s, events[..|events| - 1]);
      StepKeepsAuthorized(before, e);
      StepAppends(before, e);
      forall i | |s.log| <= i < |Next(before, e).log| ensures FromSucceeded(Next(before, e), Next(before, e).log[i]) {
        if i < |before.log| {
          SucceededStays(before, e, before.log[i]);
        } else {
          assert e.pid in Next(before, e).procs;
        }
      }
    }
  }

  /**
   Every log entry of a run was written by a call that succeeded, in that call's own name, and the caller
   was a manager launching the initiative, its owner or an admin.
   */
  lemma EntriesAreAuthorized(s: State, events: seq<Event>, i: nat) returns (pid: nat)
    requires Quiet(s) && |s.log| <= i < |Exec(s, events).log|
    ensures var after := Exec(s, events);
            && pid in after.procs && after.procs[pid].pc.Succeeded?
            && after.log[i] == after.procs[pid].call.Entry()
            && after.log[i].author == after.procs[pid].call.actor
            && May(after.rows, after.procs[pid].call)
  {
    RunsKeepAuthorized(s, events);
    var after := Exec(s, events);
    assert FromSucceeded(after, after.log[i]);
    pid :| pid in after.procs && after.procs[pid].pc.Succeeded? && after.log[i] == after.procs[pid].call.Entry();
  }
}
