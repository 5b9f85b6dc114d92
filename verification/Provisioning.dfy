/**
 Capped creation of team workspaces (src/db/org-provisioning.ts) as interleaved transactions.

 A process is one call of provisionTeamWorkspace. A capped call takes the advisory lock of its
 user, counts the user's committed team workspaces and refuses at the cap; then it inserts the org,
 the admin membership, the default team and the audit row, which become visible together at the
 commit. The lock key is a hash of the user id, about which nothing is assumed: two users may share it.
 */
module Provisioning {
  import opened Wrappers

  datatype Kind = Personal | Team

  datatype Org = Org(name: string, kind: Kind, createdBy: Option<string>)

  datatype TeamRow = TeamRow(orgId: nat, name: string)

  datatype Audit = Audit(orgId: nat, actor: string, defaultTeamId: nat)

  // org_members, restricted to the admin rows this code writes.
  datatype Admin = Admin(orgId: nat, user: string)

  datatype Db = Db(orgs: map<nat, Org>, admins: set<Admin>, teams: map<nat, TeamRow>, audit: seq<Audit>)

  datatype Call = Call(name: string, creator: string, cap: Option<nat>)

  // `stage` counts the rows inserted so far, in the order org, membership, team, audit; the ids are
  // those the database generated for the org and the team.
  datatype Pc =
    | Start
    | WantLock
    | Locked
    | Inserting(stage: nat, orgId: nat, teamId: nat)
    | Done(orgId: nat, teamId: nat)
    | CapReached
    | Failed

  datatype Process = Process(call: Call, pc: Pc)

  // `nextId` stands for the database's generator of fresh ids.
  datatype State = State(db: Db, locks: map<int, nat>, procs: map<nat, Process>, nextId: nat)

  datatype Event = Begin(pid: nat, call: Call) | Run(pid: nat) | Abort(pid: nat)

  // The committed team workspaces a user created.
  function Created(db: Db, user: string): set<nat> {
    set id | id in db.orgs && db.orgs[id].kind == Team && db.orgs[id].createdBy == Some(user)
  }

  // ------------------------------------------------------------------- steps

  function SetPc(s: State, pid: nat, pc: Pc): State
    requires pid in s.procs
  {
    s.(procs := s.procs[pid := s.procs[pid].(pc := pc)])
  }

  // Commit or rollback: the process leaves its transaction and its lock, if it has one, is free.
  function EndTransaction(hash: string -> int, s: State, pid: nat, pc: Pc): State
    requires pid in s.procs
  {
    var key := hash(s.procs[pid].call.creator);
    SetPc(s, pid, pc).(locks := if key in s.locks && s.locks[key] == pid then s.locks - {key} else s.locks)
  }

  function Commit(db: Db, call: Call, orgId: nat, teamId: nat): Db {
    Db(db.orgs[orgId := Org(call.name, Team, Some(call.creator))],
       db.admins + {Admin(orgId, call.creator)},
       db.teams[teamId := TeamRow(orgId, call.name)],
       db.audit + [Audit(orgId, call.creator, teamId)])
  }

  function RunNext(hash: string -> int, s: State, pid: nat): State
    requires pid in s.procs
  {
    var call := s.procs[pid].call;
    match s.procs[pid].pc
    case Start =>
      if call.cap.Some? then SetPc(s, pid, WantLock)
      else SetPc(s, pid, Inserting(0, s.nextId, s.nextId + 1)).(nextId := s.nextId + 2)
    case WantLock =>
      if hash(call.creator) in s.locks then s
      else SetPc(s, pid, Locked).(locks := s.locks[hash(call.creator) := pid])
    case Locked =>
      if call.cap.Some? && |Created(s.db, call.creator)| >= call.cap.value
      then EndTransaction(hash, s, pid, CapReached)
      else SetPc(s, pid, Inserting(0, s.nextId, s.nextId + 1)).(nextId := s.nextId + 2)
    case Inserting(stage, orgId, teamId) =>
      if stage < 4 then SetPc(s, pid, Inserting(stage + 1, orgId, teamId))
      else EndTransaction(hash, s, pid, Done(orgId, teamId)).(db := Commit(s.db, call, orgId, teamId))
    case _ => s
  }

  function Next(hash: string -> int, s: State, e: Event): State {
    match e
    case Begin(pid, call) =>
      if pid in s.procs then s else s.(procs := s.procs[pid := Process(call, Start)])
    case Run(pid) => if pid in s.procs then RunNext(hash, s, pid) else s
    case Abort(pid) =>
      if pid in s.procs && (s.procs[pid].pc.Locked? || s.procs[pid].pc.Inserting?)
      then EndTransaction(hash, s, pid, Failed) else s
  }

  function Exec(hash: string -> int, s: State, events: seq<Event>): State {
    if events == [] then s
    else Next(hash, Exec(hash, s, events[..|events| - 1]), events[|events| - 1])
  }

  // No transaction is running and the id generator is past every id in use.
  ghost predicate Quiet(s: State) {
    && s.locks == map[] && s.procs == map[]
    && (forall id | id in s.db.orgs :: id < s.nextId)
    && (forall id | id in s.db.teams :: id < s.nextId)
  }

  // --------------------------------------------------------------- invariant

  predicate HoldsLock(p: Process) {
    p.call.cap.Some? && (p.pc.Locked? || p.pc.Inserting?)
  }

  ghost predicate LockInv(hash: string -> int, s: State) {
    forall p | p in s.procs && HoldsLock(s.procs[p]) ::
      hash(s.procs[p].call.creator) in s.locks && s.locks[hash(s.procs[p].call.creator)] == p
  }

  // The ids of a process that is inserting are fresh.
  ghost predicate FreshIds(s: State, p: nat)
    requires p in s.procs
  {
    var pc := s.procs[p].pc;
    pc.Inserting? ==>
      pc.orgId !in s.db.orgs && pc.teamId !in s.db.teams && pc.orgId < s.nextId && pc.teamId < s.nextId
  }

  ghost predicate DifferentIds(s: State, p: nat, q: nat)
    requires p in s.procs && q in s.procs
  {
    p != q && s.procs[p].pc.Inserting? && s.procs[q].pc.Inserting? ==>
      s.procs[p].pc.orgId != s.procs[q].pc.orgId && s.procs[p].pc.teamId != s.procs[q].pc.teamId
  }

  ghost predicate IdInv(s: State) {
    && (forall id | id in s.db.orgs :: id < s.nextId)
    && (forall id | id in s.db.teams :: id < s.nextId)
    && (forall p | p in s.procs :: FreshIds(s, p))
    && (forall p, q | p in s.procs && q in s.procs :: DifferentIds(s, p, q))
  }

  // A workspace with the three rows that were committed with it.
  ghost predicate Complete(db: Db, id: nat) {
    && id in db.orgs && db.orgs[id].kind == Team && db.orgs[id].createdBy.Some?
    && Admin(id, db.orgs[id].createdBy.value) in db.admins
    && (exists teamId | teamId in db.teams ::
          && db.teams[teamId] == TeamRow(id, db.orgs[id].name)
          && Audit(id, db.orgs[id].createdBy.value, teamId) in db.audit)
  }

  // Everything beyond the initial tables belongs to a complete workspace beyond the initial tables.
  ghost predicate AllOrNothing(db0: Db, db: Db) {
    && db0.orgs.Keys <= db.orgs.Keys
    && (forall id | id in db.orgs.Keys - db0.orgs.Keys :: Complete(db, id))
    && (forall a | a in db.admins - db0.admins :: a.orgId in db.orgs.Keys - db0.orgs.Keys)
    && (forall t | t in db.teams.Keys - db0.teams.Keys :: db.teams[t].orgId in db.orgs.Keys - db0.orgs.Keys)
    && db0.audit <= db.audit
    && (forall i | |db0.audit| <= i < |db.audit| :: db.audit[i].orgId in db.orgs.Keys - db0.orgs.Keys)
  }

  // Every call for this user carries a cap of at most n.
  ghost predicate CappedEvents(events: seq<Event>, user: string, n: nat) {
    forall i | 0 <= i < |events| && events[i].Begin? && events[i].call.creator == user ::
      events[i].call.cap.Some? && events[i].call.cap.value <= n
  }

  // The user's count is at most `bound`, and below the cap while a creation of the user is inserting.
  ghost predicate CapInv(s: State, user: string, n: nat, bound: nat) {
    && |Created(s.db, user)| <= bound
    && (forall p | p in s.procs && s.procs[p].call.creator == user ::
          && s.procs[p].call.cap.Some? && s.procs[p].call.cap.value <= n
          && (s.procs[p].pc.Inserting? ==> |Created(s.db, user)| < s.procs[p].call.cap.value))
  }

  lemma StepKeepsLocks(hash: string -> int, s: State, e: Event)
    requires LockInv(hash, s)
    ensures LockInv(hash, Next(hash, s, e))
  {
  }

  // Process `pid` commits its creation.
  ghost predicate Commits(s: State, s': State, pid: nat) {
    && pid in s.procs && s.procs[pid].pc.Inserting? && pid in s'.procs
    && var p := s.procs[pid];
    && s'.db == Commit(s.db, p.call, p.pc.orgId, p.pc.teamId)
    && s'.procs[pid] == Process(p.call, Done(p.pc.orgId, p.pc.teamId))
  }

  // What a step of process `pid` may change.
  ghost predicate Frame(s: State, s': State, pid: nat) {
    && (forall q | q in s.procs && q != pid :: q in s'.procs && s'.procs[q] == s.procs[q])
    && (forall q | q in s'.procs && q != pid :: q in s.procs)
    && (pid in s'.procs && s'.procs[pid].pc.Done? ==>
          (pid in s.procs && s'.procs[pid] == s.procs[pid]) || Commits(s, s', pid))
    && s.nextId <= s'.nextId
    && (s'.db == s.db || Commits(s, s', pid))
    && (pid in s'.procs && s'.procs[pid].pc.Inserting? ==>
          && pid in s.procs && s'.procs[pid].call == s.procs[pid].call
          && if s.procs[pid].pc.Inserting?
             then s'.procs[pid].pc.orgId == s.procs[pid].pc.orgId && s'.procs[pid].pc.teamId == s.procs[pid].pc.teamId
             else s'.procs[pid].pc == Inserting(0, s.nextId, s.nextId + 1) && s'.nextId == s.nextId + 2)
  }

  lemma StepFrame(hash: string -> int, s: State, e: Event)
    ensures Frame(s, Next(hash, s, e), e.pid)
  {
  }

  lemma FrameKeepsIds(s: State, s': State, pid: nat)
    requires IdInv(s) && Frame(s, s', pid)
    ensures IdInv(s')
  {
    assert pid in s.procs ==> FreshIds(s, pid);
    forall p | p in s'.procs ensures FreshIds(s', p) {
      assert p in s.procs ==> FreshIds(s, p);
      assert p in s.procs && pid in s.procs ==> DifferentIds(s, p, pid);
    }
    forall p, q | p in s'.procs && q in s'.procs ensures DifferentIds(s', p, q) {
      if p in s.procs && q in s.procs {
        assert FreshIds(s, p) && FreshIds(s, q) && DifferentIds(s, p, q);
      }
    }
  }

  lemma CommitIsComplete(db0: Db, db: Db, call: Call, orgId: nat, teamId: nat)
    requires AllOrNothing(db0, db) && orgId !in db.orgs && teamId !in db.teams
    ensures AllOrNothing(db0, Commit(db, call, orgId, teamId))
  {
    var db' := Commit(db, call, orgId, teamId);
    assert db'.teams[teamId] == TeamRow(orgId, call.name);
    assert db'.audit[|db.audit|] == Audit(orgId, call.creator, teamId);
    assert Complete(db', orgId);
    forall id | id in db'.orgs.Keys - db0.orgs.Keys ensures Complete(db', id) {
      if id != orgId {
        assert Complete(db, id);
        var t :| t in db.teams && db.teams[t] == TeamRow(id, db.orgs[id].name)
                 && Audit(id, db.orgs[id].createdBy.value, t) in db.audit;
        assert t in db'.teams && db'.teams[t] == db.teams[t];
        assert Audit(id, db.orgs[id].createdBy.value, t) in db'.audit;
      }
    }
  }

  lemma CommitCounts(db: Db, call: Call, orgId: nat, teamId: nat, user: string)
    requires orgId !in db.orgs
    ensures var db' := Commit(db, call, orgId, teamId);
            |Created(db', user)| == |Created(db, user)| + if call.creator == user then 1 else 0
  {
    var db' := Commit(db, call, orgId, teamId);
    if call.creator == user {
      assert Created(db', user) == Created(db, user) + {orgId};
    } else {
      assert Created(db', user) == Created(db, user);
    }
  }

  // A commit by the user's own process ends the only creation that was inserting for that user.
  lemma CommitKeepsCap(hash: string -> int, s: State, s': State, pid: nat, user: string, n: nat, bound: nat)
    requires LockInv(hash, s) && IdInv(s) && CapInv(s, user, n, bound) && n <= bound
    requires Frame(s, s', pid) && Commits(s, s', pid)
    ensures CapInv(s', user, n, bound)
  {
    var p := s.procs[pid];
    assert FreshIds(s, pid);
    CommitCounts(s.db, p.call, p.pc.orgId, p.pc.teamId, user);
    if p.call.creator == user {
      assert HoldsLock(p);
      forall q | q in s'.procs && s'.procs[q].call.creator == user ensures !s'.procs[q].pc.Inserting? {
        assert s'.procs[q].pc.Inserting? ==> q in s.procs && HoldsLock(s.procs[q]);
      }
    }
  }

  lemma StepKeepsCap(hash: string -> int, s: State, e: Event, user: string, n: nat, bound: nat)
    requires LockInv(hash, s) && IdInv(s) && CapInv(s, user, n, bound) && n <= bound
    requires CappedEvents([e], user, n)
    ensures CapInv(Next(hash, s, e), user, n, bound)
  {
    var s' := Next(hash, s, e);
    StepFrame(hash, s, e);
    assert e.Begin? ==> [e][0].Begin?;
    if s'.db != s.db {
      CommitKeepsCap(hash, s, s', e.pid, user, n, bound);
    }
  }

  // ---------------------------------------------------------------- theorems

  lemma {:induction false} RunsKeepInv(hash: string -> int, s: State, events: seq<Event>)
    requires Quiet(s)
    ensures LockInv(hash, Exec(hash, s, events)) && IdInv(Exec(hash, s, events))
  {
    if events != [] {
      var before, e := Exec(hash, s, events[..|events| - 1]), events[|events| - 1];
      RunsKeepInv(hash, s, events[..|events| - 1]);
      StepKeepsLocks(hash, before, e);
      StepFrame(hash, before, e);
      FrameKeepsIds(before, Exec(hash, s, events), e.pid);
    }
  }

  /**
   The cap holds in every interleaving: when all creations of a user are capped at n or less, the
   user never owns more created team workspaces than n, or than there were at the start.
   */
  lemma {:induction false} CapNeverExceeded(hash: string -> int, s: State, events: seq<Event>, user: string, n: nat)
    requires Quiet(s) && CappedEvents(events, user, n)
    ensures var bound := if n < |Created(s.db, user)| then |Created(s.db, user)| else n;
            CapInv(Exec(hash, s, events), user, n, bound)
  {
    if events != [] {
      var front, e := events[..|events| - 1], events[|events| - 1];
      var bound := if n < |Created(s.db, user)| then |Created(s.db, user)| else n;
      assert CappedEvents(front, user, n);
      assert events[|events| - 1] == e;
      CapNeverExceeded(hash, s, front, user, n);
      RunsKeepInv(hash, s, front);
      StepKeepsCap(hash, Exec(hash, s, front), e, user, n, bound);
    }
  }

  /** No half-provisioned workspace: the four rows of a creation appear together or not at all. */
  lemma {:induction false} WorkspacesAreComplete(hash: string -> int, s: State, events: seq<Event>)
    requires Quiet(s)
    ensures AllOrNothing(s.db, Exec(hash, s, events).db)
  {
    if events != [] {
      var before, e := Exec(hash, s, events[..|events| - 1]), events[|events| - 1];
      WorkspacesAreComplete(hash, s, events[..|events| - 1]);
      RunsKeepInv(hash, s, events[..|events| - 1]);
      StepFrame(hash, before, e);
      if Exec(hash, s, events).db != before.db {
        var p := before.procs[e.pid];
        assert FreshIds(before, e.pid);
        CommitIsComplete(s.db, before.db, p.call, p.pc.orgId, p.pc.teamId);
      }
    }
  }

  // The result of a call names the committed workspace and the team created with it.
  ghost predicate ResultsAreCommitted(s: State) {
    forall p | p in s.procs && s.procs[p].pc.Done? ::
      var call, pc := s.procs[p].call, s.procs[p].pc;
      && pc.orgId in s.db.orgs && s.db.orgs[pc.orgId] == Org(call.name, Team, Some(call.creator))
      && pc.teamId in s.db.teams && s.db.teams[pc.teamId] == TeamRow(pc.orgId, call.name)
      && Admin(pc.orgId, call.creator) in s.db.admins
  }

  lemma FrameKeepsResults(s: State, s': State, pid: nat)
    requires IdInv(s) && Frame(s, s', pid) && ResultsAreCommitted(s)
    ensures ResultsAreCommitted(s')
  {
    assert pid in s.procs ==> FreshIds(s, pid);
  }

  /** Every completed call returns a workspace that is committed, with its creator as admin. */
  lemma {:induction false} CompletedCallsOwnTheirWorkspace(hash: string -> int, s: State, events: seq<Event>)
    requires Quiet(s)
    ensures ResultsAreCommitted(Exec(hash, s, events))
  {
    if events != [] {
      var before, e := Exec(hash, s, events[..|events| - 1]), events[|events| - 1];
      CompletedCallsOwnTheirWorkspace(hash, s, events[..|events| - 1]);
      RunsKeepInv(hash, s, events[..|events| - 1]);
      StepFrame(hash, before, e);
      FrameKeepsResults(before, Exec(hash, s, events), e.pid);
    }
  }

  // ---------------------------------------------------- one call, in full

  // n statements of one call in a row.
  function Alone(hash: string -> int, s: State, pid: nat, n: nat): State {
    Exec(hash, s, seq(n, _ => Run(pid)))
  }

  lemma OneMore(hash: string -> int, s: State, pid: nat, n: nat)
    ensures Alone(hash, s, pid, 0) == s
    ensures Alone(hash, s, pid, n + 1) == Next(hash, Alone(hash, s, pid, n), Run(pid))
  {
    var e: Event := Run(pid);
    assert seq(n + 1, _ => e)[..n] == seq(n, _ => e);
  }

  // The state of a call that runs alone from s.
  function With(s: State, pid: nat, pc: Pc, locks: map<int, nat>, nextId: nat): State
    requires pid in s.procs
  {
    State(s.db, locks, s.procs[pid := Process(s.procs[pid].call, pc)], nextId)
  }

  // The user's team workspaces, as the count statement sees them.
  function TeamWorkspaces(db: Db, user: string): set<nat> {
    set id | id in db.orgs && db.orgs[id].kind == Team && db.orgs[id].createdBy == Some(user)
  }

  lemma TakesLock(hash: string -> int, s: State, pid: nat)
    requires pid in s.procs && s.procs[pid].pc.Start? && s.procs[pid].call.cap.Some?
    requires hash(s.procs[pid].call.creator) !in s.locks
    ensures Alone(hash, s, pid, 2) == With(s, pid, Locked, s.locks[hash(s.procs[pid].call.creator) := pid], s.nextId)
  {
    var call := s.procs[pid].call;
    OneMore(hash, s, pid, 0);
    OneMore(hash, s, pid, 1);
    assert Alone(hash, s, pid, 1).procs == s.procs[pid := Process(call, WantLock)];
    assert Alone(hash, s, pid, 2).procs == s.procs[pid := Process(call, Locked)];
  }

  lemma CountsUnderLock(hash: string -> int, s: State, pid: nat)
    requires pid in s.procs && s.procs[pid].pc.Start? && s.procs[pid].call.cap.Some?
    requires hash(s.procs[pid].call.creator) !in s.locks
    ensures var call, key := s.procs[pid].call, hash(s.procs[pid].call.creator);
            Alone(hash, s, pid, 3) ==
            if |TeamWorkspaces(s.db, call.creator)| >= call.cap.value then With(s, pid, CapReached, s.locks, s.nextId)
            else With(s, pid, Inserting(0, s.nextId, s.nextId + 1), s.locks[key := pid], s.nextId + 2)
  {
    var key := hash(s.procs[pid].call.creator);
    TakesLock(hash, s, pid);
    OneMore(hash, s, pid, 2);
    assert Created(s.db, s.procs[pid].call.creator) == TeamWorkspaces(s.db, s.procs[pid].call.creator);
    assert s.locks[key := pid] - {key} == s.locks;
  }

  // From its first insert a call needs five more statements.
  lemma {:induction false} InsertsAlone(hash: string -> int, s: State, pid: nat, n: nat, stage: nat)
    requires pid in s.procs && n >= stage && stage <= 4
    requires Alone(hash, s, pid, n - stage) ==
             With(s, pid, Inserting(0, s.nextId, s.nextId + 1), Alone(hash, s, pid, n - stage).locks, s.nextId + 2)
    ensures Alone(hash, s, pid, n) ==
            With(s, pid, Inserting(stage, s.nextId, s.nextId + 1), Alone(hash, s, pid, n - stage).locks, s.nextId + 2)
  {
    if stage > 0 {
      InsertsAlone(hash, s, pid, n - 1, stage - 1);
      OneMore(hash, s, pid, n - 1);
    }
  }

  lemma CommitsAlone(hash: string -> int, s: State, pid: nat, n: nat)
    requires pid in s.procs && (forall key | key in s.locks :: s.locks[key] != pid)
    requires Alone(hash, s, pid, n).locks == s.locks
             || (hash(s.procs[pid].call.creator) !in s.locks
                 && Alone(hash, s, pid, n).locks == s.locks[hash(s.procs[pid].call.creator) := pid])
    requires Alone(hash, s, pid, n) ==
             With(s, pid, Inserting(0, s.nextId, s.nextId + 1), Alone(hash, s, pid, n).locks, s.nextId + 2)
    ensures IsCreation(s, Alone(hash, s, pid, n + 5), pid)
  {
    InsertsAlone(hash, s, pid, n + 4, 4);
    OneMore(hash, s, pid, n + 4);
    CommitCreates(hash, s, Alone(hash, s, pid, n + 4), pid, Alone(hash, s, pid, n).locks);
  }

  lemma CommitCreates(hash: string -> int, s: State, t: State, pid: nat, locks: map<int, nat>)
    requires pid in s.procs && t == With(s, pid, Inserting(4, s.nextId, s.nextId + 1), locks, s.nextId + 2)
    requires forall key | key in s.locks :: s.locks[key] != pid
    requires locks == s.locks || (hash(s.procs[pid].call.creator) !in s.locks
                                  && locks == s.locks[hash(s.procs[pid].call.creator) := pid])
    ensures IsCreation(s, Next(hash, t, Run(pid)), pid)
  {
    var key := hash(s.procs[pid].call.creator);
    assert s.locks[key := pid] - {key} == s.locks - {key};
    assert key !in s.locks ==> s.locks - {key} == s.locks;
  }

  // The call has committed an org, its admin, its default team and its audit row, and holds no lock.
  ghost predicate IsCreation(s: State, t: State, pid: nat)
    requires pid in s.procs
  {
    var name, user, orgId, teamId := s.procs[pid].call.name, s.procs[pid].call.creator, s.nextId, s.nextId + 1;
    && t.db.orgs == s.db.orgs[orgId := Org(name, Team, Some(user))]
    && t.db.admins == s.db.admins + {Admin(orgId, user)}
    && t.db.teams == s.db.teams[teamId := TeamRow(orgId, name)]
    && t.db.audit == s.db.audit + [Audit(orgId, user, teamId)]
    && t.locks == s.locks && pid in t.procs && t.procs[pid].pc == Done(orgId, teamId)
  }

  /**
   What a call does when it runs alone: without a cap, or below it, it creates one workspace with its four rows;
   with as many team workspaces of its creator as the cap it is refused and changes nothing. Either way it
   leaves no lock behind.
   */
  lemma CallAlone(hash: string -> int, s: State, pid: nat)
    requires pid in s.procs && s.procs[pid].pc.Start? && hash(s.procs[pid].call.creator) !in s.locks
    requires forall key | key in s.locks :: s.locks[key] != pid
    ensures var cap, count := s.procs[pid].call.cap, |TeamWorkspaces(s.db, s.procs[pid].call.creator)|;
            if cap.None? then IsCreation(s, Alone(hash, s, pid, 6), pid)
            else if count < cap.value then IsCreation(s, Alone(hash, s, pid, 8), pid)
            else var t := Alone(hash, s, pid, 3); t.db == s.db && t.locks == s.locks && pid in t.procs && t.procs[pid].pc == CapReached
  {
    if s.procs[pid].call.cap.None? {
      OneMore(hash, s, pid, 0);
      CommitsAlone(hash, s, pid, 1);
    } else {
      CountsUnderLock(hash, s, pid);
      if |TeamWorkspaces(s.db, s.procs[pid].call.creator)| < s.procs[pid].call.cap.value {
        CommitsAlone(hash, s, pid, 3);
      }
    }
  }

  /** A call begins in its own name and changes nothing else. An abort changes no table, ends transactions only, and frees their lock. */
  lemma BeginAndAbort(hash: string -> int, s: State, pid: nat, call: Call)
    ensures Next(hash, s, Begin(pid, call)) == if pid in s.procs then s else s.(procs := s.procs[pid := Process(call, Start)])
    ensures !(pid in s.procs && (s.procs[pid].pc.Locked? || s.procs[pid].pc.Inserting?)) ==> Next(hash, s, Abort(pid)) == s
    ensures pid in s.procs && (s.procs[pid].pc.Locked? || s.procs[pid].pc.Inserting?) ==>
              var t, key := Next(hash, s, Abort(pid)), hash(s.procs[pid].call.creator);
              && t.db == s.db && t.procs[pid].pc == Failed
              && (key in t.locks ==> key in s.locks && t.locks[key] == s.locks[key] != pid)
              && (forall k | k in s.locks && k != key :: k in t.locks && t.locks[k] == s.locks[k])
  {
  }
}
