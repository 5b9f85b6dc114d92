/**
 The signup bootstrap (ensureOrgOfOne in src/db/org-scope.ts) as interleaved transactions.

 A process is one call. It looks for a membership; without one it opens a transaction that inserts
 the user's org unless the unique bootstrap_user_id is taken, adopts the existing org otherwise,
 inserts the admin membership and the person-level copies of the global presets unless they exist,
 commits, and reads the membership again. An uncommitted org makes every other insert with the
 same bootstrap id wait. Inserts become visible at the commit.
 */
module Bootstrap {
  import opened Wrappers

  datatype Role = Admin | Member

  datatype Key = Key(orgId: nat, user: string)

  datatype Membership = Membership(role: Role, createdAt: int)

  datatype Level = TeamLevel | PersonLevel

  // A score definition; the global presets have no org.
  datatype Definition = Definition(orgId: Option<nat>, slug: string, version: nat, level: Level, active: bool)

  // `orgs` maps an org to its bootstrap_user_id.
  datatype Db = Db(orgs: map<nat, Option<string>>, members: map<Key, Membership>, definitions: set<Definition>)

  // `Writing` is inside the transaction once the org is known: `isNew` when this transaction
  // inserted it. `member` and `copies` are the rows its insert statements added.
  datatype Pc =
    | Start
    | WantOrg(now: int)
    | Conflict(now: int)
    | Writing(now: int, orgId: nat, isNew: bool, stage: nat, member: bool, copies: set<Definition>)
    | Reread
    | Returned(orgId: nat, role: Role)
    | Threw

  datatype Process = Process(user: string, pc: Pc)

  // `pending` maps a bootstrap id to the process whose uncommitted insert holds it.
  datatype State = State(db: Db, pending: map<string, nat>, procs: map<nat, Process>, nextId: nat)

  // `seen` is the membership a read returns: one with the least creation time, when there is one.
  // `now` is the time at which the transaction begins.
  datatype Event = Begin(pid: nat, user: string) | Run(pid: nat, seen: Option<nat>, now: int) | Abort(pid: nat)

  ghost predicate IsMembershipForUser(db: Db, user: string, seen: Option<nat>) {
    match seen
    case None => forall k | k in db.members :: k.user != user
    case Some(orgId) =>
      && Key(orgId, user) in db.members
      && forall k | k in db.members && k.user == user ::
           db.members[Key(orgId, user)].createdAt <= db.members[k].createdAt
  }

  ghost predicate IsBootstrapOrg(db: Db, orgId: nat, user: string) {
    orgId in db.orgs && db.orgs[orgId] == Some(user)
  }

  // The person-level copies of the active global team presets.
  function Copies(db: Db, orgId: nat): set<Definition> {
    set d | d in db.definitions && d.orgId == None && d.level == TeamLevel && d.active ::
      Definition(Some(orgId), d.slug, d.version, PersonLevel, d.active)
  }

  // ------------------------------------------------------------------- steps

  function SetPc(s: State, pid: nat, pc: Pc): State
    requires pid in s.procs
  {
    s.(procs := s.procs[pid := s.procs[pid].(pc := pc)])
  }

  function Release(s: State, pid: nat): State
    requires pid in s.procs
  {
    var user := s.procs[pid].user;
    s.(pending := if user in s.pending && s.pending[user] == pid then s.pending - {user} else s.pending)
  }

  function Commit(db: Db, user: string, pc: Pc): Db
    requires pc.Writing?
  {
    Db(if pc.isNew then db.orgs[pc.orgId := Some(user)] else db.orgs,
       if pc.member then db.members[Key(pc.orgId, user) := Membership(Admin, pc.now)] else db.members,
       db.definitions + pc.copies)
  }

  ghost function RunNext(s: State, pid: nat, seen: Option<nat>, now: int): State
    requires pid in s.procs
  {
    var user := s.procs[pid].user;
    match s.procs[pid].pc
    case Start =>
      if !IsMembershipForUser(s.db, user, seen) then s
      else if seen.Some? then SetPc(s, pid, Returned(seen.value, s.db.members[Key(seen.value, user)].role))
      else SetPc(s, pid, WantOrg(now))
    case WantOrg(t) =>
      if exists orgId :: IsBootstrapOrg(s.db, orgId, user) then SetPc(s, pid, Conflict(t))
      else if user in s.pending then s
      else SetPc(s, pid, Writing(t, s.nextId, true, 0, false, {})).(
           pending := s.pending[user := pid], nextId := s.nextId + 1)
    case Conflict(t) =>
      if orgId :| IsBootstrapOrg(s.db, orgId, user) then SetPc(s, pid, Writing(t, orgId, false, 0, false, {}))
      else SetPc(s, pid, Reread)
    case Writing(t, orgId, isNew, stage, member, copies) =>
      if stage == 0 then SetPc(s, pid, Writing(t, orgId, isNew, 1, Key(orgId, user) !in s.db.members, copies))
      else if stage == 1 then SetPc(s, pid, Writing(t, orgId, isNew, 2, member, Copies(s.db, orgId)))
      else SetPc(Release(s, pid), pid, Reread).(db := Commit(s.db, user, s.procs[pid].pc))
    case Reread =>
      if !IsMembershipForUser(s.db, user, seen) then s
      else if seen.Some? then SetPc(s, pid, Returned(seen.value, s.db.members[Key(seen.value, user)].role))
      else SetPc(s, pid, Threw)
    case _ => s
  }

  ghost function Next(s: State, e: Event): State {
    match e
    case Begin(pid, user) =>
      if pid in s.procs then s else s.(procs := s.procs[pid := Process(user, Start)])
    case Run(pid, seen, now) => if pid in s.procs then RunNext(s, pid, seen, now) else s
    case Abort(pid) =>
      if pid in s.procs && (s.procs[pid].pc.Conflict? || s.procs[pid].pc.Writing?)
      then SetPc(Release(s, pid), pid, Threw) else s
  }

  ghost function Exec(s: State, events: seq<Event>): State {
    if events == [] then s else Next(Exec(s, events[..|events| - 1]), events[|events| - 1])
  }

  // Nothing is running, and bootstrap ids are unique.
  ghost predicate Quiet(s: State) {
    && s.pending == map[] && s.procs == map[]
    && (forall id | id in s.db.orgs :: id < s.nextId)
    && (forall k | k in s.db.members :: k.orgId < s.nextId)
    && (forall a, b, user | IsBootstrapOrg(s.db, a, user) && IsBootstrapOrg(s.db, b, user) :: a == b)
  }

  // The user has never been here: no membership and no bootstrap org.
  ghost predicate IsNewUser(db: Db, user: string) {
    && (forall k | k in db.members :: k.user != user)
    && (forall orgId :: !IsBootstrapOrg(db, orgId, user))
  }

  // --------------------------------------------------------------- invariant

  // The user's membership of the org is the earliest, so a read returns no other.
  ghost predicate IsFirst(db: Db, user: string, orgId: nat) {
    && Key(orgId, user) in db.members
    && forall k | k in db.members && k.user == user && k.orgId != orgId ::
         db.members[Key(orgId, user)].createdAt < db.members[k].createdAt
  }

  // Once the user's org is committed, so are its admin membership and its copies of the presets,
  // and every other membership of the user is later.
  ghost predicate Settled(db: Db, user: string, orgId: nat) {
    && IsBootstrapOrg(db, orgId, user)
    && IsFirst(db, user, orgId) && db.members[Key(orgId, user)].role == Admin
    && Copies(db, orgId) <= db.definitions
    && (forall o | IsBootstrapOrg(db, o, user) :: o == orgId)
  }

  ghost predicate ProcessInv(s: State, pid: nat)
    requires pid in s.procs
  {
    var user, pc := s.procs[pid].user, s.procs[pid].pc;
    && (pc.Conflict? || pc.Reread? ==> exists orgId :: Settled(s.db, user, orgId))
    && (pc.Returned? ==> Settled(s.db, user, pc.orgId) && pc.role == Admin)
    && (pc.Writing? && !pc.isNew ==> Settled(s.db, user, pc.orgId) && !pc.member && pc.copies <= s.db.definitions)
    && (IsInserting(pc) ==>
          && IsNewUser(s.db, user) && user in s.pending && s.pending[user] == pid
          && (pc.stage >= 1 ==> pc.member)
          && (pc.stage >= 2 ==> pc.copies == Copies(s.db, pc.orgId)))
  }

  // The invariant of one user who was new when the run began.
  ghost predicate UserInv(s: State, user: string) {
    && (IsNewUser(s.db, user) || exists orgId :: Settled(s.db, user, orgId))
    && (forall p | p in s.procs && s.procs[p].user == user :: ProcessInv(s, p))
  }

  predicate IsInserting(pc: Pc) {
    pc.Writing? && pc.isNew
  }

  // An org that is being inserted has an id of its own.
  ghost predicate FreshId(s: State, p: nat)
    requires p in s.procs
  {
    IsInserting(s.procs[p].pc) ==> s.procs[p].pc.orgId < s.nextId && s.procs[p].pc.orgId !in s.db.orgs
  }

  ghost predicate DifferentIds(s: State, p: nat, q: nat)
    requires p in s.procs && q in s.procs
  {
    p != q && IsInserting(s.procs[p].pc) && IsInserting(s.procs[q].pc) ==>
      s.procs[p].pc.orgId != s.procs[q].pc.orgId
  }

  // A transaction copies definitions into its own org only.
  ghost predicate OwnCopies(pc: Pc) {
    pc.Writing? ==> forall d | d in pc.copies :: d.orgId == Some(pc.orgId)
  }

  ghost predicate IdInv(s: State) {
    && (forall p | p in s.procs :: OwnCopies(s.procs[p].pc))
    && (forall id | id in s.db.orgs :: id < s.nextId)
    && (forall p | p in s.procs :: FreshId(s, p))
    && (forall p, q | p in s.procs && q in s.procs :: DifferentIds(s, p, q))
  }

  // What a step of process `pid` may change.
  ghost predicate Frame(s: State, s': State, pid: nat) {
    && (forall q | q in s.procs && q != pid :: q in s'.procs && s'.procs[q] == s.procs[q])
    && (forall q | q in s'.procs && q != pid :: q in s.procs)
    && (pid in s.procs ==> pid in s'.procs && s'.procs[pid].user == s.procs[pid].user)
    && (forall user | user in s.pending && s.pending[user] != pid :: user in s'.pending && s'.pending[user] == s.pending[user])
    && s.nextId <= s'.nextId
    && (s'.db == s.db || Commits(s, s', pid))
    && (pid in s'.procs ==> OwnCopies(s'.procs[pid].pc) || (pid in s.procs && s'.procs[pid] == s.procs[pid])
                            || (pid in s.procs && s.procs[pid].pc.Writing? && s'.procs[pid].pc.Writing?
                                && s'.procs[pid].pc.orgId == s.procs[pid].pc.orgId
                                && s'.procs[pid].pc.copies == s.procs[pid].pc.copies))
    && (pid in s'.procs && IsInserting(s'.procs[pid].pc) ==>
          && pid in s.procs
          && if IsInserting(s.procs[pid].pc) then s'.procs[pid].pc.orgId == s.procs[pid].pc.orgId
             else s'.procs[pid].pc.orgId == s.nextId && s'.nextId == s.nextId + 1)
  }

  ghost predicate Commits(s: State, s': State, pid: nat) {
    && pid in s.procs && s.procs[pid].pc.Writing? && s.procs[pid].pc.stage >= 2
    && s'.db == Commit(s.db, s.procs[pid].user, s.procs[pid].pc)
    && pid in s'.procs && s'.procs[pid].pc == Reread
  }

  lemma TransactionFrame(s: State, pid: nat, seen: Option<nat>, now: int)
    requires pid in s.procs && s.procs[pid].pc.Writing?
    ensures Frame(s, RunNext(s, pid, seen, now), pid)
  {
  }

  lemma StatementFrame(s: State, pid: nat, seen: Option<nat>, now: int)
    requires pid in s.procs && !s.procs[pid].pc.Writing?
    ensures Frame(s, RunNext(s, pid, seen, now), pid)
  {
  }

  lemma OtherFrame(s: State, e: Event)
    requires !e.Run?
    ensures Frame(s, Next(s, e), e.pid)
  {
  }

  lemma StepFrame(s: State, e: Event)
    ensures Frame(s, Next(s, e), e.pid)
  {
    if e.Run? && e.pid in s.procs {
      if s.procs[e.pid].pc.Writing? {
        TransactionFrame(s, e.pid, e.seen, e.now);
      } else {
        StatementFrame(s, e.pid, e.seen, e.now);
      }
    } else if !e.Run? {
      OtherFrame(s, e);
    }
  }

  lemma FrameKeepsIds(s: State, s': State, pid: nat)
    requires IdInv(s) && Frame(s, s', pid)
    ensures IdInv(s')
  {
    assert pid in s.procs ==> FreshId(s, pid);
    forall p | p in s'.procs ensures FreshId(s', p) {
      assert p in s.procs ==> FreshId(s, p);
      assert p in s.procs && pid in s.procs ==> DifferentIds(s, p, pid);
    }
    forall p, q | p in s'.procs && q in s'.procs ensures DifferentIds(s', p, q) {
      if p in s.procs && q in s.procs {
        assert FreshId(s, p) && FreshId(s, q) && DifferentIds(s, p, q);
      }
    }
  }

  // The tables as far as they concern one user.
  ghost predicate SameForUser(db: Db, db': Db, user: string) {
    && (forall orgId :: IsBootstrapOrg(db, orgId, user) <==> IsBootstrapOrg(db', orgId, user))
    && (forall k: Key | k.user == user :: k in db.members <==> k in db'.members)
    && (forall k: Key | k in db.members && k.user == user :: db'.members[k] == db.members[k])
    && (forall orgId :: Copies(db', orgId) == Copies(db, orgId))
    && db.definitions <= db'.definitions
  }

  lemma SameForUserKeeps(db: Db, db': Db, user: string)
    requires SameForUser(db, db', user)
    ensures IsNewUser(db, user) <==> IsNewUser(db', user)
    ensures forall orgId :: Settled(db, user, orgId) ==> Settled(db', user, orgId)
  {
    forall orgId | Settled(db, user, orgId) ensures Settled(db', user, orgId) {
      assert Copies(db', orgId) == Copies(db, orgId);
    }
  }

  // A commit adds definitions of one org only, so the copies of the presets stay the same.
  lemma CommitKeepsCopies(db: Db, user: string, pc: Pc, orgId: nat)
    requires pc.Writing? && OwnCopies(pc)
    ensures Copies(Commit(db, user, pc), orgId) == Copies(db, orgId)
  {
    var db' := Commit(db, user, pc);
    forall d | d in db'.definitions && d.orgId == None ensures d in db.definitions {
    }
  }

  lemma OtherCommit(s: State, s': State, pid: nat, user: string)
    requires IdInv(s) && Commits(s, s', pid) && s.procs[pid].user != user
    ensures SameForUser(s.db, s'.db, user)
  {
    var pc := s.procs[pid].pc;
    assert FreshId(s, pid);
    forall orgId ensures Copies(s'.db, orgId) == Copies(s.db, orgId) {
      CommitKeepsCopies(s.db, s.procs[pid].user, pc, orgId);
    }
  }

  // A commit by a transaction that adopted a settled org changes nothing.
  lemma LoserChangesNothing(s: State, pid: nat)
    requires pid in s.procs && ProcessInv(s, pid) && s.procs[pid].pc.Writing? && !s.procs[pid].pc.isNew
    ensures Commit(s.db, s.procs[pid].user, s.procs[pid].pc) == s.db
  {
    assert s.db.definitions + s.procs[pid].pc.copies == s.db.definitions;
  }

  // The winner's commit settles its org.
  lemma WinnerSettles(s: State, pid: nat)
    requires IdInv(s) && pid in s.procs && ProcessInv(s, pid)
    requires IsInserting(s.procs[pid].pc) && s.procs[pid].pc.stage >= 2
    ensures Settled(Commit(s.db, s.procs[pid].user, s.procs[pid].pc), s.procs[pid].user, s.procs[pid].pc.orgId)
  {
    var user, pc := s.procs[pid].user, s.procs[pid].pc;
    CommitKeepsCopies(s.db, user, pc, pc.orgId);
    var db' := Commit(s.db, user, pc);
    forall o | IsBootstrapOrg(db', o, user) ensures o == pc.orgId {
      assert o != pc.orgId ==> IsBootstrapOrg(s.db, o, user);
    }
  }

  // The other processes of the user keep their invariant when the user's rows only become settled.
  lemma OthersKeepInv(s: State, s': State, pid: nat, user: string)
    requires UserInv(s, user) && Frame(s, s', pid)
    requires SameForUser(s.db, s'.db, user)
    ensures forall q | q in s'.procs && q != pid && s'.procs[q].user == user :: ProcessInv(s', q)
  {
    SameForUserKeeps(s.db, s'.db, user);
    forall q | q in s'.procs && q != pid && s'.procs[q].user == user ensures ProcessInv(s', q) {
      assert ProcessInv(s, q);
    }
  }

  // --------------------------------------------------- one step of the invariant

  lemma ReadKeepsInv(s: State, pid: nat, seen: Option<nat>, now: int)
    requires pid in s.procs && UserInv(s, s.procs[pid].user)
    requires s.procs[pid].pc.Start? || s.procs[pid].pc.Reread?
    ensures ProcessInv(RunNext(s, pid, seen, now), pid)
  {
    assert ProcessInv(s, pid);
  }

  lemma InsertKeepsInv(s: State, pid: nat, seen: Option<nat>, now: int)
    requires pid in s.procs && UserInv(s, s.procs[pid].user)
    requires s.procs[pid].pc.WantOrg? || s.procs[pid].pc.Conflict?
    ensures ProcessInv(RunNext(s, pid, seen, now), pid)
  {
    assert ProcessInv(s, pid);
    var user := s.procs[pid].user;
    if exists orgId :: IsBootstrapOrg(s.db, orgId, user) {
      assert !IsNewUser(s.db, user);
      var orgId :| Settled(s.db, user, orgId);
    }
  }

  lemma WriteKeepsInv(s: State, pid: nat, seen: Option<nat>, now: int)
    requires IdInv(s) && pid in s.procs && UserInv(s, s.procs[pid].user)
    requires s.procs[pid].pc.Writing?
    ensures ProcessInv(RunNext(s, pid, seen, now), pid)
  {
    assert ProcessInv(s, pid);
    if s.procs[pid].pc.stage >= 2 {
      if s.procs[pid].pc.isNew {
        WinnerSettles(s, pid);
      } else {
        LoserChangesNothing(s, pid);
      }
    }
  }

  lemma OwnRunKeepsInv(s: State, pid: nat, seen: Option<nat>, now: int)
    requires IdInv(s) && pid in s.procs && UserInv(s, s.procs[pid].user)
    ensures UserInv(RunNext(s, pid, seen, now), s.procs[pid].user)
  {
    var s', user, pc := RunNext(s, pid, seen, now), s.procs[pid].user, s.procs[pid].pc;
    StepFrame(s, Run(pid, seen, now));
    assert ProcessInv(s, pid);
    if pc.Start? || pc.Reread? {
      ReadKeepsInv(s, pid, seen, now);
    } else if pc.WantOrg? || pc.Conflict? {
      InsertKeepsInv(s, pid, seen, now);
    } else if pc.Writing? {
      WriteKeepsInv(s, pid, seen, now);
    }
    if IsInserting(pc) && pc.stage >= 2 {
      WinnerSettles(s, pid);
      forall q | q in s'.procs && q != pid && s'.procs[q].user == user ensures ProcessInv(s', q) {
        assert ProcessInv(s, q);
      }
    } else {
      if pc.Writing? && pc.stage >= 2 {
        LoserChangesNothing(s, pid);
      }
      assert s'.db == s.db;
      OthersKeepInv(s, s', pid, user);
    }
  }

  lemma OtherRunKeepsInv(s: State, e: Event, user: string)
    requires IdInv(s) && UserInv(s, user) && (e.pid in s.procs ==> s.procs[e.pid].user != user)
    ensures UserInv(Next(s, e), user)
  {
    var s' := Next(s, e);
    StepFrame(s, e);
    if s'.db != s.db {
      OtherCommit(s, s', e.pid, user);
    }
    SameForUserKeeps(s.db, s'.db, user);
    OthersKeepInv(s, s', e.pid, user);
  }

  lemma AbortKeepsInv(s: State, pid: nat)
    requires pid in s.procs && UserInv(s, s.procs[pid].user)
    ensures UserInv(Next(s, Abort(pid)), s.procs[pid].user)
  {
    StepFrame(s, Abort(pid));
    assert ProcessInv(s, pid);
    OthersKeepInv(s, Next(s, Abort(pid)), pid, s.procs[pid].user);
  }

  lemma StepKeepsInv(s: State, e: Event, user: string)
    requires IdInv(s) && UserInv(s, user)
    ensures UserInv(Next(s, e), user)
  {
    if e.pid in s.procs && s.procs[e.pid].user == user {
      assert ProcessInv(s, e.pid);
      match e
      case Run(pid, seen, now) => OwnRunKeepsInv(s, pid, seen, now);
      case Abort(pid) => AbortKeepsInv(s, pid);
      case Begin(_, _) =>
    } else {
      OtherRunKeepsInv(s, e, user);
    }
  }

  // ---------------------------------------------------------------- theorems

  lemma {:induction false} RunsKeepIds(s: State, events: seq<Event>)
    requires Quiet(s)
    ensures IdInv(Exec(s, events))
  {
    if events != [] {
      RunsKeepIds(s, events[..|events| - 1]);
      StepFrame(Exec(s, events[..|events| - 1]), events[|events| - 1]);
      FrameKeepsIds(Exec(s, events[..|events| - 1]), Exec(s, events), events[|events| - 1].pid);
    }
  }

  lemma {:induction false} RunsKeepInv(s: State, events: seq<Event>, user: string)
    requires Quiet(s) && IsNewUser(s.db, user)
    ensures UserInv(Exec(s, events), user)
  {
    if events != [] {
      RunsKeepInv(s, events[..|events| - 1], user);
      RunsKeepIds(s, events[..|events| - 1]);
      StepKeepsInv(Exec(s, events[..|events| - 1]), events[|events| - 1], user);
    }
  }

  // The user is a member of bootstrap orgs only.
  ghost predicate OwnOrgsOnly(db: Db, user: string) {
    forall k | k in db.members && k.user == user :: IsBootstrapOrg(db, k.orgId, user)
  }

  lemma StepKeepsOwnOrgs(s: State, e: Event, user: string)
    requires IdInv(s) && UserInv(s, user) && OwnOrgsOnly(s.db, user)
    ensures OwnOrgsOnly(Next(s, e).db, user)
  {
    var s' := Next(s, e);
    StepFrame(s, e);
    if s'.db != s.db && s.procs[e.pid].user == user {
      assert ProcessInv(s, e.pid) && FreshId(s, e.pid);
      forall k | k in s'.db.members && k.user == user ensures IsBootstrapOrg(s'.db, k.orgId, user) {
        assert k in s.db.members ==> IsBootstrapOrg(s.db, k.orgId, user);
      }
    } else if s'.db != s.db {
      OtherCommit(s, s', e.pid, user);
    }
  }

  lemma {:induction false} RunsKeepOwnOrgs(s: State, events: seq<Event>, user: string)
    requires Quiet(s) && IsNewUser(s.db, user)
    ensures OwnOrgsOnly(Exec(s, events).db, user)
  {
    if events != [] {
      RunsKeepOwnOrgs(s, events[..|events| - 1], user);
      RunsKeepIds(s, events[..|events| - 1]);
      RunsKeepInv(s, events[..|events| - 1], user);
      StepKeepsOwnOrgs(Exec(s, events[..|events| - 1]), events[|events| - 1], user);
    }
  }

  /**
   In every interleaving of bootstraps, all completed calls of a new user return the same org: the
   only one that carries the user's bootstrap id, with the user as its admin, the preset copies in
   place and no other membership.
   */
  lemma CompletedCallsAgree(s: State, events: seq<Event>, p: nat, q: nat)
    requires Quiet(s) && p in Exec(s, events).procs && q in Exec(s, events).procs
    requires Exec(s, events).procs[p].pc.Returned? && Exec(s, events).procs[q].pc.Returned?
    requires Exec(s, events).procs[p].user == Exec(s, events).procs[q].user
    requires IsNewUser(s.db, Exec(s, events).procs[p].user)
    ensures Exec(s, events).procs[p].pc == Exec(s, events).procs[q].pc
    ensures Exec(s, events).procs[p].pc.role == Admin
    ensures Settled(Exec(s, events).db, Exec(s, events).procs[p].user, Exec(s, events).procs[p].pc.orgId)
    ensures forall k | k in Exec(s, events).db.members && k.user == Exec(s, events).procs[p].user ::
              k.orgId == Exec(s, events).procs[p].pc.orgId
  {
    var t := Exec(s, events);
    RunsKeepInv(s, events, t.procs[p].user);
    RunsKeepOwnOrgs(s, events, t.procs[p].user);
    assert ProcessInv(t, p) && ProcessInv(t, q);
  }

  /** Once a call of a new user completed, no statement of any call of that user changes a table. */
  lemma RepeatingChangesNothing(s: State, events: seq<Event>, p: nat, e: Event)
    requires Quiet(s) && p in Exec(s, events).procs && Exec(s, events).procs[p].pc.Returned?
    requires IsNewUser(s.db, Exec(s, events).procs[p].user)
    requires e.pid in Exec(s, events).procs && Exec(s, events).procs[e.pid].user == Exec(s, events).procs[p].user
    ensures Next(Exec(s, events), e).db == Exec(s, events).db
  {
    var t := Exec(s, events);
    RunsKeepInv(s, events, t.procs[p].user);
    assert ProcessInv(t, p) && ProcessInv(t, e.pid);
    if t.procs[e.pid].pc.Writing? {
      assert !t.procs[e.pid].pc.isNew;
      LoserChangesNothing(t, e.pid);
    }
  }

  /** The bootstrap of a new user fails only when its transaction is aborted. */
  lemma OnlyAbortsFail(s: State, events: seq<Event>, e: Event)
    requires Quiet(s) && e.Run? && e.pid in Exec(s, events).procs
    requires IsNewUser(s.db, Exec(s, events).procs[e.pid].user)
    requires Next(Exec(s, events), e).procs[e.pid].pc == Threw
    ensures Exec(s, events).procs[e.pid].pc == Threw
  {
    RunsKeepInv(s, events, Exec(s, events).procs[e.pid].user);
    assert ProcessInv(Exec(s, events), e.pid);
  }

  // An inserting transaction is the only one for its user, who has no bootstrap org yet.
  ghost predicate InsertsAlone(s: State, p: nat)
    requires p in s.procs
  {
    IsInserting(s.procs[p].pc) ==>
      && s.procs[p].user in s.pending && s.pending[s.procs[p].user] == p
      && forall orgId :: !IsBootstrapOrg(s.db, orgId, s.procs[p].user)
  }

  // At most one org per bootstrap id.
  ghost predicate UniqueInv(s: State) {
    && (forall a, b, user | IsBootstrapOrg(s.db, a, user) && IsBootstrapOrg(s.db, b, user) :: a == b)
    && (forall p | p in s.procs :: InsertsAlone(s, p))
  }

  lemma CommitKeepsUnique(s: State, s': State, pid: nat)
    requires IdInv(s) && UniqueInv(s) && Frame(s, s', pid) && Commits(s, s', pid)
    ensures UniqueInv(s')
  {
    var p := s.procs[pid];
    assert FreshId(s, pid);
    forall a, b, user | IsBootstrapOrg(s'.db, a, user) && IsBootstrapOrg(s'.db, b, user) ensures a == b {
      assert (IsInserting(p.pc) && a == p.pc.orgId) || IsBootstrapOrg(s.db, a, user);
      assert (IsInserting(p.pc) && b == p.pc.orgId) || IsBootstrapOrg(s.db, b, user);
    }
    forall q | q in s'.procs ensures InsertsAlone(s', q) {
      if q != pid {
        assert InsertsAlone(s, q) && s'.procs[q] == s.procs[q];
        assert InsertsAlone(s, pid);
        forall orgId | IsInserting(s.procs[q].pc) ensures !IsBootstrapOrg(s'.db, orgId, s.procs[q].user) {
          assert !IsBootstrapOrg(s.db, orgId, s.procs[q].user);
        }
      }
    }
  }

  lemma QueryInsertsAlone(s: State, e: Event)
    requires e.pid in s.procs && InsertsAlone(s, e.pid) && Next(s, e).db == s.db
    ensures e.pid in Next(s, e).procs && InsertsAlone(Next(s, e), e.pid)
  {
  }

  lemma QueryKeepsUnique(s: State, s': State, pid: nat)
    requires UniqueInv(s) && Frame(s, s', pid) && s'.db == s.db
    requires pid in s.procs ==> pid in s'.procs && InsertsAlone(s', pid)
    ensures UniqueInv(s')
  {
    forall q | q in s'.procs ensures InsertsAlone(s', q) {
      if q != pid {
        assert InsertsAlone(s, q) && s'.procs[q] == s.procs[q];
      }
    }
  }

  lemma StepKeepsUnique(s: State, e: Event)
    requires IdInv(s) && UniqueInv(s)
    ensures UniqueInv(Next(s, e))
  {
    StepFrame(s, e);
    if Next(s, e).db == s.db {
      if e.pid in s.procs {
        assert InsertsAlone(s, e.pid);
        QueryInsertsAlone(s, e);
      }
      QueryKeepsUnique(s, Next(s, e), e.pid);
    } else {
      CommitKeepsUnique(s, Next(s, e), e.pid);
    }
  }

  /** A bootstrap id is never carried by two orgs, whatever the users had before. */
  lemma {:induction false} BootstrapIdsStayUnique(s: State, events: seq<Event>)
    requires Quiet(s)
    ensures UniqueInv(Exec(s, events))
  {
    if events != [] {
      var before, e := Exec(s, events[..|events| - 1]), events[|events| - 1];
      BootstrapIdsStayUnique(s, events[..|events| - 1]);
      RunsKeepIds(s, events[..|events| - 1]);
      StepKeepsUnique(before, e);
    }
  }

  // ------------------------------------------------------- one call, in full

  /** The copies for an org: person-level definitions, one for each active team-level preset without an org. */
  lemma CopiesExactly(db: Db, orgId: nat, d: Definition)
    ensures d in Copies(db, orgId) <==>
            && d.orgId == Some(orgId) && d.level == PersonLevel && d.active
            && exists p | p in db.definitions :: p.orgId == None && p.level == TeamLevel && p.active
                                                 && p.slug == d.slug && p.version == d.version
  {
  }

  // One more event of a run.
  lemma Then(s: State, events: seq<Event>, e: Event) returns (more: seq<Event>)
    ensures Exec(s, more) == Next(Exec(s, events), e)
  {
    more := events + [e];
    assert more[..|more| - 1] == events;
  }

  lemma ProcsReplaced(s: State, pid: nat, pc: Pc, pc': Pc)
    requires pid in s.procs
    ensures SetPc(SetPc(s, pid, pc), pid, pc') == SetPc(s, pid, pc')
  {
    assert s.procs[pid := s.procs[pid].(pc := pc)][pid := s.procs[pid].(pc := pc')] == s.procs[pid := s.procs[pid].(pc := pc')];
  }

  // A user without a membership gets past the first read.
  lemma ReadsNothing(s: State, pid: nat, now: int) returns (events: seq<Event>)
    requires pid in s.procs && s.procs[pid].pc.Start? && IsMembershipForUser(s.db, s.procs[pid].user, None)
    ensures Exec(s, events) == SetPc(s, pid, WantOrg(now))
  {
    events := Then(s, [], Run(pid, None, now));
  }

  lemma Inserts(s: State, pid: nat, now: int) returns (events: seq<Event>)
    requires pid in s.procs && s.procs[pid].pc.Start? && IsNewUser(s.db, s.procs[pid].user)
    requires s.procs[pid].user !in s.pending
    ensures Exec(s, events) == SetPc(s, pid, Writing(now, s.nextId, true, 0, false, {})).(
                               pending := s.pending[s.procs[pid].user := pid], nextId := s.nextId + 1)
  {
    events := ReadsNothing(s, pid, now);
    events := Then(s, events, Run(pid, None, now));
    ProcsReplaced(s, pid, WantOrg(now), Writing(now, s.nextId, true, 0, false, {}));
  }

  lemma Adopts(s: State, pid: nat, now: int, orgId: nat) returns (events: seq<Event>)
    requires pid in s.procs && s.procs[pid].pc.Start? && IsMembershipForUser(s.db, s.procs[pid].user, None)
    requires forall o :: IsBootstrapOrg(s.db, o, s.procs[pid].user) <==> o == orgId
    ensures Exec(s, events) == SetPc(s, pid, Writing(now, orgId, false, 0, false, {}))
  {
    events := ReadsNothing(s, pid, now);
    assert IsBootstrapOrg(s.db, orgId, s.procs[pid].user);
    events := Then(s, events, Run(pid, None, now));
    ProcsReplaced(s, pid, WantOrg(now), Conflict(now));
    events := Then(s, events, Run(pid, None, now));
    ProcsReplaced(s, pid, Conflict(now), Writing(now, orgId, false, 0, false, {}));
  }

  // The two insert statements of a transaction whose org is known.
  lemma Writes(s: State, pid: nat, events: seq<Event>, t: State) returns (more: seq<Event>)
    requires t == Exec(s, events) && pid in t.procs && t.procs[pid].pc.Writing?
    requires var pc := t.procs[pid].pc; pc == Writing(pc.now, pc.orgId, pc.isNew, 0, false, {})
    ensures var pc := t.procs[pid].pc;
            Exec(s, more) == SetPc(t, pid, Writing(pc.now, pc.orgId, pc.isNew, 2, Key(pc.orgId, t.procs[pid].user) !in t.db.members,
                                                   Copies(t.db, pc.orgId)))
  {
    var pc := t.procs[pid].pc;
    var member := Key(pc.orgId, t.procs[pid].user) !in t.db.members;
    more := Then(s, events, Run(pid, None, pc.now));
    var once := Exec(s, more);
    more := Then(s, more, Run(pid, None, pc.now));
    ProcsReplaced(t, pid, Writing(pc.now, pc.orgId, pc.isNew, 1, member, {}),
                  Writing(pc.now, pc.orgId, pc.isNew, 2, member, Copies(t.db, pc.orgId)));
    assert once.db == t.db;
  }

  // The tables with the user as admin of an org and the copies of the presets for it.
  function Joined(db: Db, user: string, orgId: nat, orgs: map<nat, Option<string>>, now: int): Db {
    Db(orgs, db.members[Key(orgId, user) := Membership(Admin, now)], db.definitions + Copies(db, orgId))
  }

  // Commit and second read.
  lemma Finishes(s: State, pid: nat, events: seq<Event>, t: State, now: int) returns (more: seq<Event>)
    requires t == Exec(s, events) && pid in t.procs && t.procs[pid].pc.Writing? && t.procs[pid].pc.now == now
    requires t.procs[pid].pc.stage == 2 && t.procs[pid].pc.member && IsMembershipForUser(t.db, t.procs[pid].user, None)
    requires t.procs[pid].pc.copies == Copies(t.db, t.procs[pid].pc.orgId)
    ensures var user, pc := t.procs[pid].user, t.procs[pid].pc;
            var u := Exec(s, more);
            && u.db == Joined(t.db, user, pc.orgId, if pc.isNew then t.db.orgs[pc.orgId := Some(user)] else t.db.orgs, now)
            && u.procs == t.procs[pid := Process(user, Returned(pc.orgId, Admin))]
            && u.pending == Release(t, pid).pending && u.nextId == t.nextId
  {
    var user, pc := t.procs[pid].user, t.procs[pid].pc;
    more := Then(s, events, Run(pid, None, now));
    var committed := Exec(s, more);
    assert committed.procs == t.procs[pid := Process(user, Reread)];
    assert committed.db.members == t.db.members[Key(pc.orgId, user) := Membership(Admin, now)];
    assert IsMembershipForUser(committed.db, user, Some(pc.orgId));
    more := Then(s, more, Run(pid, Some(pc.orgId), now));
    assert t.procs[pid := Process(user, Reread)][pid := Process(user, Returned(pc.orgId, Admin))]
        == t.procs[pid := Process(user, Returned(pc.orgId, Admin))];
  }

  /** A new user's call that runs alone creates one org with that bootstrap id, its admin membership and its copies. */
  lemma NewcomerAlone(s: State, pid: nat, now: int) returns (events: seq<Event>)
    requires pid in s.procs && s.procs[pid].pc.Start? && IsNewUser(s.db, s.procs[pid].user)
    requires s.procs[pid].user !in s.pending
    ensures var user, t := s.procs[pid].user, Exec(s, events);
            && t.db == Joined(s.db, user, s.nextId, s.db.orgs[s.nextId := Some(user)], now)
            && t.procs == s.procs[pid := Process(user, Returned(s.nextId, Admin))]
            && t.pending == s.pending && t.nextId == s.nextId + 1
  {
    var user := s.procs[pid].user;
    events := Inserts(s, pid, now);
    events := Writes(s, pid, events, Exec(s, events));
    var written := Exec(s, events);
    events := Finishes(s, pid, events, written, now);
    assert s.pending[user := pid] - {user} == s.pending;
    assert written.procs[pid := Process(user, Returned(s.nextId, Admin))] == s.procs[pid := Process(user, Returned(s.nextId, Admin))];
  }

  /** A user whose org exists but who is a member of none becomes its admin again, without a second org. */
  lemma AdopterAlone(s: State, pid: nat, now: int, orgId: nat) returns (events: seq<Event>)
    requires pid in s.procs && s.procs[pid].pc.Start? && IsMembershipForUser(s.db, s.procs[pid].user, None)
    requires forall o :: IsBootstrapOrg(s.db, o, s.procs[pid].user) <==> o == orgId
    requires forall user | user in s.pending :: s.pending[user] != pid
    ensures var user, t := s.procs[pid].user, Exec(s, events);
            && t.db == Joined(s.db, user, orgId, s.db.orgs, now)
            && t.procs == s.procs[pid := Process(user, Returned(orgId, Admin))]
            && t.pending == s.pending && t.nextId == s.nextId
  {
    var user := s.procs[pid].user;
    events := Adopts(s, pid, now, orgId);
    events := Writes(s, pid, events, Exec(s, events));
    var written := Exec(s, events);
    events := Finishes(s, pid, events, written, now);
    assert written.procs[pid := Process(user, Returned(orgId, Admin))] == s.procs[pid := Process(user, Returned(orgId, Admin))];
  }

  /**
   A member's call returns the membership it reads and changes nothing. A membership that is gone when the call
   reads it again makes the call throw, and so does an abort, which frees the bootstrap id. A call that finds the
   org it lost to gone again writes nothing and reads again.
   */
  lemma OtherAnswers(s: State, pid: nat, seen: Option<nat>, now: int)
    requires pid in s.procs && IsMembershipForUser(s.db, s.procs[pid].user, seen)
    ensures s.procs[pid].pc in {Start, Reread} && seen.Some? ==>
              Next(s, Run(pid, seen, now)) == SetPc(s, pid, Returned(seen.value, s.db.members[Key(seen.value, s.procs[pid].user)].role))
    ensures s.procs[pid].pc == Reread && seen.None? ==> Next(s, Run(pid, seen, now)) == SetPc(s, pid, Threw)
    ensures s.procs[pid].pc.Conflict? && (forall orgId :: !IsBootstrapOrg(s.db, orgId, s.procs[pid].user)) ==>
              Next(s, Run(pid, seen, now)) == SetPc(s, pid, Reread)
    ensures var t, open := Next(s, Abort(pid)), s.procs[pid].pc.Conflict? || s.procs[pid].pc.Writing?;
            && t.db == s.db && (!open ==> t == s)
            && (open ==> t.procs[pid].pc == Threw
                         && (s.procs[pid].user in t.pending ==> t.pending[s.procs[pid].user] != pid))
  {
  }

  /** A call begins in the name of its user and changes nothing else. */
  lemma CallsBegin(s: State, pid: nat, user: string)
    ensures Next(s, Begin(pid, user)) == if pid in s.procs then s else s.(procs := s.procs[pid := Process(user, Start)])
  {
  }
}
