/**
 Leaving and removing memberships (src/db/membership.ts) as interleaved transactions.

 The committed tables are `Db`. A process is one call of leaveOrg or removeOrgMember; each of its
 statements is one `Run` event, and what its transaction has deleted stays in the process until
 the commit. Joins (invite acceptance, bootstrap) and inserts of dependent rows are single events
 that may fall between any two statements. Every sequence of events is a run, so a theorem about
 `Exec(s, events)` is about every interleaving. Postgres would make some of these joins and
 inserts wait for the org row lock; the model lets them through.
 */
module Membership {
  import opened Wrappers

  datatype Role = Admin | Member

  datatype Key = Key(org: string, user: string)

  datatype Table = TeamManagers | ManagerNotes | DigestPreferences | BenchmarkConsent

  // A dependent row; `user` is the manager, the author, or the owner of the preference.
  datatype Row = Row(table: Table, key: Key, id: nat)

  datatype Action = MemberLeave | MemberRemove

  datatype Audit = Audit(actor: string, action: Action, target: Key)

  datatype Db = Db(members: map<Key, Role>, rows: set<Row>, audit: seq<Audit>)

  datatype Call = Leave(userId: string, orgId: string) | Remove(orgId: string, targetUserId: string, actorUserId: string)
  {
    function Target(): Key {
      match this
      case Leave(userId, orgId) => Key(orgId, userId)
      case Remove(orgId, targetUserId, _) => Key(orgId, targetUserId)
    }

    function AuditRow(): Audit {
      match this
      case Leave(userId, _) => Audit(userId, MemberLeave, Target())
      case Remove(_, _, actorUserId) => Audit(actorUserId, MemberRemove, Target())
    }

    function Protected(): Outcome {
      if Leave? then PersonalOrg else Owner
    }
  }

  datatype Outcome = Ok | NotMember | PersonalOrg | SelfTarget | Owner | LastAdmin | Failed

  // The statements of a call. `Purging(stage, ..)` is inside the transaction after the recount:
  // stages 0 to 3 delete from the four dependent tables, 4 deletes the membership, 5 inserts the
  // audit row and 6 commits. `deleted` and `dropped` are what the transaction has deleted so far,
  // `mark` how many dependent rows had ever been inserted when it took the lock.
  datatype Pc =
    | Start
    | SawMember
    | WantLock
    | Locked(mark: nat)
    | Purging(mark: nat, stage: nat, deleted: set<Row>, dropped: bool, audited: seq<Audit>)
    | Finished(outcome: Outcome)

  datatype Process = Process(call: Call, pc: Pc)

  // `owners` is orgs.bootstrap_user_id, `locks` the holder of each org row lock, `inserted` the
  // history of inserted dependent rows.
  datatype State = State(db: Db, owners: map<string, string>, locks: map<string, nat>,
                         procs: map<nat, Process>, inserted: seq<Row>)

  datatype Event =
    | Begin(pid: nat, call: Call)
    | Run(pid: nat)
    | Abort(pid: nat)
    | Join(key: Key, role: Role)
    | InsertRow(row: Row)

  const TABLES := [TeamManagers, ManagerNotes, DigestPreferences, BenchmarkConsent]

  function RowsOf(db: Db, table: Table, key: Key): set<Row> {
    set r | r in db.rows && r.table == table && r.key == key
  }

  function AdminsOf(db: Db, org: string): set<Key> {
    set k | k in db.members && k.org == org && db.members[k] == Admin
  }

  predicate InTransaction(pc: Pc) {
    pc.Locked? || pc.Purging?
  }

  // ------------------------------------------------------------------- steps

  function SetPc(s: State, pid: nat, pc: Pc): State
    requires pid in s.procs
  {
    s.(procs := s.procs[pid := s.procs[pid].(pc := pc)])
  }

  // The transaction ends: the lock is released.
  function EndTransaction(s: State, pid: nat, outcome: Outcome): State
    requires pid in s.procs
  {
    var s' := SetPc(s, pid, Finished(outcome));
    s'.(locks := s.locks - {s.procs[pid].call.Target().org})
  }

  function Commit(db: Db, key: Key, deleted: set<Row>, dropped: bool, audited: seq<Audit>): Db {
    Db(if dropped then db.members - {key} else db.members, db.rows - deleted, db.audit + audited)
  }

  function RunNext(s: State, pid: nat): State
    requires pid in s.procs
  {
    var call, key := s.procs[pid].call, s.procs[pid].call.Target();
    match s.procs[pid].pc
    case Start =>
      if call.Remove? && call.targetUserId == call.actorUserId then SetPc(s, pid, Finished(SelfTarget))
      else if key !in s.db.members then SetPc(s, pid, Finished(NotMember))
      else SetPc(s, pid, SawMember)
    case SawMember =>
      if key.org in s.owners && s.owners[key.org] == key.user then SetPc(s, pid, Finished(call.Protected()))
      else SetPc(s, pid, WantLock)
    case WantLock =>
      if key.org in s.locks then s
      else SetPc(s, pid, Locked(|s.inserted|)).(locks := s.locks[key.org := pid])
    case Locked(mark) =>
      if key in s.db.members && s.db.members[key] == Admin && |AdminsOf(s.db, key.org)| <= 1
      then EndTransaction(s, pid, LastAdmin)
      else SetPc(s, pid, Purging(mark, 0, {}, false, []))
    case Purging(mark, stage, deleted, dropped, audited) =>
      if stage < 4 then
        SetPc(s, pid, Purging(mark, stage + 1, deleted + RowsOf(s.db, TABLES[stage], key), dropped, audited))
      else if stage == 4 then SetPc(s, pid, Purging(mark, 5, deleted, key in s.db.members, audited))
      else if stage == 5 then SetPc(s, pid, Purging(mark, 6, deleted, dropped, audited + [call.AuditRow()]))
      else EndTransaction(s, pid, Ok).(db := Commit(s.db, key, deleted, dropped, audited))
    case Finished(_) => s
  }

  function Next(s: State, e: Event): State {
    match e
    case Begin(pid, call) =>
      if pid in s.procs then s else s.(procs := s.procs[pid := Process(call, Start)])
    case Run(pid) => if pid in s.procs then RunNext(s, pid) else s
    case Abort(pid) =>
      if pid in s.procs && InTransaction(s.procs[pid].pc) then EndTransaction(s, pid, Failed) else s
    case Join(key, role) =>
      if key in s.db.members then s else s.(db := s.db.(members := s.db.members[key := role]))
    case InsertRow(row) => s.(db := s.db.(rows := s.db.rows + {row}), inserted := s.inserted + [row])
  }

  function Exec(s: State, events: seq<Event>): State {
    if events == [] then s else Next(Exec(s, events[..|events| - 1]), events[|events| - 1])
  }

  predicate Quiet(s: State) {
    s.locks == map[] && s.procs == map[]
  }

  // --------------------------------------------------------------- invariant

  ghost predicate HasAdmin(db: Db, org: string) {
    exists k | k in db.members :: k.org == org && db.members[k] == Admin
  }

  ghost predicate OtherAdmin(db: Db, key: Key) {
    exists k | k in db.members :: k != key && k.org == key.org && db.members[k] == Admin
  }

  // Every committed row of the target in this table is deleted by the transaction or was inserted
  // after it took the lock.
  ghost predicate Cleared(s: State, table: Table, key: Key, deleted: set<Row>, mark: nat)
    requires mark <= |s.inserted|
  {
    forall r | r in RowsOf(s.db, table, key) :: r in deleted || r in s.inserted[mark..]
  }

  // One process: it holds the lock while in its transaction, its target is not the bootstrap owner
  // once the pre-checks passed, and what it deleted are rows of its target only.
  ghost predicate ProcessInv(s: State, pid: nat)
    requires pid in s.procs
  {
    var key, pc := s.procs[pid].call.Target(), s.procs[pid].pc;
    && (InTransaction(pc) ==> key.org in s.locks && s.locks[key.org] == pid && pc.mark <= |s.inserted|)
    && (InTransaction(pc) || pc.WantLock? ==> !(key.org in s.owners && s.owners[key.org] == key.user))
    && (s.procs[pid].call.Remove? && !pc.Start? && !pc.Finished? ==> s.procs[pid].call.actorUserId != key.user)
    && (pc.Purging? ==>
          && pc.stage <= 6
          && (forall r | r in pc.deleted :: r.key == key)
          && (forall i | 0 <= i < pc.stage && i < 4 :: Cleared(s, TABLES[i], key, pc.deleted, pc.mark))
          && pc.audited == if pc.stage == 6 then [s.procs[pid].call.AuditRow()] else [])
  }

  ghost predicate Inv(s: State) {
    forall pid | pid in s.procs :: ProcessInv(s, pid)
  }

  // For an org that must keep an admin: it has one, and past the recount one besides the target.
  ghost predicate Governed(s: State, org: string) {
    && HasAdmin(s.db, org)
    && (forall pid | pid in s.procs && s.procs[pid].pc.Purging? && s.procs[pid].call.Target().org == org ::
          OtherAdmin(s.db, s.procs[pid].call.Target()))
  }

  // Another process is untouched by a step of `pid` that changes no lock of its org and removes rows only.
  lemma OthersKeepInv(s: State, s': State, pid: nat)
    requires Inv(s) && pid in s.procs && s'.procs.Keys == s.procs.Keys
    requires forall q | q in s.procs && q != pid :: s'.procs[q] == s.procs[q]
    requires s'.owners == s.owners && s'.inserted == s.inserted && s'.db.rows <= s.db.rows
    requires forall org | org in s.locks && s.locks[org] != pid :: org in s'.locks && s'.locks[org] == s.locks[org]
    ensures forall q | q in s'.procs && q != pid :: ProcessInv(s', q)
  {
    forall q | q in s'.procs && q != pid ensures ProcessInv(s', q) {
      assert ProcessInv(s, q);
    }
  }

  lemma PurgeKeepsInv(s: State, pid: nat)
    requires Inv(s) && pid in s.procs && s.procs[pid].pc.Purging?
    ensures ProcessInv(RunNext(s, pid), pid)
  {
    assert ProcessInv(s, pid);
    var s', pc, key := RunNext(s, pid), s.procs[pid].pc, s.procs[pid].call.Target();
    if pc.stage < 4 {
      var deleted := s'.procs[pid].pc.deleted;
      forall i | 0 <= i < pc.stage + 1 && i < 4 ensures Cleared(s', TABLES[i], key, deleted, pc.mark) {
        if i < pc.stage {
          assert Cleared(s, TABLES[i], key, pc.deleted, pc.mark);
        }
      }
    } else {
      forall i | 0 <= i < 4 ensures Cleared(s', TABLES[i], key, pc.deleted, pc.mark) {
        assert Cleared(s, TABLES[i], key, pc.deleted, pc.mark);
      }
    }
  }

  // Only this process has changed, and it is the same call.
  predicate OthersStay(s: State, s': State, pid: nat)
    requires pid in s.procs
  {
    && s'.procs.Keys == s.procs.Keys
    && (forall q | q in s.procs && q != pid :: s'.procs[q] == s.procs[q])
    && s'.procs[pid].call == s.procs[pid].call
  }

  lemma PurgeKeepsOthers(s: State, pid: nat)
    requires pid in s.procs && s.procs[pid].pc.Purging?
    ensures OthersStay(s, RunNext(s, pid), pid)
  {
  }

  lemma CheckKeepsOthers(s: State, pid: nat)
    requires pid in s.procs && !s.procs[pid].pc.Purging?
    ensures OthersStay(s, RunNext(s, pid), pid)
  {
  }

  lemma RunKeepsRows(s: State, pid: nat)
    requires pid in s.procs
    ensures var s' := RunNext(s, pid);
            s'.owners == s.owners && s'.inserted == s.inserted && s'.db.rows <= s.db.rows
  {
  }

  // What one statement of a process leaves alone.
  lemma RunFrame(s: State, pid: nat)
    requires pid in s.procs && ProcessInv(s, pid)
    ensures var s' := RunNext(s, pid);
            && s'.procs.Keys == s.procs.Keys
            && (forall q | q in s.procs && q != pid :: s'.procs[q] == s.procs[q])
            && s'.procs[pid].call == s.procs[pid].call
            && s'.owners == s.owners && s'.inserted == s.inserted && s'.db.rows <= s.db.rows
  {
    if s.procs[pid].pc.Purging? {
      PurgeKeepsOthers(s, pid);
    } else {
      CheckKeepsOthers(s, pid);
    }
    RunKeepsRows(s, pid);
  }

  lemma RunKeepsOtherLocks(s: State, pid: nat, org: string)
    requires pid in s.procs && ProcessInv(s, pid) && org in s.locks && s.locks[org] != pid
    ensures org in RunNext(s, pid).locks && RunNext(s, pid).locks[org] == s.locks[org]
  {
  }

  lemma QueryKeepsInv(s: State, pid: nat)
    requires Inv(s) && pid in s.procs && !s.procs[pid].pc.Purging?
    ensures ProcessInv(RunNext(s, pid), pid)
  {
    assert ProcessInv(s, pid);
  }

  lemma RunKeepsInv(s: State, pid: nat)
    requires Inv(s) && pid in s.procs
    ensures Inv(RunNext(s, pid))
  {
    assert ProcessInv(s, pid);
    RunFrame(s, pid);
    forall org | org in s.locks && s.locks[org] != pid {
      RunKeepsOtherLocks(s, pid, org);
    }
    OthersKeepInv(s, RunNext(s, pid), pid);
    if s.procs[pid].pc.Purging? {
      PurgeKeepsInv(s, pid);
    } else {
      QueryKeepsInv(s, pid);
    }
  }

  lemma InsertKeepsInv(s: State, row: Row)
    requires Inv(s)
    ensures Inv(Next(s, InsertRow(row)))
  {
    var s' := Next(s, InsertRow(row));
    forall q | q in s'.procs ensures ProcessInv(s', q) {
      assert ProcessInv(s, q);
      var pc, key := s.procs[q].pc, s.procs[q].call.Target();
      if pc.Purging? {
        assert s'.inserted[pc.mark..] == s.inserted[pc.mark..] + [row];
        forall i | 0 <= i < pc.stage && i < 4 ensures Cleared(s', TABLES[i], key, pc.deleted, pc.mark) {
          assert Cleared(s, TABLES[i], key, pc.deleted, pc.mark);
        }
      }
    }
  }

  lemma StepKeepsInv(s: State, e: Event)
    requires Inv(s)
    ensures Inv(Next(s, e))
  {
    var s' := Next(s, e);
    match e
    case Run(pid) =>
      if pid in s.procs {
        RunKeepsInv(s, pid);
      }
    case Abort(pid) =>
      if pid in s.procs {
        assert ProcessInv(s, pid);
        OthersKeepInv(s, s', pid);
      }
    case InsertRow(row) => InsertKeepsInv(s, row);
    case Begin(_, _) =>
      forall q | q in s'.procs ensures ProcessInv(s', q) {
        assert q in s.procs ==> ProcessInv(s, q);
      }
    case Join(_, _) =>
      forall q | q in s'.procs ensures ProcessInv(s', q) {
        assert ProcessInv(s, q);
        assert s'.db.rows == s.db.rows;
      }
  }

  lemma TwoAdmins(db: Db, key: Key)
    requires |AdminsOf(db, key.org)| > 1
    ensures OtherAdmin(db, key)
  {
    var others := AdminsOf(db, key.org) - {key};
    if others == {} {
      SubsetSize(AdminsOf(db, key.org), {key});
    }
    var k := Pick(others);
    assert k in db.members;
  }

  // Admins other than the target survive its removal, and joins remove nobody.
  lemma CommitKeepsAdmin(s: State, pid: nat)
    requires Inv(s) && pid in s.procs && s.procs[pid].pc.Purging?
    requires Governed(s, s.procs[pid].call.Target().org)
    ensures HasAdmin(RunNext(s, pid).db, s.procs[pid].call.Target().org)
  {
    var key := s.procs[pid].call.Target();
    var k :| k in s.db.members && k != key && k.org == key.org && s.db.members[k] == Admin;
    assert k in RunNext(s, pid).db.members;
  }

  lemma RecountFindsAnother(s: State, pid: nat)
    requires pid in s.procs && s.procs[pid].pc.Locked? && RunNext(s, pid).procs[pid].pc.Purging?
    requires HasAdmin(s.db, s.procs[pid].call.Target().org)
    ensures OtherAdmin(s.db, s.procs[pid].call.Target())
  {
    var key := s.procs[pid].call.Target();
    if key in s.db.members && s.db.members[key] == Admin {
      TwoAdmins(s.db, key);
    } else {
      var k :| k in s.db.members && k.org == key.org && s.db.members[k] == Admin;
      assert k != key;
    }
  }

  lemma StepKeepsGoverned(s: State, e: Event, org: string)
    requires Inv(s) && Governed(s, org)
    ensures Governed(Next(s, e), org)
  {
    var s' := Next(s, e);
    if e.Run? && e.pid in s.procs {
      RunKeepsGoverned(s, e.pid, org);
    } else {
      var k :| k in s.db.members && k.org == org && s.db.members[k] == Admin;
      assert k in s'.db.members;
      forall q | q in s'.procs && s'.procs[q].pc.Purging? && s'.procs[q].call.Target().org == org
        ensures OtherAdmin(s'.db, s'.procs[q].call.Target())
      {
        assert OtherAdmin(s.db, s.procs[q].call.Target());
      }
    }
  }

  lemma RunKeepsAdmin(s: State, pid: nat, org: string)
    requires Inv(s) && Governed(s, org) && pid in s.procs
    ensures HasAdmin(RunNext(s, pid).db, org)
  {
    var s', key := RunNext(s, pid), s.procs[pid].call.Target();
    assert ProcessInv(s, pid);
    if key.org == org && s.procs[pid].pc.Purging? {
      CommitKeepsAdmin(s, pid);
    } else {
      var k :| k in s.db.members && k.org == org && s.db.members[k] == Admin;
      assert k in s'.db.members;
    }
  }

  lemma RunKeepsGoverned(s: State, pid: nat, org: string)
    requires Inv(s) && Governed(s, org) && pid in s.procs
    ensures Governed(RunNext(s, pid), org)
  {
    var s', key := RunNext(s, pid), s.procs[pid].call.Target();
    assert ProcessInv(s, pid);
    RunFrame(s, pid);
    RunKeepsAdmin(s, pid, org);
    forall q | q in s'.procs && s'.procs[q].pc.Purging? && s'.procs[q].call.Target().org == org
      ensures OtherAdmin(s'.db, s'.procs[q].call.Target())
    {
      if s.procs[q].pc.Purging? {
        var k :| k in s.db.members && k != s.procs[q].call.Target() && k.org == org && s.db.members[k] == Admin;
        assert ProcessInv(s, q);
        assert k in s'.db.members;
      } else {
        RecountFindsAnother(s, q);
      }
    }
  }

  // ---------------------------------------------------------------- theorems

  lemma {:induction false} RunsKeepInv(s: State, events: seq<Event>)
    requires Quiet(s)
    ensures Inv(Exec(s, events)) && Exec(s, events).owners == s.owners
  {
    if events != [] {
      RunsKeepInv(s, events[..|events| - 1]);
      StepKeepsInv(Exec(s, events[..|events| - 1]), events[|events| - 1]);
    }
  }

  /** Last-admin safety: an org that starts with an admin has one in every committed state. */
  lemma {:induction false} AlwaysAnAdmin(s: State, events: seq<Event>, org: string)
    requires Quiet(s) && HasAdmin(s.db, org)
    ensures Governed(Exec(s, events), org)
  {
    if events != [] {
      AlwaysAnAdmin(s, events[..|events| - 1], org);
      RunsKeepInv(s, events[..|events| - 1]);
      StepKeepsGoverned(Exec(s, events[..|events| - 1]), events[|events| - 1], org);
    }
  }

  // A membership is removed by one kind of step only: the commit of a call on that membership,
  // which is not the bootstrap owner's and appends its audit row.
  lemma StepRemoves(s: State, e: Event, key: Key)
    requires Inv(s) && key in s.db.members
    ensures key in Next(s, e).db.members ==> Next(s, e).db.members[key] == s.db.members[key]
    ensures s.db.audit <= Next(s, e).db.audit
    ensures key !in Next(s, e).db.members ==>
              && e.Run? && e.pid in s.procs && s.procs[e.pid].call.Target() == key
              && !(key.org in s.owners && s.owners[key.org] == key.user)
              && Next(s, e).db.audit == s.db.audit + [s.procs[e.pid].call.AuditRow()]
  {
    if e.Run? && e.pid in s.procs {
      assert ProcessInv(s, e.pid);
    }
  }

  /** The bootstrap owner of an org is never removed from it, and keeps the same role. */
  lemma {:induction false} OwnerStays(s: State, events: seq<Event>, org: string)
    requires Quiet(s) && org in s.owners && Key(org, s.owners[org]) in s.db.members
    ensures var key := Key(org, s.owners[org]);
            key in Exec(s, events).db.members && Exec(s, events).db.members[key] == s.db.members[key]
  {
    if events != [] {
      OwnerStays(s, events[..|events| - 1], org);
      RunsKeepInv(s, events[..|events| - 1]);
      StepRemoves(Exec(s, events[..|events| - 1]), events[|events| - 1], Key(org, s.owners[org]));
    }
  }

  ghost predicate AuditedSince(db: Db, from: nat, key: Key) {
    exists i :: from <= i < |db.audit| && db.audit[i].target == key
  }

  /** A membership that disappeared during a run has an audit row written during that run. */
  lemma {:induction false} RemovedImpliesAudited(s: State, events: seq<Event>, key: Key)
    requires Quiet(s) && key in s.db.members
    ensures s.db.audit <= Exec(s, events).db.audit
    ensures key !in Exec(s, events).db.members ==> AuditedSince(Exec(s, events).db, |s.db.audit|, key)
  {
    if events != [] {
      var front, e := events[..|events| - 1], events[|events| - 1];
      var before := Exec(s, front);
      RemovedImpliesAudited(s, front, key);
      RunsKeepInv(s, front);
      AuditGrows(before, e);
      if key in before.db.members {
        StepRemoves(before, e, key);
        if key !in Next(before, e).db.members {
          assert Next(before, e).db.audit[|before.db.audit|].target == key;
        }
      } else {
        var i :| |s.db.audit| <= i < |before.db.audit| && before.db.audit[i].target == key;
        assert Next(before, e).db.audit[i].target == key;
      }
    }
  }

  lemma AuditGrows(s: State, e: Event)
    ensures s.db.audit <= Next(s, e).db.audit
  {
  }

  // A leave is recorded as the user's own act, a removal as another user's.
  ghost predicate WritesUp(call: Call, key: Key, a: Audit) {
    && a.target == key
    && (call.Leave? ==> a.action == MemberLeave && a.actor == key.user)
    && (call.Remove? ==> a.action == MemberRemove && a.actor == call.actorUserId && a.actor != key.user)
  }

  /**
   The effect of a commit: the membership is gone if the delete statement found it, exactly the
   dependent rows the four statements found are gone, all of them rows of this (org, user), and one
   audit row is appended. What is left of this (org, user) in the four tables was inserted after
   the transaction took its lock.
   */
  lemma CommitEffect(s: State, pid: nat)
    requires Inv(s) && pid in s.procs && s.procs[pid].pc.Purging? && s.procs[pid].pc.stage == 6
    ensures var pc, key, db' := s.procs[pid].pc, s.procs[pid].call.Target(), RunNext(s, pid).db;
            && db'.members == (if pc.dropped then s.db.members - {key} else s.db.members)
            && db'.rows == s.db.rows - pc.deleted
            && db'.audit[..|s.db.audit|] == s.db.audit && |db'.audit| == |s.db.audit| + 1
            && WritesUp(s.procs[pid].call, key, db'.audit[|s.db.audit|])
            && (forall r | r in s.db.rows - db'.rows :: r.key == key)
            && (forall r | r in db'.rows && r.key == key :: r in s.inserted[pc.mark..])
  {
    assert ProcessInv(s, pid);
    var pc, key, db' := s.procs[pid].pc, s.procs[pid].call.Target(), RunNext(s, pid).db;
    forall r | r in db'.rows && r.key == key ensures r in s.inserted[pc.mark..] {
      var i := if r.table == TABLES[0] then 0 else if r.table == TABLES[1] then 1 else if r.table == TABLES[2] then 2 else 3;
      assert Cleared(s, TABLES[i], key, pc.deleted, pc.mark);
      assert r in RowsOf(s.db, TABLES[i], key);
    }
  }

  /** Nothing but a commit or another request's insert changes the committed dependent rows. */
  lemma OnlyCommitsDelete(s: State, e: Event, r: Row)
    requires Inv(s) && r in s.db.rows && r !in Next(s, e).db.rows
    ensures e.Run? && e.pid in s.procs && s.procs[e.pid].call.Target() == r.key
    ensures s.procs[e.pid].pc.Purging? && s.procs[e.pid].pc.stage == 6
  {
    assert ProcessInv(s, e.pid);
  }

  /** Two transactions on the same org never overlap. */
  lemma {:induction false} OneTransactionPerOrg(s: State, events: seq<Event>, p: nat, q: nat)
    requires Quiet(s) && p in Exec(s, events).procs && q in Exec(s, events).procs
    requires InTransaction(Exec(s, events).procs[p].pc) && InTransaction(Exec(s, events).procs[q].pc)
    requires Exec(s, events).procs[p].call.Target().org == Exec(s, events).procs[q].call.Target().org
    ensures p == q
  {
    RunsKeepInv(s, events);
    assert ProcessInv(Exec(s, events), p) && ProcessInv(Exec(s, events), q);
  }

  ghost predicate OwnsOrg(s: State, key: Key) {
    key.org in s.owners && s.owners[key.org] == key.user
  }

  /**
   The first statement of a call: a removal of oneself is refused as such, a target that is no member as not a
   member, and nothing else is refused. No table changes.
   */
  lemma FirstStatement(s: State, pid: nat)
    requires pid in s.procs && s.procs[pid].pc.Start?
    ensures var call, pc' := s.procs[pid].call, RunNext(s, pid).procs[pid].pc;
            var self := call.Remove? && call.targetUserId == call.actorUserId;
            var key := if call.Leave? then Key(call.orgId, call.userId) else Key(call.orgId, call.targetUserId);
            && (pc' == Finished(SelfTarget) <==> self)
            && (pc' == Finished(NotMember) <==> !self && key !in s.db.members)
            && (pc' == SawMember <==> !self && key in s.db.members)
    ensures RunNext(s, pid).db == s.db && RunNext(s, pid).locks == s.locks
  {
  }

  /** The second statement refuses the bootstrap owner and nobody else, each kind of call in its own words. */
  lemma SecondStatement(s: State, pid: nat)
    requires pid in s.procs && s.procs[pid].pc.SawMember?
    ensures var call, pc' := s.procs[pid].call, RunNext(s, pid).procs[pid].pc;
            var key := if call.Leave? then Key(call.orgId, call.userId) else Key(call.orgId, call.targetUserId);
            && (pc' == Finished(PersonalOrg) <==> call.Leave? && OwnsOrg(s, key))
            && (pc' == Finished(Owner) <==> call.Remove? && OwnsOrg(s, key))
            && (pc' == WantLock <==> !OwnsOrg(s, key))
    ensures RunNext(s, pid).db == s.db && RunNext(s, pid).locks == s.locks
  {
  }

  /** The four delete statements, in this order, find the committed rows of the target in their own table. */
  lemma DeleteStatement(s: State, pid: nat)
    requires pid in s.procs && s.procs[pid].pc.Purging? && s.procs[pid].pc.stage < 4
    ensures var pc, pc', key := s.procs[pid].pc, RunNext(s, pid).procs[pid].pc, s.procs[pid].call.Target();
            var table := if pc.stage == 0 then TeamManagers else if pc.stage == 1 then ManagerNotes
                         else if pc.stage == 2 then DigestPreferences else BenchmarkConsent;
            && pc' == pc.(stage := pc.stage + 1, deleted := pc'.deleted)
            && (forall r :: r in pc'.deleted <==> r in pc.deleted || (r in s.db.rows && r.key == key && r.table == table))
    ensures RunNext(s, pid).db == s.db
  {
  }

  /** A call begins in its own name and changes nothing else; an abort undoes a transaction and frees its lock. */
  lemma BeginAndAbort(s: State, pid: nat, call: Call)
    ensures Next(s, Begin(pid, call)) == if pid in s.procs then s else s.(procs := s.procs[pid := Process(call, Start)])
    ensures pid in s.procs && InTransaction(s.procs[pid].pc) ==>
              && Next(s, Abort(pid)).db == s.db && Next(s, Abort(pid)).procs[pid].pc == Pc.Finished(Failed)
              && s.procs[pid].call.Target().org !in Next(s, Abort(pid)).locks
    ensures !(pid in s.procs && InTransaction(s.procs[pid].pc)) ==> Next(s, Abort(pid)) == s
  {
  }

  /** Under the lock a removal is refused exactly when its target is the only admin of the org. */
  lemma RefusedExactlyWhenSoleAdmin(s: State, pid: nat)
    requires pid in s.procs && s.procs[pid].pc.Locked?
    ensures var key := s.procs[pid].call.Target();
            RunNext(s, pid).procs[pid].pc == Finished(LastAdmin) <==> AdminsOf(s.db, key.org) == {key}
  {
    var key := s.procs[pid].call.Target();
    var admins := AdminsOf(s.db, key.org);
    if key in admins && |admins| <= 1 {
      if admins - {key} != {} {
        var k := Pick(admins - {key});
        SubsetSize({k, key}, admins);
      }
      assert admins == {key};
    }
    if admins == {key} {
      assert key in admins;
      assert |admins| == 1;
    }
  }
}
