/**
 Audit rows and removals of memberships (src/db/membership.ts). Every removal has its audit row. The
 converse holds for a transaction exactly when its delete statement finds the membership.
 */
module MembershipAudit {
  import opened Membership

  // How often a membership disappears in a run, and how many audit rows name it.
  function Removals(s: State, events: seq<Event>, key: Key): nat {
    if events == [] then 0
    else
      var before := Exec(s, events[..|events|-1]);
      var after := Next(before, events[|events|-1]);
      Removals(s, events[..|events|-1], key) + if key in before.db.members && key !in after.db.members then 1 else 0
  }

  function AuditRows(audit: seq<Audit>, key: Key): nat {
    if audit == [] then 0
    else AuditRows(audit[..|audit|-1], key) + if audit[|audit|-1].target == key then 1 else 0
  }

  lemma AuditAppends(audit: seq<Audit>, a: Audit, key: Key)
    ensures AuditRows(audit + [a], key) == AuditRows(audit, key) + if a.target == key then 1 else 0
  {
    assert (audit + [a])[..|audit|] == audit;
  }

  // A step writes at most one audit row, and the commit that removes a membership writes one about it.
  lemma StepIsAudited(s: State, e: Event, key: Key)
    requires Inv(s)
    ensures AuditRows(Next(s, e).db.audit, key) >=
            AuditRows(s.db.audit, key) + if key in s.db.members && key !in Next(s, e).db.members then 1 else 0
  {
    if e.Run? && e.pid in s.procs {
      assert ProcessInv(s, e.pid);
      AuditAppends(s.db.audit, s.procs[e.pid].call.AuditRow(), key);
    }
  }

  /** In every run at least as many audit rows about a membership are written as it is removed. */
  lemma {:induction false} RemovalsAreAudited(s: State, events: seq<Event>, key: Key)
    requires Quiet(s)
    ensures AuditRows(Exec(s, events).db.audit, key) >= AuditRows(s.db.audit, key) + Removals(s, events, key)
  {
    if events != [] {
      RemovalsAreAudited(s, events[..|events|-1], key);
      RunsKeepInv(s, events[..|events|-1]);
      StepIsAudited(Exec(s, events[..|events|-1]), events[|events|-1], key);
    }
  }

  // ---------- One audit row for each call that succeeds ----------

  // The calls on a membership that have answered ok.
  function Succeeded(s: State, key: Key): set<nat> {
    set pid | pid in s.procs && s.procs[pid].call.Target() == key && s.procs[pid].pc == Pc.Finished(Ok)
  }

  predicate AnswersOk(s: State, pid: nat)
    requires pid in s.procs
  {
    s.procs[pid].pc == Pc.Finished(Ok)
  }

  // A statement writes an audit row exactly when it makes its call answer ok.
  lemma RunWritesOnSuccess(s: State, pid: nat)
    requires Inv(s) && pid in s.procs
    ensures var s' := RunNext(s, pid);
            && pid in s'.procs
            && (AnswersOk(s, pid) ==> AnswersOk(s', pid))
            && s'.db.audit == s.db.audit + if AnswersOk(s', pid) && !AnswersOk(s, pid) then [s.procs[pid].call.AuditRow()] else []
  {
    assert ProcessInv(s, pid);
  }

  lemma OneMoreSuccess(s: State, s': State, pid: nat, key: Key)
    requires pid in s.procs && s'.procs.Keys == s.procs.Keys && s'.procs[pid].call == s.procs[pid].call
    requires forall q | q in s.procs && q != pid :: s'.procs[q] == s.procs[q]
    requires AnswersOk(s, pid) ==> AnswersOk(s', pid)
    ensures Succeeded(s', key) == Succeeded(s, key) +
                                  if AnswersOk(s', pid) && s.procs[pid].call.Target() == key then {pid} else {}
  {
  }

  lemma RunCountsSuccess(s: State, pid: nat, key: Key)
    requires Inv(s) && pid in s.procs
    ensures AuditRows(RunNext(s, pid).db.audit, key) - AuditRows(s.db.audit, key)
         == |Succeeded(RunNext(s, pid), key)| - |Succeeded(s, key)|
  {
    var s', a := RunNext(s, pid), s.procs[pid].call.AuditRow();
    assert ProcessInv(s, pid);
    RunFrame(s, pid);
    RunWritesOnSuccess(s, pid);
    OneMoreSuccess(s, s', pid, key);
    AuditAppends(s.db.audit, a, key);
    assert s.db.audit + [] == s.db.audit;
    assert pid in Succeeded(s, key) <==> AnswersOk(s, pid) && s.procs[pid].call.Target() == key;
  }

  lemma StepCountsSuccess(s: State, e: Event, key: Key)
    requires Inv(s)
    ensures AuditRows(Next(s, e).db.audit, key) - AuditRows(s.db.audit, key)
         == |Succeeded(Next(s, e), key)| - |Succeeded(s, key)|
  {
    if e.Run? && e.pid in s.procs {
      RunCountsSuccess(s, e.pid, key);
    } else {
      assert Succeeded(Next(s, e), key) == Succeeded(s, key);
    }
  }

  /**
   In every run as many audit rows about a membership are written as calls on it answer ok: a refused or
   failed call writes none.
   */
  lemma {:induction false} OneAuditRowPerSuccess(s: State, events: seq<Event>, key: Key)
    requires Quiet(s)
    ensures AuditRows(Exec(s, events).db.audit, key) == AuditRows(s.db.audit, key) + |Succeeded(Exec(s, events), key)|
  {
    if events == [] {
      assert Succeeded(s, key) == {};
    } else {
      OneAuditRowPerSuccess(s, events[..|events|-1], key);
      RunsKeepInv(s, events[..|events|-1]);
      StepCountsSuccess(Exec(s, events[..|events|-1]), events[|events|-1], key);
    }
  }

  // Every call on a key that is no member has not begun or is refused.
  ghost predicate OnlyRefusals(s: State, key: Key) {
    && key !in s.db.members
    && forall pid | pid in s.procs && s.procs[pid].call.Target() == key ::
         s.procs[pid].pc in {Start, Pc.Finished(NotMember), Pc.Finished(SelfTarget)}
  }

  lemma RunKeepsRefusals(s: State, pid: nat, key: Key)
    requires OnlyRefusals(s, key) && Inv(s) && pid in s.procs
    ensures OnlyRefusals(RunNext(s, pid), key)
  {
    var s' := RunNext(s, pid);
    assert ProcessInv(s, pid);
    RunFrame(s, pid);
    assert key !in s'.db.members;
    forall q | q in s'.procs && s'.procs[q].call.Target() == key
      ensures s'.procs[q].pc in {Start, Pc.Finished(NotMember), Pc.Finished(SelfTarget)}
    {
      assert s.procs[q].pc in {Start, Pc.Finished(NotMember), Pc.Finished(SelfTarget)};
    }
  }

  lemma StepKeepsRefusals(s: State, e: Event, key: Key)
    requires OnlyRefusals(s, key) && Inv(s) && !(e.Join? && e.key == key)
    ensures OnlyRefusals(Next(s, e), key)
  {
    if e.Run? && e.pid in s.procs {
      RunKeepsRefusals(s, e.pid, key);
    }
  }

  lemma {:induction false} RunsKeepRefusals(s: State, events: seq<Event>, key: Key)
    requires Quiet(s) && key !in s.db.members
    requires forall e | e in events && e.Join? :: e.key != key
    ensures OnlyRefusals(Exec(s, events), key)
  {
    if events != [] {
      var front, e := events[..|events|-1], events[|events|-1];
      assert e in events && forall f | f in front :: f in events;
      RunsKeepRefusals(s, front, key);
      RunsKeepInv(s, front);
      StepKeepsRefusals(Exec(s, front), e, key);
    }
  }

  /**
   Where the target is no member and nobody adds it, no call on it ever answers ok and no audit row about it
   is ever written: a repeated removal, or one aimed at another org's member, changes nothing.
   */
  lemma StrangersAreRefused(s: State, events: seq<Event>, key: Key)
    requires Quiet(s) && key !in s.db.members
    requires forall e | e in events && e.Join? :: e.key != key
    ensures AuditRows(Exec(s, events).db.audit, key) == AuditRows(s.db.audit, key)
    ensures forall pid | pid in Exec(s, events).procs && Exec(s, events).procs[pid].call.Target() == key ::
              Exec(s, events).procs[pid].pc in {Start, Pc.Finished(NotMember), Pc.Finished(SelfTarget)}
  {
    RunsKeepRefusals(s, events, key);
    OneAuditRowPerSuccess(s, events, key);
    assert Succeeded(Exec(s, events), key) == {};
  }

  lemma ExecAppends(s: State, events: seq<Event>, e: Event)
    ensures Exec(s, events + [e]) == Next(Exec(s, events), e)
  {
    assert (events + [e])[..|events|] == events;
  }

  lemma {:induction false} ExecConcat(s: State, a: seq<Event>, b: seq<Event>)
    ensures Exec(s, a + b) == Exec(Exec(s, a), b)
  {
    if b == [] {
      assert a + b == a;
    } else {
      ExecConcat(s, a, b[..|b|-1]);
      assert (a + b)[..|a + b|-1] == a + b[..|b|-1];
    }
  }

  // ---------- While a transaction holds the lock ----------

  ghost predicate Finished(s: State, pid: nat) {
    pid in s.procs && s.procs[pid].pc.Finished?
  }

  // Nobody else can remove the target of a transaction.
  lemma OthersKeepTarget(s: State, e: Event, pid: nat)
    requires Inv(s) && pid in s.procs && InTransaction(s.procs[pid].pc) && !(e.Run? && e.pid == pid)
    ensures s.procs[pid].call.Target() in s.db.members ==> s.procs[pid].call.Target() in Next(s, e).db.members
    ensures pid in Next(s, e).procs && Next(s, e).procs[pid].call == s.procs[pid].call
    ensures Finished(Next(s, e), pid) || Next(s, e).procs[pid] == s.procs[pid]
  {
    assert ProcessInv(s, pid);
    if e.Run? && e.pid in s.procs {
      assert ProcessInv(s, e.pid);
    }
  }

  // The transaction is past the delete statement, which found the target or not.
  ghost predicate Deleted(s: State, pid: nat, call: Call, found: bool) {
    && pid in s.procs && s.procs[pid].call == call
    && s.procs[pid].pc.Purging? && 5 <= s.procs[pid].pc.stage <= 6
    && s.procs[pid].pc.dropped == found
    && (found ==> call.Target() in s.db.members)
  }

  lemma StepAfterDelete(s: State, e: Event, pid: nat, call: Call, found: bool)
    requires Inv(s) && Deleted(s, pid, call, found)
    ensures Finished(Next(s, e), pid) || Deleted(Next(s, e), pid, call, found)
  {
    assert ProcessInv(s, pid);
    if !(e.Run? && e.pid == pid) {
      OthersKeepTarget(s, e, pid);
    }
  }

  lemma FinishedStays(s: State, e: Event, pid: nat)
    requires Finished(s, pid)
    ensures Finished(Next(s, e), pid)
  {
  }

  lemma {:induction false} AfterDelete(s: State, events: seq<Event>, pid: nat, call: Call, found: bool)
    requires Inv(s) && (Finished(s, pid) || Deleted(s, pid, call, found))
    ensures Inv(Exec(s, events))
    ensures Finished(Exec(s, events), pid) || Deleted(Exec(s, events), pid, call, found)
  {
    if events != [] {
      var before, e := Exec(s, events[..|events|-1]), events[|events|-1];
      AfterDelete(s, events[..|events|-1], pid, call, found);
      StepKeepsInv(before, e);
      if Finished(before, pid) {
        FinishedStays(before, e, pid);
      } else {
        StepAfterDelete(before, e, pid, call, found);
      }
    }
  }

  /**
   The audit row of a commit stands for a removal exactly when the target was a member at the delete
   statement: a is the run up to that statement and b what happens between it and the commit.
   */
  lemma AuditStandsForRemovalExactly(s: State, a: seq<Event>, b: seq<Event>, pid: nat)
    requires Quiet(s) && pid in Exec(s, a).procs
    requires Exec(s, a).procs[pid].pc.Purging? && Exec(s, a).procs[pid].pc.stage == 4
    requires var t := Exec(s, a + [Run(pid)] + b);
             pid in t.procs && t.procs[pid].pc.Purging? && t.procs[pid].pc.stage == 6
    ensures var key, t := Exec(s, a).procs[pid].call.Target(), Exec(s, a + [Run(pid)] + b);
            && RunNext(t, pid).db.audit == t.db.audit + [Exec(s, a).procs[pid].call.AuditRow()]
            && ((key in t.db.members && key !in RunNext(t, pid).db.members) <==> key in Exec(s, a).db.members)
  {
    var before := Exec(s, a);
    var call := before.procs[pid].call;
    var found := call.Target() in before.db.members;
    RunsKeepInv(s, a);
    StepKeepsInv(before, Run(pid));
    ExecAppends(s, a, Run(pid));
    assert Deleted(Next(before, Run(pid)), pid, call, found);
    AfterDelete(Next(before, Run(pid)), b, pid, call, found);
    ExecConcat(s, a + [Run(pid)], b);
    assert ProcessInv(Exec(s, a + [Run(pid)] + b), pid);
  }

  // The transaction has the target as a member, and past the delete statement it has deleted it.
  ghost predicate Holds(s: State, pid: nat, call: Call) {
    && pid in s.procs && s.procs[pid].call == call && call.Target() in s.db.members
    && (s.procs[pid].pc.Locked? || (s.procs[pid].pc.Purging? && (s.procs[pid].pc.stage <= 4 || s.procs[pid].pc.dropped)))
  }

  lemma StepHolds(s: State, e: Event, pid: nat, call: Call)
    requires Inv(s) && Holds(s, pid, call)
    ensures Finished(Next(s, e), pid) || Holds(Next(s, e), pid, call)
  {
    assert ProcessInv(s, pid);
    if !(e.Run? && e.pid == pid) {
      OthersKeepTarget(s, e, pid);
    }
  }

  lemma {:induction false} RunHolds(s: State, events: seq<Event>, pid: nat, call: Call)
    requires Inv(s) && Holds(s, pid, call)
    ensures Inv(Exec(s, events))
    ensures Finished(Exec(s, events), pid) || Holds(Exec(s, events), pid, call)
  {
    if events != [] {
      var before, e := Exec(s, events[..|events|-1]), events[|events|-1];
      RunHolds(s, events[..|events|-1], pid, call);
      StepKeepsInv(before, e);
      if Finished(before, pid) {
        FinishedStays(before, e, pid);
      } else {
        StepHolds(before, e, pid, call);
      }
    }
  }

  /** A transaction whose re-read under the lock finds its target removes it when it commits. */
  lemma FoundUnderLockIsRemoved(s: State, a: seq<Event>, b: seq<Event>, pid: nat)
    requires Quiet(s) && pid in Exec(s, a).procs && Exec(s, a).procs[pid].pc.Locked?
    requires Exec(s, a).procs[pid].call.Target() in Exec(s, a).db.members
    requires var t := Exec(s, a + b); pid in t.procs && t.procs[pid].pc.Purging? && t.procs[pid].pc.stage == 6
    ensures var key, t := Exec(s, a).procs[pid].call.Target(), Exec(s, a + b);
            && key in t.db.members && key !in RunNext(t, pid).db.members
            && RunNext(t, pid).db.audit == t.db.audit + [Exec(s, a).procs[pid].call.AuditRow()]
  {
    RunsKeepInv(s, a);
    RunHolds(Exec(s, a), b, pid, Exec(s, a).procs[pid].call);
    ExecConcat(s, a, b);
    assert ProcessInv(Exec(s, a + b), pid);
  }

  // ---------- An audit row without a removal ----------

  function Repeat(e: Event, n: nat): (events: seq<Event>)
    ensures |events| == n
  {
    if n == 0 then [] else Repeat(e, n - 1) + [e]
  }

  // What is left after a transaction that ran without interruption.
  function Purged(s: State, pid: nat): State
    requires pid in s.procs
  {
    var call := s.procs[pid].call;
    s.(db := Db(s.db.members - {call.Target()}, s.db.rows - DependentRows(s.db, call.Target()),
                s.db.audit + [call.AuditRow()]),
    procs := s.procs[pid := Process(call, Pc.Finished(Ok))])
  }

  function DependentRows(db: Db, key: Key): set<Row> {
    RowsOf(db, TeamManagers, key) + RowsOf(db, ManagerNotes, key) + RowsOf(db, DigestPreferences, key)
    + RowsOf(db, BenchmarkConsent, key)
  }

  // The state of a transaction that runs alone, at a stage of its purge.
  ghost predicate At(s: State, t: State, pid: nat, stage: nat, deleted: set<Row>, dropped: bool, audited: seq<Audit>)
    requires pid in s.procs
  {
    t == s.(locks := s.locks[s.procs[pid].call.Target().org := pid],
    procs := s.procs[pid := Process(s.procs[pid].call, Purging(|s.inserted|, stage, deleted, dropped, audited))])
  }

  /** A transaction that runs alone and is not refused clears everything of its target and writes one audit row. */
  lemma RunsAlone(s: State, pid: nat)
    requires pid in s.procs && s.procs[pid].pc.WantLock? && s.procs[pid].call.Target().org !in s.locks
    requires AdminsOf(s.db, s.procs[pid].call.Target().org) != {s.procs[pid].call.Target()}
    ensures Exec(s, Repeat(Run(pid), 9)) == Purged(s, pid)
  {
    var two := Next(Next(s, Run(pid)), Run(pid));
    RecountPasses(s, pid);
    FourDeletes(s, two, pid);
    var six := Exec(two, Repeat(Run(pid), 4));
    var eight := Next(Next(six, Run(pid)), Run(pid));
    DeleteAndAudit(s, six, pid);
    CommitAlone(s, eight, pid);
    NineRuns(s, pid);
  }

  lemma DeleteAndAudit(s: State, t: State, pid: nat)
    requires pid in s.procs && At(s, t, pid, 4, DependentRows(s.db, s.procs[pid].call.Target()), false, [])
    ensures At(s, Next(Next(t, Run(pid)), Run(pid)), pid, 6, DependentRows(s.db, s.procs[pid].call.Target()),
               s.procs[pid].call.Target() in s.db.members, [s.procs[pid].call.AuditRow()])
  {
    var key, one := s.procs[pid].call.Target(), Next(t, Run(pid));
    var deleted := DependentRows(s.db, key);
    assert t.procs[pid].pc == Purging(|s.inserted|, 4, deleted, false, []);
    assert one.procs == s.procs[pid := Process(s.procs[pid].call, Purging(|s.inserted|, 5, deleted, key in s.db.members, []))];
    assert At(s, one, pid, 5, deleted, key in s.db.members, []);
    AuditRowAlone(s, one, pid);
  }

  lemma AuditRowAlone(s: State, t: State, pid: nat)
    requires pid in s.procs
    requires At(s, t, pid, 5, DependentRows(s.db, s.procs[pid].call.Target()), s.procs[pid].call.Target() in s.db.members, [])
    ensures At(s, Next(t, Run(pid)), pid, 6, DependentRows(s.db, s.procs[pid].call.Target()),
               s.procs[pid].call.Target() in s.db.members, [s.procs[pid].call.AuditRow()])
  {
    var call, u := s.procs[pid].call, Next(t, Run(pid));
    var empty: seq<Audit> := [];
    assert empty + [call.AuditRow()] == [call.AuditRow()];
    assert u.procs == s.procs[pid := Process(call, Purging(|s.inserted|, 6, DependentRows(s.db, call.Target()),
                                                           call.Target() in s.db.members, [call.AuditRow()]))];
  }

  lemma RecountPasses(s: State, pid: nat)
    requires pid in s.procs && s.procs[pid].pc.WantLock? && s.procs[pid].call.Target().org !in s.locks
    requires AdminsOf(s.db, s.procs[pid].call.Target().org) != {s.procs[pid].call.Target()}
    ensures At(s, Next(Next(s, Run(pid)), Run(pid)), pid, 0, {}, false, [])
  {
    var one := Next(s, Run(pid));
    RefusedExactlyWhenSoleAdmin(one, pid);
  }

  lemma FourDeletes(s: State, t: State, pid: nat)
    requires pid in s.procs && At(s, t, pid, 0, {}, false, [])
    ensures At(s, Exec(t, Repeat(Run(pid), 4)), pid, 4, DependentRows(s.db, s.procs[pid].call.Target()), false, [])
  {
    var key := s.procs[pid].call.Target();
    var r0 := RowsOf(s.db, TeamManagers, key);
    var r1 := r0 + RowsOf(s.db, ManagerNotes, key);
    var r2 := r1 + RowsOf(s.db, DigestPreferences, key);
    var one := Next(t, Run(pid));
    var two := Next(one, Run(pid));
    var three := Next(two, Run(pid));
    var four := Next(three, Run(pid));
    assert At(s, one, pid, 1, r0, false, []) by {
      assert {} + r0 == r0;
    }
    assert At(s, two, pid, 2, r1, false, []);
    assert At(s, three, pid, 3, r2, false, []);
    assert At(s, four, pid, 4, r2 + RowsOf(s.db, BenchmarkConsent, key), false, []);
    FourRuns(t, pid);
  }

  lemma FourRuns(t: State, pid: nat)
    ensures Exec(t, Repeat(Run(pid), 4)) == Next(Next(Next(Next(t, Run(pid)), Run(pid)), Run(pid)), Run(pid))
  {
    ExecAppends(t, Repeat(Run(pid), 0), Run(pid));
    ExecAppends(t, Repeat(Run(pid), 1), Run(pid));
    ExecAppends(t, Repeat(Run(pid), 2), Run(pid));
    ExecAppends(t, Repeat(Run(pid), 3), Run(pid));
  }

  lemma NineRuns(s: State, pid: nat)
    ensures var six := Exec(Next(Next(s, Run(pid)), Run(pid)), Repeat(Run(pid), 4));
            Exec(s, Repeat(Run(pid), 9)) == Next(Next(Next(six, Run(pid)), Run(pid)), Run(pid))
  {
    var e := Run(pid);
    var two := Next(Next(s, e), e);
    assert Repeat(e, 2) + Repeat(e, 4) == Repeat(e, 6) by {
      assert Repeat(e, 2) == [e, e] && Repeat(e, 4) == [e, e, e, e];
    }
    ExecAppends(s, Repeat(e, 0), e);
    ExecAppends(s, Repeat(e, 1), e);
    ExecConcat(s, Repeat(e, 2), Repeat(e, 4));
    ExecAppends(s, Repeat(e, 6), e);
    ExecAppends(s, Repeat(e, 7), e);
    ExecAppends(s, Repeat(e, 8), e);
  }

  lemma CommitAlone(s: State, t: State, pid: nat)
    requires pid in s.procs && s.procs[pid].call.Target().org !in s.locks
    requires At(s, t, pid, 6, DependentRows(s.db, s.procs[pid].call.Target()),
                s.procs[pid].call.Target() in s.db.members, [s.procs[pid].call.AuditRow()])
    ensures Next(t, Run(pid)) == Purged(s, pid)
  {
    var key, u := s.procs[pid].call.Target(), Next(t, Run(pid));
    assert u.locks == s.locks;
    assert u.db.members == s.db.members - {key};
    assert u.procs == Purged(s, pid).procs;
  }

  // Two calls against one member of an org with another admin, both past their checks before either locks.
  function Rivals(): State {
    State(Db(map[Key("acme", "ann") := Admin, Key("acme", "bob") := Member], {}, []), map[], map[], map[], [])
  }

  function RivalStart(): seq<Event> {
    [Begin(0, Remove("acme", "bob", "ann")), Begin(1, Leave("bob", "acme")), Run(0), Run(1), Run(0), Run(1)]
  }

  lemma RivalsWait() returns (s: State)
    ensures s == Exec(Rivals(), RivalStart())
    ensures s.db == Rivals().db && s.locks == map[] && s.inserted == []
    ensures s.procs == map[0 := Process(Remove("acme", "bob", "ann"), WantLock), 1 := Process(Leave("bob", "acme"), WantLock)]
  {
    var start, e := Rivals(), RivalStart();
    var s1 := Next(start, e[0]);
    var s2 := Next(s1, e[1]);
    var s3 := Next(s2, e[2]);
    var s4 := Next(s3, e[3]);
    var s5 := Next(s4, e[4]);
    s := Next(s5, e[5]);
    assert e == [] + [e[0]] + [e[1]] + [e[2]] + [e[3]] + [e[4]] + [e[5]];
    ExecAppends(start, [], e[0]);
    ExecAppends(start, [] + [e[0]], e[1]);
    ExecAppends(start, [] + [e[0]] + [e[1]], e[2]);
    ExecAppends(start, [] + [e[0]] + [e[1]] + [e[2]], e[3]);
    ExecAppends(start, [] + [e[0]] + [e[1]] + [e[2]] + [e[3]], e[4]);
    ExecAppends(start, [] + [e[0]] + [e[1]] + [e[2]] + [e[3]] + [e[4]], e[5]);
  }

  lemma AdminRemains(db: Db, key: Key)
    requires Key(key.org, "ann") in db.members && db.members[Key(key.org, "ann")] == Admin && key.user != "ann"
    ensures AdminsOf(db, key.org) != {key}
  {
    assert Key(key.org, "ann") in AdminsOf(db, key.org);
  }

  lemma {:induction false} RepeatIsOf(e: Event, n: nat)
    ensures forall f | f in Repeat(e, n) :: f == e
  {
    if n > 0 {
      RepeatIsOf(e, n - 1);
    }
  }

  function RivalRun(): seq<Event> {
    RivalStart() + Repeat(Run(0), 9) + Repeat(Run(1), 9)
  }

  lemma RivalsNeverJoin()
    ensures forall e | e in RivalRun() :: !e.Join?
  {
    RepeatIsOf(Run(0), 9);
    RepeatIsOf(Run(1), 9);
    assert forall e | e in RivalStart() :: !e.Join?;
  }

  lemma RivalsEnd() returns (end: State)
    ensures end == Exec(Rivals(), RivalRun())
    ensures Key("acme", "bob") !in end.db.members
    ensures |end.db.audit| == 2 && end.db.audit[0].target == end.db.audit[1].target == Key("acme", "bob")
  {
    var key := Key("acme", "bob");
    var waiting := RivalsWait();
    AdminRemains(waiting.db, key);
    RunsAlone(waiting, 0);
    var once := Purged(waiting, 0);
    AdminRemains(once.db, key);
    RunsAlone(once, 1);
    end := Purged(once, 1);
    ExecConcat(Rivals(), RivalStart(), Repeat(Run(0), 9));
    ExecConcat(Rivals(), RivalStart() + Repeat(Run(0), 9), Repeat(Run(1), 9));
  }

  /**
   The converse fails: a run of two calls against one member ends with two audit rows about it and one
   removal.
   */
  lemma TwoAuditRowsOneRemoval() returns (s: State, events: seq<Event>, key: Key)
    ensures Quiet(s) && key in s.db.members && s.db.audit == []
    ensures AuditRows(Exec(s, events).db.audit, key) == 2 && Removals(s, events, key) == 1
  {
    s, events, key := Rivals(), RivalRun(), Key("acme", "bob");
    var end := RivalsEnd();
    TwoRows(end.db.audit, key);
    RivalsNeverJoin();
    RemovalsWithoutJoins(s, events, key);
  }

  lemma TwoRows(audit: seq<Audit>, key: Key)
    requires |audit| == 2 && audit[0].target == key && audit[1].target == key
    ensures AuditRows(audit, key) == 2
  {
    AuditAppends([], audit[0], key);
    AuditAppends([audit[0]], audit[1], key);
    assert audit == [audit[0]] + [audit[1]] && [audit[0]] == [] + [audit[0]];
  }

  // Without a join, a membership is removed once if it is gone at the end, and otherwise never.
  lemma {:induction false} RemovalsWithoutJoins(s: State, events: seq<Event>, key: Key)
    requires key in s.db.members && forall e | e in events :: !e.Join?
    ensures Removals(s, events, key) == if key in Exec(s, events).db.members then 0 else 1
  {
    if events != [] {
      var front, e := events[..|events|-1], events[|events|-1];
      assert e in events && forall f | f in front :: f in events;
      RemovalsWithoutJoins(s, front, key);
      NobodyReturns(Exec(s, front), e, key);
    }
  }

  lemma NobodyReturns(s: State, e: Event, key: Key)
    requires !e.Join?
    ensures key !in s.db.members ==> key !in Next(s, e).db.members
  {
  }
}
