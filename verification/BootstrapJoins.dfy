/**
 The signup bootstrap (ensureOrgOfOne in src/db/org-scope.ts) together with other writers of memberships,
 such as accepted invites. A join commits one membership of an existing org between any two statements.
 */
module BootstrapJoins {
  import opened Bootstrap
  import opened Wrappers

  datatype Step = Statement(e: Event) | Join(key: Key, membership: Membership)

  ghost function After(s: State, step: Step): State {
    match step
    case Statement(e) => Next(s, e)
    case Join(key, membership) =>
      if key.orgId in s.db.orgs && key !in s.db.members
      then s.(db := s.db.(members := s.db.members[key := membership])) else s
  }

  ghost function Run(s: State, steps: seq<Step>): State {
    if steps == [] then s else After(Run(s, steps[..|steps|-1]), steps[|steps|-1])
  }

  // The user's own org is committed, with a membership created before the given time.
  ghost predicate HasEarlier(db: Db, user: string, createdAt: int) {
    exists orgId :: IsBootstrapOrg(db, orgId, user) && Key(orgId, user) in db.members
                    && db.members[Key(orgId, user)].createdAt < createdAt
  }

  // A step that gives the user a membership does so after the user's own org.
  ghost predicate ComesLater(s: State, step: Step, user: string) {
    step.Join? && step.key.user == user && step.key.orgId in s.db.orgs && step.key !in s.db.members ==>
      HasEarlier(s.db, user, step.membership.createdAt)
  }

  ghost predicate JoinsComeLater(s: State, steps: seq<Step>, user: string) {
    forall i | 0 <= i < |steps| :: ComesLater(Run(s, steps[..i]), steps[i], user)
  }

  lemma JoinKeepsIds(s: State, step: Step)
    requires IdInv(s) && step.Join?
    ensures IdInv(After(s, step))
  {
    var s' := After(s, step);
    forall p | p in s'.procs ensures FreshId(s', p) {
      assert FreshId(s, p);
    }
    forall p, q | p in s'.procs && q in s'.procs ensures DifferentIds(s', p, q) {
      assert DifferentIds(s, p, q);
    }
  }

  lemma JoinKeepsUnique(s: State, step: Step)
    requires UniqueInv(s) && step.Join?
    ensures UniqueInv(After(s, step))
  {
    assert After(s, step).db.orgs == s.db.orgs;
    forall orgId, user ensures IsBootstrapOrg(After(s, step).db, orgId, user) <==> IsBootstrapOrg(s.db, orgId, user) {
    }
  }

  lemma {:induction false} RunsKeepUnique(s: State, steps: seq<Step>)
    requires Quiet(s)
    ensures IdInv(Run(s, steps)) && UniqueInv(Run(s, steps))
  {
    if steps != [] {
      var before, step := Run(s, steps[..|steps|-1]), steps[|steps|-1];
      RunsKeepUnique(s, steps[..|steps|-1]);
      if step.Join? {
        JoinKeepsIds(before, step);
        JoinKeepsUnique(before, step);
      } else {
        StepFrame(before, step.e);
        FrameKeepsIds(before, Next(before, step.e), step.e.pid);
        StepKeepsUnique(before, step.e);
      }
    }
  }

  /** Whoever joins what in between, a bootstrap id is never carried by two orgs. */
  lemma BootstrapIdsStayUniqueWithJoins(s: State, steps: seq<Step>, a: nat, b: nat, user: string)
    requires Quiet(s) && IsBootstrapOrg(Run(s, steps).db, a, user) && IsBootstrapOrg(Run(s, steps).db, b, user)
    ensures a == b
  {
    RunsKeepUnique(s, steps);
  }

  // Another user's join does not concern this one.
  lemma OtherJoinKeepsInv(s: State, step: Step, user: string)
    requires UserInv(s, user) && step.Join? && step.key.user != user
    ensures UserInv(After(s, step), user)
  {
    var s' := After(s, step);
    SameAfterJoin(s, step, user);
    SameForUserKeeps(s.db, s'.db, user);
    forall p | p in s'.procs && s'.procs[p].user == user ensures ProcessInv(s', p) {
      assert ProcessInv(s, p);
    }
  }

  lemma SameAfterJoin(s: State, step: Step, user: string)
    requires step.Join? && step.key.user != user
    ensures SameForUser(s.db, After(s, step).db, user)
  {
    var s' := After(s, step);
    assert s'.db.orgs == s.db.orgs && s'.db.definitions == s.db.definitions;
  }

  // A join of this user that comes later leaves the settled org the first.
  lemma LaterJoinKeepsInv(s: State, step: Step, user: string)
    requires UserInv(s, user) && step.Join? && step.key.user == user && ComesLater(s, step, user)
    ensures UserInv(After(s, step), user)
  {
    var s' := After(s, step);
    if s' != s {
      var own :| IsBootstrapOrg(s.db, own, user) && Key(own, user) in s.db.members
                 && s.db.members[Key(own, user)].createdAt < step.membership.createdAt;
      var orgId :| Settled(s.db, user, orgId);
      assert own == orgId;
      forall o | Settled(s.db, user, o) ensures Settled(s'.db, user, o) {
        JoinKeepsSettled(s, step, user, o);
      }
      forall p | p in s'.procs && s'.procs[p].user == user ensures ProcessInv(s', p) {
        assert ProcessInv(s, p);
      }
    }
  }

  lemma JoinKeepsSettled(s: State, step: Step, user: string, orgId: nat)
    requires step.Join? && step.key !in s.db.members && Settled(s.db, user, orgId)
    requires s.db.members[Key(orgId, user)].createdAt < step.membership.createdAt
    ensures Settled(After(s, step).db, user, orgId)
  {
    var db := After(s, step).db;
    assert Copies(db, orgId) == Copies(s.db, orgId);
    forall o | IsBootstrapOrg(db, o, user) ensures o == orgId {
      assert IsBootstrapOrg(s.db, o, user);
    }
  }

  lemma {:induction false} RunsKeepUserInv(s: State, steps: seq<Step>, user: string)
    requires Quiet(s) && IsNewUser(s.db, user) && JoinsComeLater(s, steps, user)
    ensures UserInv(Run(s, steps), user)
  {
    if steps != [] {
      var front, step := steps[..|steps|-1], steps[|steps|-1];
      assert ComesLater(Run(s, front), step, user);
      forall i | 0 <= i < |front| ensures ComesLater(Run(s, front[..i]), front[i], user) {
        assert front[..i] == steps[..i] && ComesLater(Run(s, steps[..i]), steps[i], user);
      }
      RunsKeepUserInv(s, front, user);
      if step.Statement? {
        RunsKeepUnique(s, front);
        StepKeepsInv(Run(s, front), step.e, user);
      } else if step.key.user == user {
        LaterJoinKeepsInv(Run(s, front), step, user);
      } else {
        OtherJoinKeepsInv(Run(s, front), step, user);
      }
    }
  }

  /**
   All completed calls of a new user return the same settled org, whatever other users join, as long as
   every membership that somebody else gives this user comes after that of the user's own org.
   */
  lemma CompletedCallsAgreeAmongJoins(s: State, steps: seq<Step>, p: nat, q: nat)
    requires Quiet(s) && p in Run(s, steps).procs && q in Run(s, steps).procs
    requires Run(s, steps).procs[p].pc.Returned? && Run(s, steps).procs[q].pc.Returned?
    requires Run(s, steps).procs[p].user == Run(s, steps).procs[q].user
    requires IsNewUser(s.db, Run(s, steps).procs[p].user) && JoinsComeLater(s, steps, Run(s, steps).procs[p].user)
    ensures Run(s, steps).procs[p].pc == Run(s, steps).procs[q].pc
    ensures Settled(Run(s, steps).db, Run(s, steps).procs[p].user, Run(s, steps).procs[p].pc.orgId)
  {
    RunsKeepUserInv(s, steps, Run(s, steps).procs[p].user);
    assert ProcessInv(Run(s, steps), p) && ProcessInv(Run(s, steps), q);
  }

  // A completed call returned an org the user is a member of.
  ghost predicate ReturnsMember(s: State) {
    forall p | p in s.procs && s.procs[p].pc.Returned? :: Key(s.procs[p].pc.orgId, s.procs[p].user) in s.db.members
  }

  lemma StepReturnsMember(s: State, step: Step)
    requires ReturnsMember(s)
    ensures ReturnsMember(After(s, step))
  {
    if step.Statement? {
      StepFrame(s, step.e);
    }
  }

  /** In every run, with any joins, a completed call returned an org that the user is a member of. */
  lemma {:induction false} CompletedCallsAreMembers(s: State, steps: seq<Step>)
    requires Quiet(s)
    ensures ReturnsMember(Run(s, steps))
  {
    if steps != [] {
      CompletedCallsAreMembers(s, steps[..|steps|-1]);
      StepReturnsMember(Run(s, steps[..|steps|-1]), steps[|steps|-1]);
    }
  }

  // ---------- When the next call agrees ----------

  // Whichever membership the database picks, the read of process q returns this org.
  ghost predicate ReadReturns(s: State, q: nat, orgId: nat)
    requires q in s.procs
  {
    forall seen, now | IsMembershipForUser(s.db, s.procs[q].user, seen) ::
      var pc := RunNext(s, q, seen, now).procs[q].pc; pc.Returned? && pc.orgId == orgId
  }

  lemma {:induction false} Earliest(db: Db, keys: set<Key>) returns (e: Key)
    requires keys != {} && keys <= db.members.Keys
    ensures e in keys && forall k | k in keys :: db.members[e].createdAt <= db.members[k].createdAt
  {
    var one := Pick(keys);
    e := one;
    if keys - {one} != {} {
      var f := Earliest(db, keys - {one});
      if db.members[f].createdAt < db.members[one].createdAt {
        e := f;
      }
    }
    forall k | k in keys ensures db.members[e].createdAt <= db.members[k].createdAt {
      assert k == one || k in keys - {one};
    }
  }

  // An org that is not first has a rival that a read may pick.
  lemma RivalRead(db: Db, user: string, orgId: nat) returns (rival: nat)
    requires Key(orgId, user) in db.members && !IsFirst(db, user, orgId)
    ensures rival != orgId && IsMembershipForUser(db, user, Some(rival))
  {
    var keys := set k | k in db.members && k.user == user;
    assert Key(orgId, user) in keys;
    var e := Earliest(db, keys);
    assert e == Key(e.orgId, user);
    rival := e.orgId;
    if rival == orgId {
      var k :| k in db.members && k.user == user && k.orgId != orgId
               && db.members[k].createdAt <= db.members[Key(orgId, user)].createdAt;
      assert k == Key(k.orgId, user);
      rival := k.orgId;
    }
  }

  /**
   In every run, with any joins and any users: once a call returned an org, the next read of a call of
   that user (a call that begins, or one that reads again) returns it, whatever the database picks, if and
   only if every other membership of the user was created strictly later.
   */
  lemma NextReadAgreesExactly(s: State, steps: seq<Step>, p: nat, q: nat)
    requires Quiet(s) && p in Run(s, steps).procs && q in Run(s, steps).procs
    requires Run(s, steps).procs[p].pc.Returned? && Run(s, steps).procs[p].user == Run(s, steps).procs[q].user
    requires Run(s, steps).procs[q].pc.Start? || Run(s, steps).procs[q].pc.Reread?
    ensures ReadReturns(Run(s, steps), q, Run(s, steps).procs[p].pc.orgId)
       <==> IsFirst(Run(s, steps).db, Run(s, steps).procs[p].user, Run(s, steps).procs[p].pc.orgId)
  {
    var t := Run(s, steps);
    var user, orgId := t.procs[p].user, t.procs[p].pc.orgId;
    CompletedCallsAreMembers(s, steps);
    if !IsFirst(t.db, user, orgId) {
      var rival := RivalRead(t.db, user, orgId);
      assert RunNext(t, q, Some(rival), 0).procs[q].pc.orgId == rival;
    }
  }

  // ---------- A join that redirects ----------

  // One org and nobody in it, and what ann's bootstrap makes of it.
  function Before(): Db {
    Db(map[0 := None], map[], {})
  }

  function Bootstrapped(): Db {
    Db(map[0 := None, 1 := Some("ann")], map[Key(1, "ann") := Membership(Admin, 5)], {})
  }

  function Idle(): State {
    State(Before(), map[], map[], 1)
  }

  // The steps of a run without joins.
  function Statements(events: seq<Event>): (steps: seq<Step>)
    ensures |steps| == |events|
  {
    seq(|events|, i requires 0 <= i < |events| => Statement(events[i]))
  }

  lemma {:induction false} WithoutJoins(s: State, events: seq<Event>)
    ensures Run(s, Statements(events)) == Exec(s, events)
  {
    if events != [] {
      WithoutJoins(s, events[..|events|-1]);
      assert Statements(events)[..|events|-1] == Statements(events[..|events|-1]);
    }
  }

  // One more step of a run.
  lemma Then(s: State, steps: seq<Step>, step: Step) returns (more: seq<Step>)
    ensures Run(s, more) == After(Run(s, steps), step)
  {
    more := steps + [step];
    assert more[..|more|-1] == steps;
  }

  // Ann's first call, alone.
  function Returned1(): State {
    State(Bootstrapped(), map[], map[0 := Process("ann", Returned(1, Admin))], 2)
  }

  // A call by ann that finds nothing and inserts org 1 at time 5.
  lemma FirstCall() returns (steps: seq<Step>)
    ensures Run(Idle(), steps) == Returned1()
  {
    var begun := Next(Idle(), Begin(0, "ann"));
    assert begun.procs == map[0 := Process("ann", Start)];
    var events := NewcomerAlone(begun, 0, 5);
    assert Copies(Before(), 1) == {};
    assert Exec(begun, events) == Returned1();
    WithoutJoins(begun, events);
    steps := Then(Idle(), [], Statement(Begin(0, "ann")));
    RunConcat(Idle(), steps, Statements(events));
    steps := steps + Statements(events);
  }

  // Ann joins org 0 with a creation time of 3, and calls again.
  lemma SecondCall() returns (steps: seq<Step>)
    ensures var t := Run(Returned1(), steps);
            && t.procs == map[0 := Process("ann", Returned(1, Admin)), 1 := Process("ann", Returned(0, Member))]
  {
    var s := Returned1();
    steps := Then(s, [], Join(Key(0, "ann"), Membership(Member, 3)));
    steps := Then(s, steps, Statement(Begin(1, "ann")));
    var joined := Run(s, steps);
    assert joined.db.members == Bootstrapped().members[Key(0, "ann") := Membership(Member, 3)];
    assert IsMembershipForUser(joined.db, "ann", Some(0));
    steps := Then(s, steps, Statement(Event.Run(1, Some(0), 6)));
  }

  lemma {:induction false} RunConcat(s: State, a: seq<Step>, b: seq<Step>)
    ensures Run(s, a + b) == Run(Run(s, a), b)
  {
    if b == [] {
      assert a + b == a;
    } else {
      RunConcat(s, a, b[..|b|-1]);
      assert (a + b)[..|a + b|-1] == a + b[..|b|-1];
    }
  }

  /**
   The agreement needs its condition: ann's first call bootstraps org 1 at time 5; she then joins org 0
   with a creation time of 3, and her second call returns org 0.
   */
  lemma EarlierJoinRedirects() returns (s: State, steps: seq<Step>)
    ensures Quiet(s) && IsNewUser(s.db, "ann") && 0 in Run(s, steps).procs && 1 in Run(s, steps).procs
    ensures Run(s, steps).procs[0] == Process("ann", Returned(1, Admin))
    ensures Run(s, steps).procs[1] == Process("ann", Returned(0, Member))
  {
    var first := FirstCall();
    var second := SecondCall();
    s, steps := Idle(), first + second;
    RunConcat(s, first, second);
  }
}
