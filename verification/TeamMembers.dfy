/**
 Replacing a team's member set with single-row writes that may fail (putTeamMembers in
 src/lib/api-impl.ts). The writes of a phase run concurrently: the order in which they settle and
 which of them fail are inputs. A write that reports a failure may still have been applied.
 */
module TeamMembers {
  import opened Wrappers

  datatype Write = Write(person: string, ok: bool, applied: bool)

  datatype Outcome = Ok | TeamNotFound | NotInOrg(person: string) | WriteFailed(person: string)

  // The writes of one phase in the order they are issued and in the order they settle.
  datatype Phase = Phase(issued: seq<Write>, settled: seq<Write>)

  // One write for each person, and a success is applied.
  ghost predicate Settles(phase: Phase, people: set<string>) {
    && (forall w :: w in phase.settled <==> w in phase.issued)
    && (forall p :: p in people <==> exists w | w in phase.issued :: w.person == p)
    && (forall i, j | 0 <= i < j < |phase.issued| :: phase.issued[i].person != phase.issued[j].person)
    && (forall w | w in phase.issued :: w.ok ==> w.applied)
  }

  ghost predicate AllOk(writes: seq<Write>) {
    forall w | w in writes :: w.ok
  }

  function Applied(writes: seq<Write>): (people: set<string>)
    ensures forall p :: p in people <==> exists w | w in writes :: w.person == p && w.applied
  {
    set w | w in writes && w.applied :: w.person
  }

  function ElementsOf(people: seq<string>): set<string> {
    set p | p in people
  }

  // The rejection that settleAll rethrows: the first in the order of the writes.
  function FirstFailure(writes: seq<Write>): (r: Option<string>)
    ensures r.None? <==> AllOk(writes)
    ensures r.Some? ==> exists w | w in writes :: !w.ok && w.person == r.value
  {
    if writes == [] then None
    else if !writes[0].ok then assert writes[0] in writes; Some(writes[0].person)
    else
      var r := FirstFailure(writes[1..]);
      assert forall w :: w in writes <==> w == writes[0] || w in writes[1..];
      r
  }

  class Roster {
    var members: set<string>

    // One phase: every write settles before the phase reports its first failure.
    method SettleAll(phase: Phase, adding: bool) returns (failed: Option<string>)
      requires forall w :: w in phase.settled <==> w in phase.issued
      modifies this
      ensures members == if adding then old(members) + Applied(phase.issued) else old(members) - Applied(phase.issued)
      ensures failed == FirstFailure(phase.issued)
    {
      var writes := phase.settled;
      for i := 0 to |writes|
        invariant members == if adding then old(members) + Applied(writes[..i]) else old(members) - Applied(writes[..i])
      {
        var w := writes[i];
        assert writes[..i+1] == writes[..i] + [w];
        assert Applied(writes[..i+1]) == Applied(writes[..i]) + if w.applied then {w.person} else {};
        if w.applied {
          members := if adding then members + {w.person} else members - {w.person};
        }
      }
      assert writes[..|writes|] == writes;
      assert Applied(phase.issued) == Applied(writes);
      failed := FirstFailure(phase.issued);
    }

    method PutTeamMembers(teamExists: bool, orgPeople: set<string>, personIds: seq<string>,
                          adds: Phase, removes: Phase)
      returns (outcome: Outcome)
      requires Settles(adds, ElementsOf(personIds) - members)
      requires Settles(removes, members - ElementsOf(personIds))
      modifies this
      ensures outcome == Decision(teamExists, orgPeople, personIds, adds, removes)
      ensures members == After(old(members), outcome, adds, removes)
    {
      if !teamExists {
        return TeamNotFound;
      }
      for i := 0 to |personIds|
        invariant members == old(members)
        invariant FirstOutsider(personIds, orgPeople) == FirstOutsider(personIds[i..], orgPeople)
      {
        if personIds[i] !in orgPeople {
          return NotInOrg(personIds[i]);
        }
        assert personIds[i..][1..] == personIds[i+1..];
      }
      var failed := SettleAll(adds, true);
      if failed.Some? {
        return WriteFailed(failed.value);
      }
      failed := SettleAll(removes, false);
      if failed.Some? {
        return WriteFailed(failed.value);
      }
      return Ok;
    }
  }

  // The specification of the outcome and of the member set a request leaves.
  function FirstOutsider(personIds: seq<string>, orgPeople: set<string>): Option<string> {
    if personIds == [] then None
    else if personIds[0] !in orgPeople then Some(personIds[0])
    else FirstOutsider(personIds[1..], orgPeople)
  }

  function Decision(teamExists: bool, orgPeople: set<string>, personIds: seq<string>,
                    adds: Phase, removes: Phase): Outcome {
    if !teamExists then TeamNotFound
    else if FirstOutsider(personIds, orgPeople).Some? then NotInOrg(FirstOutsider(personIds, orgPeople).value)
    else if FirstFailure(adds.issued).Some? then WriteFailed(FirstFailure(adds.issued).value)
    else if FirstFailure(removes.issued).Some? then WriteFailed(FirstFailure(removes.issued).value)
    else Ok
  }

  function After(members: set<string>, outcome: Outcome, adds: Phase, removes: Phase): set<string> {
    if outcome.TeamNotFound? || outcome.NotInOrg? then members
    else if FirstFailure(adds.issued).Some? then members + Applied(adds.issued)
    else members + Applied(adds.issued) - Applied(removes.issued)
  }

  lemma {:induction false} FirstOutsiderMeaning(personIds: seq<string>, orgPeople: set<string>)
    ensures FirstOutsider(personIds, orgPeople).None? <==> ElementsOf(personIds) <= orgPeople
  {
    if personIds != [] {
      FirstOutsiderMeaning(personIds[1..], orgPeople);
      assert ElementsOf(personIds) == {personIds[0]} + ElementsOf(personIds[1..]);
    }
  }

  /**
   For any failing writes settling in any order: success leaves exactly the requested members, a
   failed add phase drops nobody, a failed remove phase keeps every requested person, nobody from
   outside the request or the org is ever added, and a rejected request changes nothing.
   */
  lemma MemberSetAfterRequest(members: set<string>, teamExists: bool, orgPeople: set<string>, personIds: seq<string>,
                              adds: Phase, removes: Phase)
    requires Settles(adds, ElementsOf(personIds) - members) && Settles(removes, members - ElementsOf(personIds))
    ensures var requested := ElementsOf(personIds);
            var outcome := Decision(teamExists, orgPeople, personIds, adds, removes);
            var after := After(members, outcome, adds, removes);
            && (outcome.Ok? <==> teamExists && requested <= orgPeople && AllOk(adds.issued) && AllOk(removes.issued))
            && (outcome.Ok? ==> after == requested)
            && (outcome.TeamNotFound? || outcome.NotInOrg? ==> after == members)
            && (outcome.WriteFailed? && !AllOk(adds.issued) ==> members <= after <= members + requested)
            && (outcome.WriteFailed? && AllOk(adds.issued) ==> requested <= after <= members + requested)
            && after - members <= requested * orgPeople
  {
    FirstOutsiderMeaning(personIds, orgPeople);
    AppliedIsWithin(adds, ElementsOf(personIds) - members);
    AppliedIsWithin(removes, members - ElementsOf(personIds));
  }

  lemma AppliedIsWithin(phase: Phase, people: set<string>)
    requires Settles(phase, people)
    ensures Applied(phase.issued) <= people
    ensures AllOk(phase.issued) ==> Applied(phase.issued) == people
  {
    forall p | p in people && AllOk(phase.issued) ensures p in Applied(phase.issued) {
      var w :| w in phase.issued && w.person == p;
      assert w.ok && w.applied;
    }
  }

  lemma OneMoreWrite(people: set<string>, p: string, rest: seq<Write>)
    requires p in people && forall q :: q in people - {p} <==> exists w | w in rest :: w.person == q
    ensures forall q :: q in people <==> exists w | w in [Write(p, true, true)] + rest :: w.person == q
  {
    var first := Write(p, true, true);
    var writes := [first] + rest;
    assert writes[0] == first;
    forall q | q in people ensures exists w | w in writes :: w.person == q {
      if q != p {
        assert q in people - {p};
        var w :| w in rest && w.person == q;
        assert w in writes;
      }
    }
    forall w | w in writes ensures w.person in people {
      if w != first {
        assert w in rest;
        assert w.person in people - {p};
      }
    }
  }

  /** Any set of people has a phase in which every write succeeds. */
  lemma {:induction false} WritesCanSucceed(people: set<string>) returns (phase: Phase)
    ensures Settles(phase, people) && AllOk(phase.issued)
  {
    if people == {} {
      phase := Phase([], []);
    } else {
      var p := Pick(people);
      var rest := WritesCanSucceed(people - {p});
      var writes := [Write(p, true, true)] + rest.issued;
      phase := Phase(writes, writes);
      OneMoreWrite(people, p, rest.issued);
      forall j | 0 < j < |writes| ensures writes[j].person != p {
        assert writes[j] == rest.issued[j-1] && rest.issued[j-1] in rest.issued;
      }
    }
  }

  /** A request that failed can be repeated: when its writes then succeed, the members are as requested. */
  lemma RetryCompletes(members: set<string>, orgPeople: set<string>, personIds: seq<string>,
                       adds: Phase, removes: Phase, adds': Phase, removes': Phase)
    requires ElementsOf(personIds) <= orgPeople
    requires Settles(adds, ElementsOf(personIds) - members) && Settles(removes, members - ElementsOf(personIds))
    requires var after := After(members, Decision(true, orgPeople, personIds, adds, removes), adds, removes);
             Settles(adds', ElementsOf(personIds) - after) && Settles(removes', after - ElementsOf(personIds))
    requires AllOk(adds'.issued) && AllOk(removes'.issued)
    ensures var after := After(members, Decision(true, orgPeople, personIds, adds, removes), adds, removes);
            After(after, Decision(true, orgPeople, personIds, adds', removes'), adds', removes') == ElementsOf(personIds)
  {
    var after := After(members, Decision(true, orgPeople, personIds, adds, removes), adds, removes);
    MemberSetAfterRequest(after, true, orgPeople, personIds, adds', removes');
  }

  // The first write that failed, in the order in which they were issued.
  ghost predicate IsFirstFailure(writes: seq<Write>, i: int, person: string) {
    0 <= i < |writes| && !writes[i].ok && writes[i].person == person && forall j | 0 <= j < i :: writes[j].ok
  }

  lemma {:induction false} FirstFailureExactly(writes: seq<Write>)
    ensures FirstFailure(writes).None? <==> forall w | w in writes :: w.ok
    ensures FirstFailure(writes).Some? ==> exists i :: IsFirstFailure(writes, i, FirstFailure(writes).value)
  {
    if writes != [] && writes[0].ok {
      FirstFailureExactly(writes[1..]);
      if FirstFailure(writes).Some? {
        var i :| IsFirstFailure(writes[1..], i, FirstFailure(writes).value);
        assert forall j | 1 <= j < i + 1 :: writes[j] == writes[1..][j - 1];
        assert IsFirstFailure(writes, i + 1, FirstFailure(writes).value);
      }
    } else if writes != [] {
      assert IsFirstFailure(writes, 0, writes[0].person);
    }
  }

  ghost predicate IsFirstOutsider(personIds: seq<string>, orgPeople: set<string>, i: int, person: string) {
    0 <= i < |personIds| && personIds[i] == person && person !in orgPeople && forall j | 0 <= j < i :: personIds[j] in orgPeople
  }

  lemma {:induction false} FirstOutsiderExactly(personIds: seq<string>, orgPeople: set<string>)
    ensures FirstOutsider(personIds, orgPeople).Some? ==>
              exists i :: IsFirstOutsider(personIds, orgPeople, i, FirstOutsider(personIds, orgPeople).value)
  {
    if personIds != [] && personIds[0] in orgPeople {
      FirstOutsiderExactly(personIds[1..], orgPeople);
      if FirstOutsider(personIds, orgPeople).Some? {
        var i :| IsFirstOutsider(personIds[1..], orgPeople, i, FirstOutsider(personIds, orgPeople).value);
        assert forall j | 1 <= j < i + 1 :: personIds[j] == personIds[1..][j - 1];
        assert IsFirstOutsider(personIds, orgPeople, i + 1, FirstOutsider(personIds, orgPeople).value);
      }
    } else if personIds != [] {
      assert IsFirstOutsider(personIds, orgPeople, 0, personIds[0]);
    }
  }

  /**
   The answer in full: a missing team first, then the first requested person from outside the org, then the first
   failing add, then the first failing remove, each in the order of the request or of the issued writes.
   */
  lemma OutcomeExactly(teamExists: bool, orgPeople: set<string>, personIds: seq<string>, adds: Phase, removes: Phase)
    ensures var outcome := Decision(teamExists, orgPeople, personIds, adds, removes);
            var known := forall p | p in personIds :: p in orgPeople;
            && (outcome == TeamNotFound <==> !teamExists)
            && (outcome.NotInOrg? <==> teamExists && !known)
            && (outcome.WriteFailed? <==> teamExists && known && exists w | w in adds.issued + removes.issued :: !w.ok)
            && (outcome.NotInOrg? ==> exists i :: IsFirstOutsider(personIds, orgPeople, i, outcome.person))
            && (outcome.WriteFailed? && AllOk(adds.issued) ==> exists i :: IsFirstFailure(removes.issued, i, outcome.person))
            && (outcome.WriteFailed? && !AllOk(adds.issued) ==> exists i :: IsFirstFailure(adds.issued, i, outcome.person))
  {
    FirstOutsiderMeaning(personIds, orgPeople);
    FirstOutsiderExactly(personIds, orgPeople);
    FirstFailureExactly(adds.issued);
    FirstFailureExactly(removes.issued);
    assert forall p :: p in ElementsOf(personIds) <==> p in personIds;
  }
}
