/** Counting the people a billing period is charged for (src/contracts/tracked-user.ts). */
module TrackedUsers {
  import opened Sorting
  import opened Strings

  datatype Link = Link(subject: string, person: string)

  datatype SubjectDay = SubjectDay(subject: string, day: int)

  // Both ends are inclusive.
  datatype Period = Period(start: int, end: int)

  datatype Count = Count(trackedPersons: seq<string>, unresolvedSubjects: seq<string>)

  // ---------- The definition the loops are checked against ----------

  function ActiveSubjects(days: seq<SubjectDay>, p: Period): set<string> {
    set d | d in days && p.start <= d.day <= p.end :: d.subject
  }

  function PersonsOf(links: seq<Link>, subject: string): set<string> {
    set l | l in links && l.subject == subject :: l.person
  }

  // People with an identity link to a subject that has a record in the period.
  function Tracked(links: seq<Link>, days: seq<SubjectDay>, p: Period): set<string> {
    set l | l in links && l.subject in ActiveSubjects(days, p) :: l.person
  }

  // Subjects with a record in the period and no identity link.
  function Unresolved(links: seq<Link>, days: seq<SubjectDay>, p: Period): set<string> {
    set s | s in ActiveSubjects(days, p) && PersonsOf(links, s) == {}
  }

  // The listing of a set: ascending and without repetition.
  ghost predicate Lists(s: seq<string>, members: set<string>) {
    Ascending(s, Less) && forall x :: x in s <==> x in members
  }

  lemma LessIsStrict()
    ensures StrictOrder(Less)
  {
    forall a: string ensures !Less(a, a) {
      LessIsIrreflexive(a);
    }
    forall a: string, b: string ensures a == b || Less(a, b) || Less(b, a) {
      LessIsTotal(a, b);
    }
    forall a: string, b: string, c: string | Less(a, b) && Less(b, c) ensures Less(a, c) {
      LessIsTransitive(a, b, c);
    }
  }

  // ---------- The loops ----------

  method SortedElements(members: set<string>) returns (s: seq<string>)
    ensures Lists(s, members)
  {
    var elements := Elements(members);
    LessIsStrict();
    SortIsAscending(elements, Less);
    s := Sort(elements, Less);
  }

  method GroupBySubject(identities: seq<Link>) returns (personsBySubject: map<string, seq<string>>)
    ensures Groups(personsBySubject, identities)
  {
    personsBySubject := map[];
    for i := 0 to |identities|
      invariant Groups(personsBySubject, identities[..i])
    {
      var link := identities[i];
      GroupExtends(personsBySubject, identities, i);
      var persons := if link.subject in personsBySubject then personsBySubject[link.subject] else [];
      personsBySubject := personsBySubject[link.subject := persons + [link.person]];
    }
    assert identities[..|identities|] == identities;
  }

  ghost predicate Groups(m: map<string, seq<string>>, links: seq<Link>) {
    && (forall s :: s in m <==> PersonsOf(links, s) != {})
    && (forall s | s in m :: forall p :: p in m[s] <==> p in PersonsOf(links, s))
  }

  lemma PersonsExtend(links: seq<Link>, i: nat, s: string)
    requires i < |links|
    ensures PersonsOf(links[..i+1], s) == PersonsOf(links[..i], s) + if links[i].subject == s then {links[i].person} else {}
  {
    assert links[..i+1] == links[..i] + [links[i]];
    assert forall l :: l in links[..i+1] <==> l in links[..i] || l == links[i];
  }

  lemma GroupExtends(m: map<string, seq<string>>, links: seq<Link>, i: nat)
    requires i < |links| && Groups(m, links[..i])
    ensures var link := links[i];
            Groups(m[link.subject := (if link.subject in m then m[link.subject] else []) + [link.person]], links[..i+1])
  {
    forall s
      ensures PersonsOf(links[..i+1], s) ==
              PersonsOf(links[..i], s) + if links[i].subject == s then {links[i].person} else {}
    {
      PersonsExtend(links, i, s);
    }
  }

  method CountTrackedUsers(identities: seq<Link>, activeSubjectDays: seq<SubjectDay>, period: Period) returns (count: Count)
    ensures Lists(count.trackedPersons, Tracked(identities, activeSubjectDays, period))
    ensures Lists(count.unresolvedSubjects, Unresolved(identities, activeSubjectDays, period))
  {
    var activeSubjects := {};
    for i := 0 to |activeSubjectDays|
      invariant activeSubjects == ActiveSubjects(activeSubjectDays[..i], period)
    {
      var d := activeSubjectDays[i];
      assert activeSubjectDays[..i+1] == activeSubjectDays[..i] + [d];
      assert forall x :: x in activeSubjectDays[..i+1] <==> x in activeSubjectDays[..i] || x == d;
      if d.day >= period.start && d.day <= period.end {
        activeSubjects := activeSubjects + {d.subject};
      }
    }
    assert activeSubjectDays[..|activeSubjectDays|] == activeSubjectDays;

    var personsBySubject := GroupBySubject(identities);
    var trackedPersons, unresolvedSubjects := Resolve(activeSubjects, personsBySubject, identities);
    assert trackedPersons == Tracked(identities, activeSubjectDays, period);
    var persons := SortedElements(trackedPersons);
    var subjects := SortedElements(unresolvedSubjects);
    count := Count(persons, subjects);
  }

  method Resolve(activeSubjects: set<string>, personsBySubject: map<string, seq<string>>, ghost links: seq<Link>)
    returns (trackedPersons: set<string>, unresolvedSubjects: set<string>)
    requires Groups(personsBySubject, links)
    ensures trackedPersons == set l | l in links && l.subject in activeSubjects :: l.person
    ensures unresolvedSubjects == set s | s in activeSubjects && PersonsOf(links, s) == {}
  {
    trackedPersons, unresolvedSubjects := {}, {};
    var left := activeSubjects;
    while left != {}
      invariant left <= activeSubjects
      invariant trackedPersons == set l | l in links && l.subject in activeSubjects - left :: l.person
      invariant unresolvedSubjects == set s | s in activeSubjects - left && PersonsOf(links, s) == {}
    {
      var subject :| subject in left;
      if subject in personsBySubject && |personsBySubject[subject]| > 0 {
        trackedPersons := AddAll(trackedPersons, personsBySubject[subject]);
      } else {
        unresolvedSubjects := unresolvedSubjects + {subject};
      }
      TrackedExtends(links, activeSubjects - left, subject);
      assert activeSubjects - (left - {subject}) == (activeSubjects - left) + {subject};
      left := left - {subject};
    }
    assert activeSubjects - {} == activeSubjects;
  }

  method AddAll(members: set<string>, more: seq<string>) returns (all: set<string>)
    ensures all == members + set x | x in more
  {
    all := members;
    for i := 0 to |more|
      invariant all == members + set x | x in more[..i]
    {
      assert more[..i+1] == more[..i] + [more[i]];
      all := all + {more[i]};
    }
    assert more[..|more|] == more;
  }

  lemma TrackedExtends(links: seq<Link>, subjects: set<string>, s: string)
    ensures (set l | l in links && l.subject in subjects + {s} :: l.person) ==
            (set l | l in links && l.subject in subjects :: l.person) + PersonsOf(links, s)
  {
  }

  // ---------- Laws ----------

  /** A set has one ascending listing, so the counts are determined by the definition alone. */
  lemma {:induction false} ListingIsUnique(s: seq<string>, t: seq<string>, members: set<string>)
    requires Lists(s, members) && Lists(t, members)
    ensures s == t && |s| == |members|
  {
    ListingIsDistinct(s, members);
    ListingIsDistinct(t, members);
    if s != [] {
      SameLast(s, t, members);
      DropLast(s, members);
      DropLast(t, members);
      ListingIsUnique(s[..|s|-1], t[..|t|-1], members - {s[|s|-1]});
    }
  }

  lemma SameLast(s: seq<string>, t: seq<string>, members: set<string>)
    requires Lists(s, members) && Lists(t, members) && s != [] && t != []
    ensures s[|s|-1] == t[|t|-1]
  {
    var last, last' := s[|s|-1], t[|t|-1];
    LastIsGreatest(s, members, last');
    LastIsGreatest(t, members, last);
    if last != last' {
      LessIsAsymmetric(last, last');
    }
  }

  lemma ListingIsDistinct(s: seq<string>, members: set<string>)
    requires Lists(s, members)
    ensures Distinct(s) && |s| == |members|
  {
    forall i, j | 0 <= i < j < |s| ensures s[i] != s[j] {
      assert Less(s[i], s[j]);
      LessIsIrreflexive(s[i]);
    }
    DistinctSize(s, members);
  }

  lemma LastIsGreatest(s: seq<string>, members: set<string>, x: string)
    requires Lists(s, members) && x in members
    ensures s != [] && (x == s[|s|-1] || Less(x, s[|s|-1]))
  {
    assert x in s;
    var i :| 0 <= i < |s| && s[i] == x;
  }

  lemma DropLast(s: seq<string>, members: set<string>)
    requires Lists(s, members) && s != []
    ensures Lists(s[..|s|-1], members - {s[|s|-1]})
  {
    var last, front := s[|s|-1], s[..|s|-1];
    ListingIsDistinct(s, members);
    assert s == front + [last];
    forall x ensures x in front <==> x in members - {last} {
      assert x in s <==> x in front || x == last;
    }
  }

  /** Active subjects split exactly into those with a tracked person and those that are unresolved. */
  lemma ActiveSubjectsSplit(links: seq<Link>, days: seq<SubjectDay>, p: Period)
    ensures var resolved := set s | s in ActiveSubjects(days, p) && PersonsOf(links, s) != {};
            && ActiveSubjects(days, p) == resolved + Unresolved(links, days, p)
            && resolved !! Unresolved(links, days, p)
            && (forall s | s in resolved :: PersonsOf(links, s) <= Tracked(links, days, p))
            && (forall q | q in Tracked(links, days, p) :: exists s :: s in resolved && q in PersonsOf(links, s))
  {
    forall q | q in Tracked(links, days, p)
      ensures exists s :: s in ActiveSubjects(days, p) && PersonsOf(links, s) != {} && q in PersonsOf(links, s)
    {
      var l :| l in links && l.subject in ActiveSubjects(days, p) && l.person == q;
      assert q in PersonsOf(links, l.subject);
    }
  }

  // A split into two adjacent periods.
  lemma TwoPeriodsAddUp(links: seq<Link>, days: seq<SubjectDay>, start: int, mid: int, end: int)
    requires start <= mid + 1 <= end + 1
    ensures var whole, first, second := Period(start, end), Period(start, mid), Period(mid + 1, end);
            && Tracked(links, days, whole) == Tracked(links, days, first) + Tracked(links, days, second)
            && Unresolved(links, days, whole) == Unresolved(links, days, first) + Unresolved(links, days, second)
  {
    var whole, first, second := Period(start, end), Period(start, mid), Period(mid + 1, end);
    assert ActiveSubjects(days, whole) == ActiveSubjects(days, first) + ActiveSubjects(days, second);
  }

  // Each period begins on the day after the one before; one of them may be empty.
  predicate Adjacent(ps: seq<Period>) {
    && (forall i | 0 <= i < |ps| :: ps[i].start <= ps[i].end + 1)
    && (forall i | 0 < i < |ps| :: ps[i].start == ps[i-1].end + 1)
  }

  function TrackedOver(links: seq<Link>, days: seq<SubjectDay>, ps: seq<Period>): set<string> {
    if ps == [] then {} else TrackedOver(links, days, ps[..|ps|-1]) + Tracked(links, days, ps[|ps|-1])
  }

  function UnresolvedOver(links: seq<Link>, days: seq<SubjectDay>, ps: seq<Period>): set<string> {
    if ps == [] then {} else UnresolvedOver(links, days, ps[..|ps|-1]) + Unresolved(links, days, ps[|ps|-1])
  }

  /**
   Over a period the tracked people are the union over any split of it into adjacent periods, and so are
   the unresolved subjects.
   */
  lemma {:induction false} PeriodsAddUp(links: seq<Link>, days: seq<SubjectDay>, ps: seq<Period>)
    requires ps != [] && Adjacent(ps)
    ensures ps[0].start <= ps[|ps|-1].end + 1
    ensures Tracked(links, days, Period(ps[0].start, ps[|ps|-1].end)) == TrackedOver(links, days, ps)
    ensures Unresolved(links, days, Period(ps[0].start, ps[|ps|-1].end)) == UnresolvedOver(links, days, ps)
  {
    var front, last := ps[..|ps|-1], ps[|ps|-1];
    if front == [] {
      assert Period(ps[0].start, last.end) == last;
    } else {
      PeriodsAddUp(links, days, front);
      TwoPeriodsAddUp(links, days, ps[0].start, front[|front|-1].end, last.end);
      assert Period(front[|front|-1].end + 1, last.end) == last;
    }
  }

  /** Adding identity links only adds tracked people and only removes unresolved subjects. */
  lemma LinksAreMonotone(links: seq<Link>, more: seq<Link>, days: seq<SubjectDay>, p: Period)
    requires forall l | l in links :: l in more
    ensures Tracked(links, days, p) <= Tracked(more, days, p)
    ensures Unresolved(more, days, p) <= Unresolved(links, days, p)
  {
    forall s | s in Unresolved(more, days, p) ensures PersonsOf(links, s) == {} {
      assert PersonsOf(links, s) <= PersonsOf(more, s);
    }
  }

  /** A person counts once, however many subjects or links resolve to them, and an unresolved subject counts for nobody. */
  lemma PeopleCountOnce(links: seq<Link>, days: seq<SubjectDay>, p: Period, count: Count, again: Link)
    requires Lists(count.trackedPersons, Tracked(links, days, p))
    requires again.person in Tracked(links, days, p) || again.subject !in ActiveSubjects(days, p)
    ensures Lists(count.trackedPersons, Tracked(links + [again], days, p))
  {
    assert forall l :: l in links + [again] <==> l in links || l == again;
    assert Tracked(links + [again], days, p) == Tracked(links, days, p);
  }
}
