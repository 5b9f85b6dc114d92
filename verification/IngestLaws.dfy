/** What any run of pushes leaves in the tables (src/lib/agent-ingest.ts, src/db/org-scope/metrics.ts). */
module IngestLaws {
  import opened Ingest
  import opened Wrappers

  function Run(s: Store, pushes: seq<Push>, enums: Enums): Store {
    if pushes == [] then s else Apply(Run(s, pushes[..|pushes|-1], enums), pushes[|pushes|-1], enums)
  }

  // Rows belong to the connection of their subject.
  ghost predicate Coherent(s: Store) {
    forall k | k in s.records :: s.records[k].connection == k.subject.connection
  }

  // ---------- Entries ----------

  lemma {:induction false} LastWinsFrom<K(!new), V>(entries: seq<(K, V)>, k: K)
    requires k in LastWins(entries)
    ensures (k, LastWins(entries)[k]) in entries
  {
    var last, front := entries[|entries|-1], entries[..|entries|-1];
    if last.0 == k {
      assert entries[|entries|-1] == (k, LastWins(entries)[k]);
    } else {
      LastWinsFrom(front, k);
      assert (k, LastWins(entries)[k]) in front;
    }
  }

  /** Of the entries of one key, the last one is kept. */
  lemma {:induction false} LastWinsMeaning<K(!new), V>(entries: seq<(K, V)>, i: nat)
    requires i < |entries|
    requires forall j | i < j < |entries| :: entries[j].0 != entries[i].0
    ensures entries[i].0 in LastWins(entries) && LastWins(entries)[entries[i].0] == entries[i].1
  {
    if i < |entries| - 1 {
      LastWinsMeaning(entries[..|entries|-1], i);
      assert entries[|entries|-1].0 != entries[i].0;
    }
  }

  lemma RecordRowOf(c: string, b: Batch, enums: Enums, k: RecordKey)
    requires Problem(b, enums).None? && k in LastWins(RecordEntries(c, b))
    ensures exists r :: r in b.records && (k, LastWins(RecordEntries(c, b))[k]) == RecordEntry(c, ConnectorOf(b), r)
    ensures k.subject.connection == c && k.source == ConnectorOf(b) && b.start <= k.day <= b.end
    ensures LastWins(RecordEntries(c, b))[k].connection == c
  {
    var entries := RecordEntries(c, b);
    LastWinsFrom(entries, k);
    var i :| 0 <= i < |entries| && entries[i] == (k, LastWins(entries)[k]);
    var r := b.records[i];
    assert r in b.records;
    AcceptedExactlyWhenWellFormed(b, enums);
  }

  lemma SignalRowOf(c: string, b: Batch, enums: Enums, k: SignalKey)
    requires Problem(b, enums).None? && k in LastWins(SignalEntries(c, b))
    ensures k.subject.connection == c && b.start <= k.day <= b.end
  {
    var entries := SignalEntries(c, b);
    LastWinsFrom(entries, k);
    var i :| 0 <= i < |entries| && entries[i] == (k, LastWins(entries)[k]);
    assert b.signals[i] in b.signals;
    AcceptedExactlyWhenWellFormed(b, enums);
  }

  // ---------- The last covering push wins ----------

  predicate Covers(p: Push, c: string, family: string, day: int, enums: Enums) {
    && Decide(p, enums).Accepted?
    && p.auth.connection == c
    && FamilyOf(ConnectorOf(p.body.value)) == family
    && p.body.value.start <= day <= p.body.value.end
  }

  function LastCovering(pushes: seq<Push>, c: string, family: string, day: int, enums: Enums): (last: Option<Push>)
    ensures last.Some? ==> Covers(last.value, c, family, day, enums)
  {
    if pushes == [] then None
    else if Covers(pushes[|pushes|-1], c, family, day, enums) then Some(pushes[|pushes|-1])
    else LastCovering(pushes[..|pushes|-1], c, family, day, enums)
  }

  predicate Belongs(k: RecordKey, row: Row, c: string, family: string, day: int) {
    row.connection == c && FamilyOf(k.source) == family && k.day == day
  }

  function RowsOn(records: map<RecordKey, Row>, c: string, family: string, day: int): map<RecordKey, Row> {
    map k | k in records && Belongs(k, records[k], c, family, day) :: records[k]
  }

  lemma ApplyKeepsCoherence(s: Store, p: Push, enums: Enums)
    requires Coherent(s)
    ensures Coherent(Apply(s, p, enums))
  {
    if Decide(p, enums).Accepted? {
      var c, b := p.auth.connection, p.body.value;
      forall k | k in LastWins(RecordEntries(c, b))
        ensures LastWins(RecordEntries(c, b))[k].connection == k.subject.connection
      {
        RecordRowOf(c, b, enums, k);
      }
    }
  }

  lemma MergeReplaces(kept: map<RecordKey, Row>, restated: map<RecordKey, Row>, c: string, family: string, day: int)
    requires forall k | k in kept :: !Belongs(k, kept[k], c, family, day)
    ensures RowsOn(kept + restated, c, family, day) == RowsOn(restated, c, family, day)
  {
  }

  lemma MergeKeeps(kept: map<RecordKey, Row>, restated: map<RecordKey, Row>, c: string, family: string, day: int)
    requires forall k | k in restated :: !Belongs(k, restated[k], c, family, day)
    requires forall k | k in restated && k in kept :: !Belongs(k, kept[k], c, family, day)
    ensures RowsOn(kept + restated, c, family, day) == RowsOn(kept, c, family, day)
  {
  }

  lemma SweepKeeps(records: map<RecordKey, Row>, c': string, family': string, start: int, end: int,
                   c: string, family: string, day: int)
    requires !(c' == c && family' == family && start <= day <= end)
    ensures RowsOn(WithoutWindow(records, c', family', start, end), c, family, day) == RowsOn(records, c, family, day)
  {
  }

  lemma CoveringPush(s: Store, p: Push, c: string, family: string, day: int, enums: Enums)
    requires Coherent(s) && Covers(p, c, family, day, enums)
    ensures RowsOn(Apply(s, p, enums).records, c, family, day) ==
            RowsOn(LastWins(RecordEntries(c, p.body.value)), c, family, day)
  {
    var b := p.body.value;
    MergeReplaces(WithoutWindow(s.records, c, family, b.start, b.end), LastWins(RecordEntries(c, b)), c, family, day);
  }

  lemma OtherPush(s: Store, p: Push, c: string, family: string, day: int, enums: Enums)
    requires Coherent(s) && !Covers(p, c, family, day, enums)
    ensures RowsOn(Apply(s, p, enums).records, c, family, day) == RowsOn(s.records, c, family, day)
  {
    if Decide(p, enums).Accepted? {
      var c', b := p.auth.connection, p.body.value;
      var family' := FamilyOf(ConnectorOf(b));
      var kept, restated := WithoutWindow(s.records, c', family', b.start, b.end), LastWins(RecordEntries(c', b));
      forall k | k in restated
        ensures !Belongs(k, restated[k], c, family, day)
        ensures k in kept ==> !Belongs(k, kept[k], c, family, day)
      {
        RecordRowOf(c', b, enums, k);
      }
      MergeKeeps(kept, restated, c, family, day);
      SweepKeeps(s.records, c', family', b.start, b.end, c, family, day);
    }
  }

  lemma {:induction false} RunsStayCoherent(s: Store, pushes: seq<Push>, enums: Enums)
    requires Coherent(s)
    ensures Coherent(Run(s, pushes, enums))
  {
    if pushes != [] {
      RunsStayCoherent(s, pushes[..|pushes|-1], enums);
      ApplyKeepsCoherence(Run(s, pushes[..|pushes|-1], enums), pushes[|pushes|-1], enums);
    }
  }

  /**
   After any pushes with overlapping windows, the rows of a source family on a day are exactly those of
   the last accepted push whose window covers the day, or the rows from before when there is none.
   */
  lemma {:induction false} LastCoveringPushWins(s: Store, pushes: seq<Push>, c: string, family: string, day: int, enums: Enums)
    requires Coherent(s)
    ensures RowsOn(Run(s, pushes, enums).records, c, family, day) ==
            match LastCovering(pushes, c, family, day, enums)
            case None => RowsOn(s.records, c, family, day)
            case Some(p) => RowsOn(LastWins(RecordEntries(c, p.body.value)), c, family, day)
  {
    if pushes != [] {
      var front, last := pushes[..|pushes|-1], pushes[|pushes|-1];
      RunsStayCoherent(s, front, enums);
      if Covers(last, c, family, day, enums) {
        CoveringPush(Run(s, front, enums), last, c, family, day, enums);
      } else {
        LastCoveringPushWins(s, front, c, family, day, enums);
        OtherPush(Run(s, front, enums), last, c, family, day, enums);
      }
    }
  }

  /** A rejected push changes nothing, and an accepted one changes no row of another connection, family or day. */
  lemma OnlyTheWindowChanges(s: Store, p: Push, enums: Enums, k: RecordKey)
    requires Coherent(s)
    requires !Covers(p, k.subject.connection, FamilyOf(k.source), k.day, enums)
    ensures k in Apply(s, p, enums).records <==> k in s.records
    ensures k in s.records ==> Apply(s, p, enums).records[k] == s.records[k]
    ensures Decide(p, enums).Rejected? ==> Apply(s, p, enums) == s
  {
    var after := Apply(s, p, enums).records;
    var c, family := k.subject.connection, FamilyOf(k.source);
    OtherPush(s, p, c, family, k.day, enums);
    ApplyKeepsCoherence(s, p, enums);
    assert k in s.records <==> k in RowsOn(s.records, c, family, k.day);
    assert k in after <==> k in RowsOn(after, c, family, k.day);
    assert k in s.records ==> RowsOn(s.records, c, family, k.day)[k] == s.records[k];
    assert k in after ==> RowsOn(after, c, family, k.day)[k] == after[k];
  }

  /** After a push, no row of its family in its window carries another version of the source. */
  lemma NoStaleVersion(s: Store, p: Push, enums: Enums, k: RecordKey)
    requires Coherent(s) && k in Apply(s, p, enums).records
    requires Covers(p, k.subject.connection, FamilyOf(k.source), k.day, enums)
    ensures k.source == ConnectorOf(p.body.value)
  {
    var c, family := k.subject.connection, FamilyOf(k.source);
    ApplyKeepsCoherence(s, p, enums);
    CoveringPush(s, p, c, family, k.day, enums);
    assert k in RowsOn(Apply(s, p, enums).records, c, family, k.day);
    RecordRowOf(c, p.body.value, enums, k);
  }

  // ---------- Replay ----------

  lemma SweptAndRestated(records: map<RecordKey, Row>, c: string, b: Batch, enums: Enums)
    requires Problem(b, enums).None?
    ensures var family, restated := FamilyOf(ConnectorOf(b)), LastWins(RecordEntries(c, b));
            var once := WithoutWindow(records, c, family, b.start, b.end) + restated;
            WithoutWindow(once, c, family, b.start, b.end) + restated == once
  {
    var restated := LastWins(RecordEntries(c, b));
    forall k | k in restated
      ensures Swept(k, restated[k], c, FamilyOf(ConnectorOf(b)), b.start, b.end)
    {
      RecordRowOf(c, b, enums, k);
    }
  }

  lemma SignalsSweptAndRestated(signals: map<SignalKey, SignalRow>, c: string, b: Batch, enums: Enums)
    requires Problem(b, enums).None?
    ensures var restated := LastWins(SignalEntries(c, b));
            var once := WithoutSignals(signals, c, b.start, b.end) + restated;
            WithoutSignals(once, c, b.start, b.end) + restated == once
  {
    var restated := LastWins(SignalEntries(c, b));
    forall k | k in restated ensures k.subject.connection == c && b.start <= k.day <= b.end {
      SignalRowOf(c, b, enums, k);
    }
  }

  lemma RestateTwice(s: Store, c: string, b: Batch, enums: Enums)
    requires Problem(b, enums).None?
    ensures Restate(Restate(s, c, b), c, b) == Restate(s, c, b)
  {
    var once := Restate(s, c, b);
    SweptAndRestated(s.records, c, b, enums);
    SignalsSweptAndRestated(s.signals, c, b, enums);
    assert Restate(once, c, b).records == once.records;
    assert Restate(once, c, b).signals == once.signals;
    assert Restate(once, c, b).subjects == once.subjects;
  }

  /** Replaying a push changes nothing. */
  lemma ReplayIsNoOp(s: Store, p: Push, enums: Enums)
    ensures Apply(Apply(s, p, enums), p, enums) == Apply(s, p, enums)
  {
    if Decide(p, enums).Accepted? {
      RestateTwice(s, p.auth.connection, p.body.value, enums);
    }
  }

  // ---------- The answer ----------

  lemma {:induction false} SubjectsCount(c: string, declared: set<(Kind, string)>, subjects: set<Subject>)
    requires subjects == set s | s in declared :: Subject(c, s.0, s.1)
    ensures |subjects| == |declared|
  {
    if declared != {} {
      var s := Pick(declared);
      var x := Subject(c, s.0, s.1);
      SubjectsCount(c, declared - {s}, subjects - {x});
      assert x in subjects;
    }
  }

  /**
   The answer to a push: a denied one and one with an invalid body are rejected as such; otherwise it is
   accepted exactly when the batch keeps every rule, with the numbers of distinct subjects, records and signals.
   */
  lemma AnsweredExactly(p: Push, enums: Enums)
    ensures p.auth.Denied? ==> Decide(p, enums) == Rejected(Unauthenticated(p.auth.status))
    ensures p.auth.Granted? && p.body.None? ==> Decide(p, enums) == Rejected(InvalidBody)
    ensures p.auth.Granted? && p.body.Some? ==>
              var b := p.body.value;
              && (Decide(p, enums).Accepted? <==> WellFormed(b, enums))
              && (Decide(p, enums).Accepted? ==> Decide(p, enums) == Accepted(|set x | x in b.subjects|, |b.records|, |b.signals|))
              && (Decide(p, enums).Rejected? ==> Problem(b, enums) == Some(Decide(p, enums).why))
  {
    if p.auth.Granted? && p.body.Some? {
      var b := p.body.value;
      AcceptedExactlyWhenWellFormed(b, enums);
      var declared := set x | x in b.subjects;
      SubjectsCount(p.auth.connection, declared, SubjectsOf(p.auth.connection, b));
    }
  }

  // ---------- What is stored, field by field ----------

  // The source string of a batch, written out.
  function SourceText(b: Batch): string {
    match b.source
    case None => "claude-code-local@" + Digits(b.version)
    case Some(ClaudeCodeLocal) => "claude-code-local@" + Digits(b.version)
    case Some(ClaudeExport) => "claude_export@1"
    case Some(AiTools) => "ai-tools@1"
  }

  lemma SourceIsWritten(b: Batch)
    ensures ConnectorOf(b) == SourceText(b)
  {
    assert Digits(1) == "1";
  }

  predicate SameRecordKey(r: Record, q: Record) {
    r.kind == q.kind && r.externalId == q.externalId && r.metric == q.metric && r.day == q.day && r.dim == q.dim
  }

  /**
   After an accepted push, each record that no later one of the batch repeats is stored with its own value
   and attribution, under its connection, subject, metric, day, dim and the source's string.
   */
  lemma RecordsAreStored(s: Store, p: Push, enums: Enums, i: nat)
    requires Decide(p, enums).Accepted? && i < |p.body.value.records|
    requires forall j | i < j < |p.body.value.records| :: !SameRecordKey(p.body.value.records[i], p.body.value.records[j])
    ensures var c, b, r := p.auth.connection, p.body.value, p.body.value.records[i];
            var k := RecordKey(Subject(c, r.kind, r.externalId), r.metric, r.day, r.dim, SourceText(b));
            && k in Apply(s, p, enums).records
            && Apply(s, p, enums).records[k] == Row(c, r.value, r.attribution)
  {
    var c, b := p.auth.connection, p.body.value;
    var entries := RecordEntries(c, b);
    SourceIsWritten(b);
    forall j | i < j < |entries| ensures entries[j].0 != entries[i].0 {
      assert !SameRecordKey(b.records[i], b.records[j]);
    }
    LastWinsMeaning(entries, i);
  }

  /** And every row of its family in its window is the row of one of its records. */
  lemma RowsComeFromRecords(s: Store, p: Push, enums: Enums, k: RecordKey)
    requires Coherent(s) && k in Apply(s, p, enums).records
    requires Covers(p, k.subject.connection, FamilyOf(k.source), k.day, enums)
    ensures exists r :: r in p.body.value.records
                        && k == RecordKey(Subject(p.auth.connection, r.kind, r.externalId), r.metric, r.day, r.dim,
                                          SourceText(p.body.value))
                        && Apply(s, p, enums).records[k] == Row(p.auth.connection, r.value, r.attribution)
  {
    var c, b, family := k.subject.connection, p.body.value, FamilyOf(k.source);
    ApplyKeepsCoherence(s, p, enums);
    CoveringPush(s, p, c, family, k.day, enums);
    assert k in RowsOn(Apply(s, p, enums).records, c, family, k.day);
    RecordRowOf(c, b, enums, k);
    SourceIsWritten(b);
    assert Apply(s, p, enums).records[k] == LastWins(RecordEntries(c, b))[k];
  }

  /** Each signal that no later one repeats for its subject and day is stored with its own fields. */
  lemma SignalsAreStored(s: Store, p: Push, enums: Enums, i: nat)
    requires Decide(p, enums).Accepted? && i < |p.body.value.signals|
    requires forall j | i < j < |p.body.value.signals| ::
               var x, y := p.body.value.signals[i], p.body.value.signals[j];
               !(x.kind == y.kind && x.externalId == y.externalId && x.day == y.day)
    ensures var x := p.body.value.signals[i];
            var k := SignalKey(Subject(p.auth.connection, x.kind, x.externalId), x.day);
            && k in Apply(s, p, enums).signals
            && Apply(s, p, enums).signals[k] == SignalRow(x.hours, x.peakConcurrency, x.granularity)
  {
    var entries := SignalEntries(p.auth.connection, p.body.value);
    LastWinsMeaning(entries, i);
  }

  /** An accepted push adds exactly its declared subjects, on its connection. */
  lemma SubjectsAreStored(s: Store, p: Push, enums: Enums, x: Subject)
    requires Decide(p, enums).Accepted?
    ensures x in Apply(s, p, enums).subjects <==>
            x in s.subjects || (x.connection == p.auth.connection && (x.kind, x.externalId) in p.body.value.subjects)
  {
    if x.connection == p.auth.connection && (x.kind, x.externalId) in p.body.value.subjects {
      assert Subject(p.auth.connection, x.kind, x.externalId) in SubjectsOf(p.auth.connection, p.body.value);
    }
  }

  // ---------- Sub-daily signals ----------

  predicate CoversSignals(p: Push, c: string, day: int, enums: Enums) {
    && Decide(p, enums).Accepted?
    && OwnsSignals(p.body.value)
    && p.auth.connection == c
    && p.body.value.start <= day <= p.body.value.end
  }

  function LastLive(pushes: seq<Push>, c: string, day: int, enums: Enums): (last: Option<Push>)
    ensures last.Some? ==> CoversSignals(last.value, c, day, enums)
  {
    if pushes == [] then None
    else if CoversSignals(pushes[|pushes|-1], c, day, enums) then Some(pushes[|pushes|-1])
    else LastLive(pushes[..|pushes|-1], c, day, enums)
  }

  function SignalsOn(signals: map<SignalKey, SignalRow>, c: string, day: int): map<SignalKey, SignalRow> {
    map k | k in signals && k.subject.connection == c && k.day == day :: signals[k]
  }

  // A push of another source than the live one that carries no signals.
  predicate LeavesSignals(p: Push, enums: Enums) {
    Decide(p, enums).Accepted? && !OwnsSignals(p.body.value) ==> p.body.value.signals == []
  }

  predicate OnDay(k: SignalKey, c: string, day: int) {
    k.subject.connection == c && k.day == day
  }

  lemma SignalsReplaced(kept: map<SignalKey, SignalRow>, restated: map<SignalKey, SignalRow>, c: string, day: int)
    requires forall k | k in kept :: !OnDay(k, c, day)
    ensures SignalsOn(kept + restated, c, day) == SignalsOn(restated, c, day)
  {
  }

  lemma SignalsKept(kept: map<SignalKey, SignalRow>, restated: map<SignalKey, SignalRow>, c: string, day: int)
    requires forall k | k in restated :: !OnDay(k, c, day)
    ensures SignalsOn(kept + restated, c, day) == SignalsOn(kept, c, day)
  {
  }

  lemma SignalsSwept(signals: map<SignalKey, SignalRow>, c': string, start: int, end: int, c: string, day: int)
    requires !(c' == c && start <= day <= end)
    ensures SignalsOn(WithoutSignals(signals, c', start, end), c, day) == SignalsOn(signals, c, day)
  {
  }

  lemma SignalsAfterBatch(s: Store, c': string, b: Batch, c: string, day: int, enums: Enums)
    requires Problem(b, enums).None? && OwnsSignals(b)
    ensures SignalsOn(Restate(s, c', b).signals, c, day) ==
            if c' == c && b.start <= day <= b.end then SignalsOn(LastWins(SignalEntries(c', b)), c, day)
            else SignalsOn(s.signals, c, day)
  {
    var kept, restated := WithoutSignals(s.signals, c', b.start, b.end), LastWins(SignalEntries(c', b));
    if c' == c && b.start <= day <= b.end {
      SignalsReplaced(kept, restated, c, day);
    } else {
      forall k | k in restated ensures !OnDay(k, c, day) {
        SignalRowOf(c', b, enums, k);
      }
      SignalsKept(kept, restated, c, day);
      SignalsSwept(s.signals, c', b.start, b.end, c, day);
    }
  }

  lemma SignalsAfterPush(s: Store, p: Push, c: string, day: int, enums: Enums)
    requires LeavesSignals(p, enums)
    ensures SignalsOn(Apply(s, p, enums).signals, c, day) ==
            if CoversSignals(p, c, day, enums) then SignalsOn(LastWins(SignalEntries(c, p.body.value)), c, day)
            else SignalsOn(s.signals, c, day)
  {
    if Decide(p, enums).Accepted? {
      var c', b := p.auth.connection, p.body.value;
      if OwnsSignals(b) {
        SignalsAfterBatch(s, c', b, c, day, enums);
      } else {
        assert SignalEntries(c', b) == [];
      }
    }
  }

  /** Where no other source carries signals, the signals of a day are those of the last live push that covers it. */
  lemma {:induction false} LastLivePushOwnsSignals(s: Store, pushes: seq<Push>, c: string, day: int, enums: Enums)
    requires forall p | p in pushes :: LeavesSignals(p, enums)
    ensures SignalsOn(Run(s, pushes, enums).signals, c, day) ==
            match LastLive(pushes, c, day, enums)
            case None => SignalsOn(s.signals, c, day)
            case Some(p) => SignalsOn(LastWins(SignalEntries(c, p.body.value)), c, day)
  {
    if pushes != [] {
      var front, last := pushes[..|pushes|-1], pushes[|pushes|-1];
      assert last in pushes;
      assert forall p | p in front :: p in pushes;
      LastLivePushOwnsSignals(s, front, c, day, enums);
      SignalsAfterPush(Run(s, front, enums), last, c, day, enums);
    }
  }

  /**
   The source states that only the live source writes signals, but every accepted push upserts those it
   carries. A push of another source leaves the signals of every store alone exactly when it carries none.
   */
  lemma OthersLeaveSignalsExactlyWhen(p: Push, enums: Enums)
    requires Decide(p, enums).Accepted? && !OwnsSignals(p.body.value)
    ensures (forall s: Store :: Apply(s, p, enums).signals == s.signals) <==> p.body.value.signals == []
  {
    var c, b := p.auth.connection, p.body.value;
    if b.signals == [] {
      assert SignalEntries(c, b) == [];
      forall s: Store ensures Apply(s, p, enums).signals == s.signals {
      }
    } else {
      var entries := SignalEntries(c, b);
      var last := |entries| - 1;
      LastWinsMeaning(entries, last);
      var empty := Store({}, map[], map[]);
      assert entries[last].0 in Apply(empty, p, enums).signals;
      assert Apply(empty, p, enums).signals != empty.signals;
    }
  }

  /** It happens: an accepted export push with one signal overwrites the signal that the live source stored. */
  lemma ExportOverwritesSignal(enums: Enums) returns (s: Store, p: Push, k: SignalKey)
    ensures Decide(p, enums).Accepted? && !OwnsSignals(p.body.value)
    ensures k in s.signals && k in Apply(s, p, enums).signals && Apply(s, p, enums).signals[k] != s.signals[k]
  {
    var signal := Signal(PersonKind, "ann", 10, None, Some(1), "1h");
    var b := Batch(Some(ClaudeExport), 1, 10, 10, [(PersonKind, "ann")], [], [signal]);
    k := SignalKey(Subject("laptop", PersonKind, "ann"), 10);
    s := Store({k.subject}, map[], map[k := SignalRow(None, Some(3), "event")]);
    p := Push(Granted("laptop"), Some(b));
    assert WellFormed(b, enums);
    AcceptedExactlyWhenWellFormed(b, enums);
    var entries := SignalEntries("laptop", b);
    assert entries[0] == (k, SignalRow(None, Some(1), "1h"));
    LastWinsMeaning(entries, 0);
  }

  // ---------- Attribution and dims ----------

  ghost predicate HonestRow(k: RecordKey, row: Row, enums: Enums) {
    RecordIsHonest(Record(k.subject.kind, k.subject.externalId, k.metric, k.day, k.dim, row.value, row.attribution), enums)
  }

  ghost predicate HonestStore(s: Store, enums: Enums) {
    forall k | k in s.records :: HonestRow(k, s.records[k], enums)
  }

  lemma PushIsHonest(s: Store, p: Push, enums: Enums)
    requires HonestStore(s, enums)
    ensures HonestStore(Apply(s, p, enums), enums)
  {
    if Decide(p, enums).Accepted? {
      var c, b := p.auth.connection, p.body.value;
      var restated := LastWins(RecordEntries(c, b));
      AcceptedExactlyWhenWellFormed(b, enums);
      forall k | k in restated ensures HonestRow(k, restated[k], enums) {
        RecordRowOf(c, b, enums, k);
      }
    }
  }

  /**
   Whatever is pushed, a stored row is never attributed to a person unless its subject is one, and its
   dim stays short, free of control characters and inside the closed sets.
   */
  lemma {:induction false} RunsStayHonest(s: Store, pushes: seq<Push>, enums: Enums)
    requires HonestStore(s, enums)
    ensures HonestStore(Run(s, pushes, enums), enums)
  {
    if pushes != [] {
      RunsStayHonest(s, pushes[..|pushes|-1], enums);
      PushIsHonest(Run(s, pushes[..|pushes|-1], enums), pushes[|pushes|-1], enums);
    }
  }

  /** Every stored row and signal belongs to a stored subject. */
  ghost predicate Rooted(s: Store) {
    && (forall k | k in s.records :: k.subject in s.subjects)
    && (forall k | k in s.signals :: k.subject in s.subjects)
  }

  lemma PushStaysRooted(s: Store, p: Push, enums: Enums)
    requires Rooted(s)
    ensures Rooted(Apply(s, p, enums))
  {
    if Decide(p, enums).Accepted? {
      var c, b := p.auth.connection, p.body.value;
      AcceptedExactlyWhenWellFormed(b, enums);
      forall k | k in LastWins(RecordEntries(c, b)) ensures k.subject in SubjectsOf(c, b) {
        RecordRowOf(c, b, enums, k);
        var r :| r in b.records && k == RecordEntry(c, ConnectorOf(b), r).0;
        assert (r.kind, r.externalId) in b.subjects;
      }
      forall k | k in LastWins(SignalEntries(c, b)) ensures k.subject in SubjectsOf(c, b) {
        LastWinsFrom(SignalEntries(c, b), k);
        var i :| 0 <= i < |b.signals| && SignalEntries(c, b)[i].0 == k;
        assert b.signals[i] in b.signals;
        assert (b.signals[i].kind, b.signals[i].externalId) in b.subjects;
      }
    }
  }

  /** No push can store a row or a signal for a subject it did not declare or that was not known before. */
  lemma {:induction false} RunsStayRooted(s: Store, pushes: seq<Push>, enums: Enums)
    requires Rooted(s)
    ensures Rooted(Run(s, pushes, enums))
  {
    if pushes != [] {
      RunsStayRooted(s, pushes[..|pushes|-1], enums);
      PushStaysRooted(Run(s, pushes[..|pushes|-1], enums), pushes[|pushes|-1], enums);
    }
  }
}
