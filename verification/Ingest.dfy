/**
 Agent ingest (src/lib/agent-ingest.ts): a push is validated and then replaces the window of its
 source family on its connection. The table operations are those of src/db/org-scope/metrics.ts.
 A subject is identified by its unique key, the connection with the kind and the external id.
 */
module Ingest {
  import opened Attribution
  import opened Wrappers

  const MAX_DIM_LENGTH := 128
  const BATCH := 500

  datatype Kind = PersonKind | ApiKey | ServiceAccount | Workspace | Project | AccountKind

  datatype Source = ClaudeCodeLocal | ClaudeExport | AiTools

  datatype Subject = Subject(connection: string, kind: Kind, externalId: string)

  datatype Record = Record(kind: Kind, externalId: string, metric: string, day: int, dim: string, value: real,
                           attribution: Level)

  datatype Signal = Signal(kind: Kind, externalId: string, day: int, hours: Option<seq<nat>>,
                           peakConcurrency: Option<nat>, granularity: string)

  // A body that the request schema accepts.
  datatype Batch = Batch(source: Option<Source>, version: nat, start: int, end: int,
                         subjects: seq<(Kind, string)>, records: seq<Record>, signals: seq<Signal>)

  // The stored rows and their keys.
  datatype RecordKey = RecordKey(subject: Subject, metric: string, day: int, dim: string, source: string)

  datatype Row = Row(connection: string, value: real, attribution: Level)

  datatype SignalKey = SignalKey(subject: Subject, day: int)

  datatype SignalRow = SignalRow(hours: Option<seq<nat>>, peakConcurrency: Option<nat>, granularity: string)

  datatype Store = Store(subjects: set<Subject>, records: map<RecordKey, Row>, signals: map<SignalKey, SignalRow>)

  // What authentication and the request schema made of a call.
  datatype Auth = Denied(status: int) | Granted(connection: string)

  datatype Push = Push(auth: Auth, body: Option<Batch>)

  datatype Rejection =
    | Unauthenticated(status: int)
    | InvalidBody
    | WindowReversed
    | UndeclaredSubject(kind: Kind, externalId: string)
    | DayOutsideWindow(day: int)
    | FabricatedPerson(kind: Kind)
    | UnsafeDim
    | UnknownTool
    | UnknownCategory

  datatype Outcome = Accepted(subjects: nat, records: nat, signals: nat) | Rejected(why: Rejection)

  // The closed sets of application ids and of task categories.
  datatype Enums = Enums(tools: set<string>, categories: set<string>)

  // ---------- Sources and their families ----------

  function Digits(n: nat): string {
    if n < 10 then [('0' as int + n) as char] else Digits(n / 10) + [('0' as int + n % 10) as char]
  }

  function ModuleId(source: Source): string {
    match source
    case ClaudeExport => "claude_export"
    case AiTools => "ai-tools"
    case ClaudeCodeLocal => "claude-code-local"
  }

  function AgentSourceConnector(source: Source, summarizerVersion: nat): string {
    match source
    case ClaudeExport => "claude_export" + "@" + Digits(1)
    case AiTools => "ai-tools" + "@" + Digits(1)
    case ClaudeCodeLocal => "claude-code-local" + "@" + Digits(summarizerVersion)
  }

  function ReadDigits(text: string): int {
    if text == [] then 0 else 10 * ReadDigits(text[..|text|-1]) + (text[|text|-1] as int - '0' as int)
  }

  lemma {:induction false} ReadLast(text: string, c: char)
    ensures ReadDigits(text + [c]) == 10 * ReadDigits(text) + (c as int - '0' as int)
  {
    assert (text + [c])[..|text|] == text;
  }

  /** A version is written in decimal digits that read back as it, without a leading zero. */
  lemma {:induction false} DigitsReadBack(n: nat)
    ensures ReadDigits(Digits(n)) == n && (forall c | c in Digits(n) :: '0' <= c <= '9')
    ensures Digits(n) != [] && (Digits(n)[0] == '0' ==> n == 0)
  {
    if n < 10 {
      ReadLast([], Digits(n)[0]);
      assert Digits(n) == [] + [Digits(n)[0]];
    } else {
      DigitsReadBack(n / 10);
      ReadLast(Digits(n / 10), ('0' as int + n % 10) as char);
    }
  }

  // The part before the first '@'.
  function FamilyOf(sourceConnector: string): string {
    if sourceConnector == [] || sourceConnector[0] == '@' then []
    else [sourceConnector[0]] + FamilyOf(sourceConnector[1..])
  }

  lemma {:induction false} FamilyOfVersion(id: string, version: string)
    requires '@' !in id
    ensures FamilyOf(id + "@" + version) == id
  {
    var whole := id + "@" + version;
    if id == [] {
      assert whole[0] == '@';
    } else {
      assert id[0] in id;
      assert whole[1..] == id[1..] + "@" + version;
      FamilyOfVersion(id[1..], version);
    }
  }

  /** Every version of a source has the family of its module, and different sources have different families. */
  lemma FamiliesAreDistinct(s: Source, v: nat, s': Source, v': nat)
    ensures FamilyOf(AgentSourceConnector(s, v)) == ModuleId(s)
    ensures FamilyOf(AgentSourceConnector(s, v)) == FamilyOf(AgentSourceConnector(s', v')) <==> s == s'
  {
    FamilyOfSource(s, v);
    FamilyOfSource(s', v');
    assert |ModuleId(ClaudeExport)| == 13 && |ModuleId(AiTools)| == 8 && |ModuleId(ClaudeCodeLocal)| == 17;
  }

  lemma FamilyOfSource(s: Source, v: nat)
    ensures FamilyOf(AgentSourceConnector(s, v)) == ModuleId(s)
  {
    FamilyOfVersion(ModuleId(s), Digits(if s == ClaudeCodeLocal then v else 1));
  }

  // ---------- Validation ----------

  function Declared(b: Batch): set<(Kind, string)> {
    set s | s in b.subjects
  }

  // The items of a batch that reference a subject and a day, records before signals.
  datatype Item = Item(kind: Kind, externalId: string, day: int)

  function Items(b: Batch): (items: seq<Item>)
    ensures |items| == |b.records| + |b.signals|
  {
    seq(|b.records|, i requires 0 <= i < |b.records| =>
      Item(b.records[i].kind, b.records[i].externalId, b.records[i].day)) +
    seq(|b.signals|, i requires 0 <= i < |b.signals| =>
      Item(b.signals[i].kind, b.signals[i].externalId, b.signals[i].day))
  }

  function ItemProblem(item: Item, b: Batch): Option<Rejection> {
    if (item.kind, item.externalId) !in Declared(b) then Some(UndeclaredSubject(item.kind, item.externalId))
    else if item.day < b.start || item.day > b.end then Some(DayOutsideWindow(item.day))
    else None
  }

  predicate HasControlChar(dim: string) {
    exists c | c in dim :: c as int <= 0x20
  }

  predicate InEnum(dim: string, prefix: string, ids: set<string>) {
    prefix <= dim && dim[|prefix|..] in ids
  }

  function RecordProblem(r: Record, enums: Enums): Option<Rejection> {
    if r.attribution == Person && r.kind != PersonKind then Some(FabricatedPerson(r.kind))
    else if |r.dim| > MAX_DIM_LENGTH || HasControlChar(r.dim) then Some(UnsafeDim)
    else if r.metric == "ai_tool_used" && !InEnum(r.dim, "tool=", enums.tools) then Some(UnknownTool)
    else if r.metric == "task_category" && !InEnum(r.dim, "task_category=", enums.categories) then Some(UnknownCategory)
    else None
  }

  // The first problem of the first item or record that has one.
  function FirstItemProblem(items: seq<Item>, b: Batch): Option<Rejection> {
    if items == [] then None
    else if ItemProblem(items[0], b).Some? then ItemProblem(items[0], b)
    else FirstItemProblem(items[1..], b)
  }

  function FirstRecordProblem(records: seq<Record>, enums: Enums): Option<Rejection> {
    if records == [] then None
    else if RecordProblem(records[0], enums).Some? then RecordProblem(records[0], enums)
    else FirstRecordProblem(records[1..], enums)
  }

  function Problem(b: Batch, enums: Enums): Option<Rejection> {
    if b.start > b.end then Some(WindowReversed)
    else if FirstItemProblem(Items(b), b).Some? then FirstItemProblem(Items(b), b)
    else FirstRecordProblem(b.records, enums)
  }

  method Validate(b: Batch, enums: Enums) returns (problem: Option<Rejection>)
    ensures problem == Problem(b, enums)
  {
    if b.start > b.end {
      return Some(WindowReversed);
    }
    var items := Items(b);
    for i := 0 to |items|
      invariant FirstItemProblem(items, b) == FirstItemProblem(items[i..], b)
    {
      var item := items[i];
      assert items[i..][1..] == items[i+1..];
      if (item.kind, item.externalId) !in Declared(b) {
        return Some(UndeclaredSubject(item.kind, item.externalId));
      }
      if item.day < b.start || item.day > b.end {
        return Some(DayOutsideWindow(item.day));
      }
    }
    for i := 0 to |b.records|
      invariant FirstRecordProblem(b.records, enums) == FirstRecordProblem(b.records[i..], enums)
    {
      assert b.records[i..][1..] == b.records[i+1..];
      problem := RecordProblem(b.records[i], enums);
      if problem.Some? {
        return;
      }
    }
    return None;
  }

  // A batch that keeps every rule.
  ghost predicate WellFormed(b: Batch, enums: Enums) {
    && b.start <= b.end
    && (forall r | r in b.records ::
          && (r.kind, r.externalId) in b.subjects
          && b.start <= r.day <= b.end
          && RecordIsHonest(r, enums))
    && (forall s | s in b.signals :: (s.kind, s.externalId) in b.subjects && b.start <= s.day <= b.end)
  }

  ghost predicate RecordIsHonest(r: Record, enums: Enums) {
    && (r.attribution == Person ==> r.kind == PersonKind)
    && |r.dim| <= 128
    && (forall c | c in r.dim :: c as int > 0x20)
    && (r.metric == "ai_tool_used" ==> exists id :: id in enums.tools && r.dim == "tool=" + id)
    && (r.metric == "task_category" ==> exists id :: id in enums.categories && r.dim == "task_category=" + id)
  }

  /** A batch is accepted exactly when it keeps every rule. */
  lemma AcceptedExactlyWhenWellFormed(b: Batch, enums: Enums)
    ensures Problem(b, enums).None? <==> WellFormed(b, enums)
  {
    ItemsAreFine(Items(b), b);
    RecordsAreFine(b.records, enums);
    ItemsOfBatch(b);
  }

  lemma ItemsOfBatch(b: Batch)
    ensures (forall item | item in Items(b) :: ItemProblem(item, b).None?) <==>
            && (forall r | r in b.records :: ItemProblem(Item(r.kind, r.externalId, r.day), b).None?)
            && (forall s | s in b.signals :: ItemProblem(Item(s.kind, s.externalId, s.day), b).None?)
  {
    var items, n := Items(b), |b.records|;
    forall r | r in b.records ensures Item(r.kind, r.externalId, r.day) in items {
      var i :| 0 <= i < n && b.records[i] == r;
      assert items[i] == Item(r.kind, r.externalId, r.day);
    }
    forall s | s in b.signals ensures Item(s.kind, s.externalId, s.day) in items {
      var i :| 0 <= i < |b.signals| && b.signals[i] == s;
      assert items[n + i] == Item(s.kind, s.externalId, s.day);
    }
    forall item | item in items
      ensures (exists r :: r in b.records && item == Item(r.kind, r.externalId, r.day)) ||
              (exists s :: s in b.signals && item == Item(s.kind, s.externalId, s.day))
    {
      var i :| 0 <= i < |items| && items[i] == item;
      if i < n {
        assert b.records[i] in b.records;
      } else {
        assert b.signals[i - n] in b.signals;
      }
    }
  }

  lemma {:induction false} ItemsAreFine(items: seq<Item>, b: Batch)
    ensures FirstItemProblem(items, b).None? <==> forall item | item in items :: ItemProblem(item, b).None?
  {
    if items != [] {
      ItemsAreFine(items[1..], b);
      assert forall item :: item in items <==> item == items[0] || item in items[1..];
    }
  }

  lemma {:induction false} RecordsAreFine(records: seq<Record>, enums: Enums)
    ensures FirstRecordProblem(records, enums).None? <==> forall r | r in records :: RecordIsHonest(r, enums)
  {
    if records != [] {
      RecordsAreFine(records[1..], enums);
      RecordIsFine(records[0], enums);
      assert forall r :: r in records <==> r == records[0] || r in records[1..];
    }
  }

  lemma InEnumMeaning(dim: string, prefix: string, ids: set<string>)
    ensures InEnum(dim, prefix, ids) <==> exists id :: id in ids && dim == prefix + id
  {
    if InEnum(dim, prefix, ids) {
      assert dim == prefix + dim[|prefix|..];
    }
  }

  lemma RecordIsFine(r: Record, enums: Enums)
    ensures RecordProblem(r, enums).None? <==> RecordIsHonest(r, enums)
  {
    InEnumMeaning(r.dim, "tool=", enums.tools);
    InEnumMeaning(r.dim, "task_category=", enums.categories);
  }

  /** What the check of a record answers, reason by reason and in this order. */
  lemma RecordProblemExactly(r: Record, enums: Enums)
    ensures var person := r.attribution == Person && r.kind != PersonKind;
            var unsafe := |r.dim| > 128 || exists c :: c in r.dim && c as int <= 32;
            var tool := r.metric == "ai_tool_used" && forall id | id in enums.tools :: r.dim != "tool=" + id;
            var category := r.metric == "task_category" && forall id | id in enums.categories :: r.dim != "task_category=" + id;
            RecordProblem(r, enums) ==
            if person then Some(FabricatedPerson(r.kind)) else if unsafe then Some(UnsafeDim)
            else if tool then Some(UnknownTool) else if category then Some(UnknownCategory) else None
  {
    InEnumMeaning(r.dim, "tool=", enums.tools);
    InEnumMeaning(r.dim, "task_category=", enums.categories);
  }

  // The item references a declared subject and a day of the window.
  predicate Fits(item: Item, b: Batch) {
    (item.kind, item.externalId) in b.subjects && b.start <= item.day <= b.end
  }

  lemma {:induction false} FirstItemProblemExactly(items: seq<Item>, b: Batch)
    ensures match FirstItemProblem(items, b)
            case None => forall i | 0 <= i < |items| :: Fits(items[i], b)
            case Some(why) => exists i :: 0 <= i < |items| && !Fits(items[i], b) && (forall j | 0 <= j < i :: Fits(items[j], b))
                                          && why == if (items[i].kind, items[i].externalId) !in b.subjects
                                                    then UndeclaredSubject(items[i].kind, items[i].externalId)
                                                    else DayOutsideWindow(items[i].day)
  {
    if items != [] {
      var rest := items[1..];
      FirstItemProblemExactly(rest, b);
      if Fits(items[0], b) {
        if FirstItemProblem(rest, b).Some? {
          var i :| 0 <= i < |rest| && !Fits(rest[i], b) && (forall j | 0 <= j < i :: Fits(rest[j], b))
                   && FirstItemProblem(rest, b).value == if (rest[i].kind, rest[i].externalId) !in b.subjects
                                                         then UndeclaredSubject(rest[i].kind, rest[i].externalId)
                                                         else DayOutsideWindow(rest[i].day);
          assert items[i+1] == rest[i];
          forall j | 0 <= j < i + 1 ensures Fits(items[j], b) {
            assert j > 0 ==> items[j] == rest[j-1];
          }
        } else {
          forall i | 0 <= i < |items| ensures Fits(items[i], b) {
            assert i > 0 ==> items[i] == rest[i-1];
          }
        }
      } else {
        assert (items[0].kind, items[0].externalId) !in b.subjects ==> (items[0].kind, items[0].externalId) !in Declared(b);
      }
    }
  }

  lemma {:induction false} FirstRecordProblemExactly(records: seq<Record>, enums: Enums)
    ensures match FirstRecordProblem(records, enums)
            case None => forall i | 0 <= i < |records| :: RecordIsHonest(records[i], enums)
            case Some(why) => exists i :: 0 <= i < |records| && !RecordIsHonest(records[i], enums)
                                          && (forall j | 0 <= j < i :: RecordIsHonest(records[j], enums))
                                          && RecordProblem(records[i], enums) == Some(why)
  {
    if records != [] {
      var rest := records[1..];
      RecordIsFine(records[0], enums);
      FirstRecordProblemExactly(rest, enums);
      if RecordIsHonest(records[0], enums) {
        if FirstRecordProblem(rest, enums).Some? {
          var i :| 0 <= i < |rest| && !RecordIsHonest(rest[i], enums)
                   && (forall j | 0 <= j < i :: RecordIsHonest(rest[j], enums))
                   && RecordProblem(rest[i], enums) == FirstRecordProblem(rest, enums);
          assert records[i+1] == rest[i];
          forall j | 0 <= j < i + 1 ensures RecordIsHonest(records[j], enums) {
            assert j > 0 ==> records[j] == rest[j-1];
          }
        } else {
          forall i | 0 <= i < |records| ensures RecordIsHonest(records[i], enums) {
            assert i > 0 ==> records[i] == rest[i-1];
          }
        }
      }
    }
  }

  // The subjects and days of a batch are those of its records, followed by those of its signals.
  ghost predicate ListsItems(items: seq<Item>, b: Batch) {
    && |items| == |b.records| + |b.signals|
    && (forall i | 0 <= i < |b.records| :: items[i] == Item(b.records[i].kind, b.records[i].externalId, b.records[i].day))
    && (forall i | 0 <= i < |b.signals| ::
          items[|b.records| + i] == Item(b.signals[i].kind, b.signals[i].externalId, b.signals[i].day))
  }

  /**
   Which problem a batch is rejected for: a reversed window; otherwise the first item, records before signals,
   with an undeclared subject or a day outside the window; otherwise the first record that breaks a rule.
   */
  lemma RejectedExactly(b: Batch, enums: Enums) returns (items: seq<Item>)
    ensures ListsItems(items, b)
    ensures Problem(b, enums) == Some(WindowReversed) <==> b.start > b.end
    ensures b.start <= b.end && Problem(b, enums).Some? ==>
              if exists i :: 0 <= i < |items| && !Fits(items[i], b)
              then exists i :: 0 <= i < |items| && !Fits(items[i], b) && (forall j | 0 <= j < i :: Fits(items[j], b))
                               && Problem(b, enums).value == if (items[i].kind, items[i].externalId) !in b.subjects
                                                             then UndeclaredSubject(items[i].kind, items[i].externalId)
                                                             else DayOutsideWindow(items[i].day)
              else exists i :: 0 <= i < |b.records| && !RecordIsHonest(b.records[i], enums)
                               && (forall j | 0 <= j < i :: RecordIsHonest(b.records[j], enums))
                               && RecordProblem(b.records[i], enums) == Problem(b, enums)
  {
    items := Items(b);
    FirstItemProblemExactly(items, b);
    FirstRecordProblemExactly(b.records, enums);
    RecordReasons(b.records, enums);
  }

  // A record is never rejected for its window.
  lemma {:induction false} RecordReasons(records: seq<Record>, enums: Enums)
    ensures FirstRecordProblem(records, enums) != Some(WindowReversed)
  {
    if records != [] {
      RecordReasons(records[1..], enums);
    }
  }

  // ---------- The rows a push leaves ----------

  function SourceOf(b: Batch): Source {
    b.source.GetOr(ClaudeCodeLocal)
  }

  function ConnectorOf(b: Batch): string {
    AgentSourceConnector(SourceOf(b), b.version)
  }

  function OwnsSignals(b: Batch): bool {
    SourceOf(b) == ClaudeCodeLocal
  }

  function SubjectsOf(c: string, b: Batch): set<Subject> {
    set s | s in b.subjects :: Subject(c, s.0, s.1)
  }

  function RecordEntry(c: string, source: string, r: Record): (RecordKey, Row) {
    (RecordKey(Subject(c, r.kind, r.externalId), r.metric, r.day, r.dim, source), Row(c, r.value, r.attribution))
  }

  function RecordEntries(c: string, b: Batch): (entries: seq<(RecordKey, Row)>)
    ensures |entries| == |b.records|
    ensures forall i | 0 <= i < |entries| :: entries[i] == RecordEntry(c, ConnectorOf(b), b.records[i])
  {
    seq(|b.records|, i requires 0 <= i < |b.records| => RecordEntry(c, ConnectorOf(b), b.records[i]))
  }

  function SignalEntry(c: string, s: Signal): (SignalKey, SignalRow) {
    (SignalKey(Subject(c, s.kind, s.externalId), s.day), SignalRow(s.hours, s.peakConcurrency, s.granularity))
  }

  function SignalEntries(c: string, b: Batch): (entries: seq<(SignalKey, SignalRow)>)
    ensures |entries| == |b.signals|
    ensures forall i | 0 <= i < |entries| :: entries[i] == SignalEntry(c, b.signals[i])
  {
    seq(|b.signals|, i requires 0 <= i < |b.signals| => SignalEntry(c, b.signals[i]))
  }

  // The last entry of a key wins.
  function LastWins<K, V>(entries: seq<(K, V)>): map<K, V> {
    if entries == [] then map[]
    else LastWins(entries[..|entries|-1])[entries[|entries|-1].0 := entries[|entries|-1].1]
  }

  predicate Swept(k: RecordKey, row: Row, c: string, family: string, start: int, end: int) {
    row.connection == c && FamilyOf(k.source) == family && start <= k.day <= end
  }

  function WithoutWindow(records: map<RecordKey, Row>, c: string, family: string, start: int, end: int): map<RecordKey, Row> {
    map k | k in records && !Swept(k, records[k], c, family, start, end) :: records[k]
  }

  function WithoutSignals(signals: map<SignalKey, SignalRow>, c: string, start: int, end: int): map<SignalKey, SignalRow> {
    map k | k in signals && !(k.subject.connection == c && start <= k.day <= end) :: signals[k]
  }

  // The store after an accepted batch.
  function Restate(s: Store, c: string, b: Batch): Store {
    Store(s.subjects + SubjectsOf(c, b),
          WithoutWindow(s.records, c, FamilyOf(ConnectorOf(b)), b.start, b.end) + LastWins(RecordEntries(c, b)),
          (if OwnsSignals(b) then WithoutSignals(s.signals, c, b.start, b.end) else s.signals)
          + LastWins(SignalEntries(c, b)))
  }

  function Decide(p: Push, enums: Enums): Outcome {
    if p.auth.Denied? then Rejected(Unauthenticated(p.auth.status))
    else if p.body.None? then Rejected(InvalidBody)
    else if Problem(p.body.value, enums).Some? then Rejected(Problem(p.body.value, enums).value)
    else
      var b := p.body.value;
      Accepted(|SubjectsOf(p.auth.connection, b)|, |b.records|, |b.signals|)
  }

  function Apply(s: Store, p: Push, enums: Enums): Store {
    if Decide(p, enums).Accepted? then Restate(s, p.auth.connection, p.body.value) else s
  }

  // ---------- The tables ----------

  // Writes entries in slices of BATCH after keeping the last entry of each key.
  method Dedupe<K(==, !new), V>(entries: seq<(K, V)>) returns (order: seq<K>, byPk: map<K, V>)
    ensures byPk == LastWins(entries)
    ensures forall k :: k in order <==> k in byPk
  {
    order, byPk := [], map[];
    for i := 0 to |entries|
      invariant byPk == LastWins(entries[..i])
      invariant forall k :: k in order <==> k in byPk
    {
      assert entries[..i+1][..i] == entries[..i];
      var (k, v) := entries[i];
      if k !in byPk {
        order := order + [k];
      }
      byPk := byPk[k := v];
    }
    assert entries[..|entries|] == entries;
  }

  function Restrict<K, V>(m: map<K, V>, order: seq<K>): map<K, V>
    requires forall k | k in order :: k in m
  {
    map k | k in order :: m[k]
  }

  lemma RestrictSplits<K(!new), V>(m: map<K, V>, order: seq<K>, i: nat, j: nat)
    requires i <= j <= |order| && (forall k | k in order :: k in m)
    ensures Restrict(m, order[..j]) == Restrict(m, order[..i]) + Restrict(m, order[i..j])
  {
    assert order[..j] == order[..i] + order[i..j];
    forall k ensures k in order[..j] <==> k in order[..i] || k in order[i..j] {
    }
  }

  lemma UpsertSlice<K(!new), V>(table: map<K, V>, m: map<K, V>, order: seq<K>, i: nat, j: nat)
    requires i <= j <= |order| && (forall k | k in order :: k in m)
    ensures table + Restrict(m, order[..i]) + Restrict(m, order[i..j]) == table + Restrict(m, order[..j])
  {
    RestrictSplits(m, order, i, j);
  }

  lemma RestrictAll<K(!new), V>(m: map<K, V>, order: seq<K>)
    requires forall k :: k in order <==> k in m
    ensures Restrict(m, order[..|order|]) == m
  {
    assert order[..|order|] == order;
  }

  method Upsert<K(==, !new), V>(table: map<K, V>, entries: seq<(K, V)>) returns (after: map<K, V>)
    ensures after == table + LastWins(entries)
  {
    var order, byPk := Dedupe(entries);
    after := table;
    var i := 0;
    while i < |order|
      invariant i <= |order| && after == table + Restrict(byPk, order[..i])
    {
      var next := if i + BATCH < |order| then i + BATCH else |order|;
      UpsertSlice(table, byPk, order, i, next);
      after := after + Restrict(byPk, order[i..next]);
      i := next;
    }
    RestrictAll(byPk, order);
  }

  class Tables {
    var store: Store

    method DeleteWindowForConnection(c: string, sourceConnector: string, start: int, end: int, deleteSignals: bool)
      modifies this
      ensures store == old(store).(
                       records := WithoutWindow(old(store).records, c, FamilyOf(sourceConnector), start, end),
                       signals := if deleteSignals then WithoutSignals(old(store).signals, c, start, end) else old(store).signals)
    {
      store := store.(records := WithoutWindow(store.records, c, FamilyOf(sourceConnector), start, end));
      if !deleteSignals {
        return;
      }
      store := store.(signals := WithoutSignals(store.signals, c, start, end));
    }

    method IngestAgentBatch(p: Push, enums: Enums) returns (outcome: Outcome)
      modifies this
      ensures outcome == Decide(p, enums)
      ensures store == Apply(old(store), p, enums)
    {
      if p.auth.Denied? {
        return Rejected(Unauthenticated(p.auth.status));
      }
      if p.body.None? {
        return Rejected(InvalidBody);
      }
      var c, b := p.auth.connection, p.body.value;
      var problem := Validate(b, enums);
      if problem.Some? {
        return Rejected(problem.value);
      }
      var subjectRows := SubjectsOf(c, b);
      store := store.(subjects := store.subjects + subjectRows);
      DeleteWindowForConnection(c, ConnectorOf(b), b.start, b.end, OwnsSignals(b));
      var records := Upsert(store.records, RecordEntries(c, b));
      var signals := Upsert(store.signals, SignalEntries(c, b));
      store := store.(records := records, signals := signals);
      outcome := Accepted(|subjectRows|, |b.records|, |b.signals|);
    }
  }
}
