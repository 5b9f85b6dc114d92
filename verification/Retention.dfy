/**
 Purging the operational logs in bounded batches (src/db/system.ts) and repeating the purge while it is
 capped (src/poller/process.ts). Times are milliseconds. Which expired rows a batch selects is arbitrary.
 */
module Retention {
  import opened Wrappers

  const DAY_MS := 24 * 60 * 60 * 1000
  const AUDIT_LOG_RETENTION_DAYS := 365
  const POLL_HEARTBEATS_RETENTION_DAYS := 30
  const CONNECTOR_RUNS_RETENTION_DAYS := 90
  const DEFAULT_BATCH_SIZE := 5000
  const DEFAULT_MAX_BATCHES := 4

  // A row of one of the logs; only connector runs have a kind and a connection.
  datatype Row = Row(stamp: int, kind: string, connection: string)

  // Which rows of a log have expired.
  datatype Rule = Stamped(cutoff: int) | StampedOfKind(cutoff: int, kinds: set<string>)

  function CutoffDaysAgo(now: int, days: nat): int {
    now - days * DAY_MS
  }

  function AuditRule(now: int): Rule {
    Stamped(CutoffDaysAgo(now, AUDIT_LOG_RETENTION_DAYS))
  }

  function HeartbeatRule(now: int): Rule {
    Stamped(CutoffDaysAgo(now, POLL_HEARTBEATS_RETENTION_DAYS))
  }

  function RunRule(now: int): Rule {
    StampedOfKind(CutoffDaysAgo(now, CONNECTOR_RUNS_RETENTION_DAYS), {"poll", "agent_ingest"})
  }

  predicate Expired(row: Row, rule: Rule) {
    row.stamp < rule.cutoff && (rule.StampedOfKind? ==> row.kind in rule.kinds)
  }

  function ExpiredIds(rows: map<string, Row>, rule: Rule): set<string> {
    set id | id in rows && Expired(rows[id], rule)
  }

  function Survivors(rows: map<string, Row>, rule: Rule): map<string, Row> {
    map id | id in rows && !Expired(rows[id], rule) :: rows[id]
  }

  // How many rows one table may lose in a run.
  function Quota(batchSize: nat, maxBatches: int): nat {
    if maxBatches <= 0 then 0 else batchSize * maxBatches
  }

  predicate CappedAt(expired: nat, batchSize: nat, maxBatches: int) {
    maxBatches <= 0 || (batchSize > 0 && expired >= Quota(batchSize, maxBatches))
  }

  // What a run does to one table: some expired rows go, as many as the quota allows.
  ghost predicate Purged(before: map<string, Row>, after: map<string, Row>, rule: Rule, deleted: nat, capped: bool,
                         batchSize: nat, maxBatches: int) {
    var expired := ExpiredIds(before, rule);
    && (exists gone: set<string> :: gone <= expired && |gone| == deleted && after == before - gone)
    && deleted == Min(|expired|, Quota(batchSize, maxBatches))
    && (capped <==> CappedAt(|expired|, batchSize, maxBatches))
  }

  lemma ExpiredAfter(rows: map<string, Row>, gone: set<string>, rule: Rule)
    requires gone <= ExpiredIds(rows, rule)
    ensures ExpiredIds(rows - gone, rule) == ExpiredIds(rows, rule) - gone
    ensures |ExpiredIds(rows - gone, rule)| == |ExpiredIds(rows, rule)| - |gone|
    ensures Survivors(rows - gone, rule) == Survivors(rows, rule)
  {
  }

  class LogTable {
    var rows: map<string, Row>

    // Any expired rows, up to the limit.
    method SelectExpiredIds(rule: Rule, limit: nat) returns (ids: set<string>)
      ensures IsBatch(rows, rule, ids, limit)
    {
      ids := {};
      var left := ExpiredIds(rows, rule);
      while |ids| < limit && left != {}
        invariant ids !! left && ids + left == ExpiredIds(rows, rule) && |ids| <= limit
        decreases |left|
      {
        var id :| id in left;
        ids, left := ids + {id}, left - {id};
      }
      assert |ids + left| == |ids| + |left|;
    }

    method BatchedDelete(rule: Rule, batchSize: nat, maxBatches: int) returns (deleted: nat, capped: bool)
      modifies this
      ensures Purged(old(rows), rows, rule, deleted, capped, batchSize, maxBatches)
    {
      deleted := 0;
      ghost var gone := {};
      var i := 0;
      while i < maxBatches
        invariant 0 <= i <= Max(maxBatches, 0)
        invariant FullBatches(old(rows), rows, rule, gone, deleted, i, batchSize)
      {
        var ids := SelectExpiredIds(rule, batchSize);
        if ids == {} {
          LastBatch(old(rows), rows, rule, gone, ids, i, batchSize, maxBatches);
          return deleted, false;
        }
        NextBatch(old(rows), rows, rule, gone, ids, i, batchSize);
        ghost var was := rows;
        rows := rows - ids;
        deleted := deleted + |ids|;
        if |ids| < batchSize {
          LastBatch(old(rows), was, rule, gone, ids, i, batchSize, maxBatches);
          return deleted, false;
        }
        gone := gone + ids;
        i := i + 1;
      }
      AllBatches(old(rows), rows, rule, gone, i, batchSize, maxBatches);
      capped := true;
    }
  }

  // After i full batches the rows of gone have been deleted.
  ghost predicate FullBatches(before: map<string, Row>, after: map<string, Row>, rule: Rule, gone: set<string>,
                              deleted: nat, i: nat, batchSize: nat) {
    && gone <= ExpiredIds(before, rule)
    && after == before - gone
    && |gone| == deleted == batchSize * i
    && (i > 0 ==> batchSize > 0)
  }

  // A batch of expired rows, as many as the limit allows.
  ghost predicate IsBatch(rows: map<string, Row>, rule: Rule, ids: set<string>, limit: nat) {
    ids <= ExpiredIds(rows, rule) && |ids| == Min(limit, |ExpiredIds(rows, rule)|)
  }

  lemma BatchGrows(before: map<string, Row>, after: map<string, Row>, rule: Rule, gone: set<string>, ids: set<string>,
                   i: nat, batchSize: nat)
    requires FullBatches(before, after, rule, gone, |gone|, i, batchSize) && IsBatch(after, rule, ids, batchSize)
    ensures gone + ids <= ExpiredIds(before, rule) && after - ids == before - (gone + ids)
    ensures |gone + ids| == batchSize * i + |ids|
    ensures |ExpiredIds(after, rule)| == |ExpiredIds(before, rule)| - batchSize * i
  {
    ExpiredAfter(before, gone, rule);
    assert gone !! ids;
    assert |gone + ids| == |gone| + |ids|;
  }

  lemma NextBatch(before: map<string, Row>, after: map<string, Row>, rule: Rule, gone: set<string>, ids: set<string>,
                  i: nat, batchSize: nat)
    requires FullBatches(before, after, rule, gone, |gone|, i, batchSize) && IsBatch(after, rule, ids, batchSize)
    requires ids != {}
    ensures |ids| == batchSize ==>
              FullBatches(before, after - ids, rule, gone + ids, |gone| + |ids|, i + 1, batchSize)
  {
    BatchGrows(before, after, rule, gone, ids, i, batchSize);
    assert batchSize * (i + 1) == batchSize * i + batchSize;
  }

  // A batch that is not full, or that selects nothing, was the last one.
  lemma LastBatch(before: map<string, Row>, after: map<string, Row>, rule: Rule, gone: set<string>, ids: set<string>,
                  i: nat, batchSize: nat, maxBatches: int)
    requires FullBatches(before, after, rule, gone, |gone|, i, batchSize) && IsBatch(after, rule, ids, batchSize)
    requires i < maxBatches && (ids == {} || |ids| < batchSize)
    ensures Purged(before, after - ids, rule, |gone| + |ids|, false, batchSize, maxBatches)
  {
    BatchGrows(before, after, rule, gone, ids, i, batchSize);
    QuotaReached(batchSize, i, maxBatches);
  }

  lemma AllBatches(before: map<string, Row>, after: map<string, Row>, rule: Rule, gone: set<string>, i: nat,
                   batchSize: nat, maxBatches: int)
    requires FullBatches(before, after, rule, gone, |gone|, i, batchSize) && i == Max(maxBatches, 0)
    ensures Purged(before, after, rule, |gone|, true, batchSize, maxBatches)
  {
    ExpiredAfter(before, gone, rule);
  }

  lemma QuotaReached(batchSize: nat, i: nat, maxBatches: int)
    requires i < maxBatches
    ensures batchSize * i + batchSize <= Quota(batchSize, maxBatches)
  {
    assert batchSize * (i + 1) == batchSize * i + batchSize;
    TimesIsMonotone(batchSize, i + 1, maxBatches);
  }

  lemma TimesIsMonotone(a: nat, b: nat, c: nat)
    requires b <= c
    ensures a * b <= a * c
  {
    assert a * c == a * b + a * (c - b);
  }

  // ---------- One run over the three logs ----------

  datatype RetentionResult = RetentionResult(auditLog: nat, pollHeartbeats: nat, connectorRuns: nat, capped: bool)

  datatype Logs = Logs(audit: map<string, Row>, heartbeats: map<string, Row>, runs: map<string, Row>)

  ghost predicate PurgedAll(before: Logs, after: Logs, now: int, r: RetentionResult, batchSize: nat, maxBatches: int) {
    exists a, h, c ::
      && Purged(before.audit, after.audit, AuditRule(now), r.auditLog, a, batchSize, maxBatches)
      && Purged(before.heartbeats, after.heartbeats, HeartbeatRule(now), r.pollHeartbeats, h, batchSize, maxBatches)
      && Purged(before.runs, after.runs, RunRule(now), r.connectorRuns, c, batchSize, maxBatches)
      && r.capped == (a || h || c)
  }

  // All expired rows gone, every other row kept.
  function Drained(logs: Logs, now: int): Logs {
    Logs(Survivors(logs.audit, AuditRule(now)), Survivors(logs.heartbeats, HeartbeatRule(now)),
         Survivors(logs.runs, RunRule(now)))
  }

  ghost function Backlog(logs: Logs, now: int): nat {
    |ExpiredIds(logs.audit, AuditRule(now))| + |ExpiredIds(logs.heartbeats, HeartbeatRule(now))| +
    |ExpiredIds(logs.runs, RunRule(now))|
  }

  class Database {
    const audit: LogTable
    const heartbeats: LogTable
    const runs: LogTable

    constructor (audit: LogTable, heartbeats: LogTable, runs: LogTable)
      ensures this.audit == audit && this.heartbeats == heartbeats && this.runs == runs
    {
      this.audit, this.heartbeats, this.runs := audit, heartbeats, runs;
    }

    ghost predicate Valid() {
      audit != heartbeats && audit != runs && heartbeats != runs
    }

    ghost function Contents(): Logs
      reads audit, heartbeats, runs
    {
      Logs(audit.rows, heartbeats.rows, runs.rows)
    }

    method PurgeExpiredRetention(now: int, batchSize: nat, maxBatches: int) returns (r: RetentionResult)
      requires Valid()
      modifies audit, heartbeats, runs
      ensures PurgedAll(old(Contents()), Contents(), now, r, batchSize, maxBatches)
    {
      var a, aCapped := audit.BatchedDelete(AuditRule(now), batchSize, maxBatches);
      var h, hCapped := heartbeats.BatchedDelete(HeartbeatRule(now), batchSize, maxBatches);
      var c, cCapped := runs.BatchedDelete(RunRule(now), batchSize, maxBatches);
      r := RetentionResult(a, h, c, aCapped || hCapped || cCapped);
    }

    // A capped run sends the purge message again, and each message runs the purge once.
    method ProcessPurges(now: int, batchSize: nat, maxBatches: int) returns (purges: nat)
      requires Valid() && batchSize > 0 && maxBatches > 0
      modifies audit, heartbeats, runs
      ensures Contents() == Drained(old(Contents()), now) && Backlog(Contents(), now) == 0
      ensures (purges - 1) * Quota(batchSize, maxBatches) <= Backlog(old(Contents()), now)
    {
      purges := 0;
      var again := true;
      while again
        invariant Drained(Contents(), now) == Drained(old(Contents()), now)
        invariant !again ==> purges > 0 && Backlog(Contents(), now) == 0
        invariant Paid(if again then purges else purges - 1, Backlog(Contents(), now), Backlog(old(Contents()), now),
                       Quota(batchSize, maxBatches))
        decreases again, Backlog(Contents(), now)
      {
        ghost var before := Contents();
        var r := PurgeExpiredRetention(now, batchSize, maxBatches);
        RunMakesProgress(before, Contents(), now, r, batchSize, maxBatches);
        PayOnce(purges, Backlog(Contents(), now), Backlog(before, now), Backlog(old(Contents()), now),
                Quota(batchSize, maxBatches), r.capped);
        purges := purges + 1;
        again := r.capped;
      }
      NothingLeft(Contents(), now);
    }
  }

  // The handler of the purge message, repeated until it sends no further one, with the default batches.
  method ProcessPurgeMessages(db: Database, now: int) returns (purges: nat)
    requires db.Valid()
    modifies db.audit, db.heartbeats, db.runs
    ensures db.Contents() == Drained(old(db.Contents()), now) && Backlog(db.Contents(), now) == 0
    ensures (purges - 1) * 20_000 <= Backlog(old(db.Contents()), now)
  {
    purges := db.ProcessPurges(now, DEFAULT_BATCH_SIZE, DEFAULT_MAX_BATCHES);
  }

  // Each capped run has taken at least a quota from the backlog.
  ghost predicate Paid(capped: int, backlog: nat, start: nat, quota: nat) {
    capped * quota + backlog <= start
  }

  lemma PayOnce(purges: nat, after: nat, before: nat, start: nat, quota: nat, capped: bool)
    requires Paid(purges, before, start, quota) && after <= before
    requires capped ==> after + quota <= before
    ensures Paid(if capped then purges + 1 else purges, after, start, quota)
  {
    assert (purges + 1) * quota == purges * quota + quota;
  }

  /** A run deletes only expired rows of a table, at most its quota, and leaves every other row as it was. */
  lemma OnlyExpiredRowsGo(before: map<string, Row>, after: map<string, Row>, rule: Rule, deleted: nat, capped: bool,
                          batchSize: nat, maxBatches: int)
    requires Purged(before, after, rule, deleted, capped, batchSize, maxBatches)
    ensures deleted <= Quota(batchSize, maxBatches)
    ensures after.Keys <= before.Keys && |before.Keys - after.Keys| == deleted
    ensures forall id | id in after :: after[id] == before[id]
    ensures forall id | id in before && id !in after :: Expired(before[id], rule)
    ensures Survivors(after, rule) == Survivors(before, rule)
    ensures |ExpiredIds(after, rule)| == |ExpiredIds(before, rule)| - deleted
  {
    var gone: set<string> :| gone <= ExpiredIds(before, rule) && |gone| == deleted && after == before - gone;
    ExpiredAfter(before, gone, rule);
    OnlyGoneGo(before, gone, rule);
  }

  lemma OnlyGoneGo(before: map<string, Row>, gone: set<string>, rule: Rule)
    requires gone <= ExpiredIds(before, rule)
    ensures var after := before - gone;
            && after.Keys <= before.Keys
            && before.Keys - after.Keys == gone
            && (forall id | id in after :: after[id] == before[id])
            && (forall id | id in before && id !in after :: Expired(before[id], rule))
  {
  }

  /** A run that is not capped leaves no expired row, unless its batches were empty and there was one to begin with. */
  lemma UncappedLeavesNoneExactly(before: map<string, Row>, after: map<string, Row>, rule: Rule, deleted: nat,
                                  batchSize: nat, maxBatches: int)
    requires Purged(before, after, rule, deleted, false, batchSize, maxBatches)
    ensures ExpiredIds(after, rule) == {} <==> batchSize > 0 || ExpiredIds(before, rule) == {}
  {
    OnlyExpiredRowsGo(before, after, rule, deleted, false, batchSize, maxBatches);
    EmptyIsZero(ExpiredIds(after, rule));
    EmptyIsZero(ExpiredIds(before, rule));
    QuotaIsZero(batchSize, maxBatches);
  }

  /** The exception occurs: a run with batches of no rows is not capped and leaves its one expired row. */
  lemma EmptyBatchesLeaveARow() returns (rows: map<string, Row>, rule: Rule)
    ensures ExpiredIds(rows, rule) != {}
    ensures Purged(rows, rows, rule, 0, false, 0, DEFAULT_MAX_BATCHES)
  {
    rows, rule := map["row" := Row(0, "", "")], Stamped(1);
    assert "row" in ExpiredIds(rows, rule);
    QuotaIsZero(0, DEFAULT_MAX_BATCHES);
    NothingDeleted(rows, rule, 0, DEFAULT_MAX_BATCHES);
  }

  lemma NothingDeleted(rows: map<string, Row>, rule: Rule, batchSize: nat, maxBatches: int)
    requires Quota(batchSize, maxBatches) == 0 && maxBatches > 0 && batchSize == 0
    ensures Purged(rows, rows, rule, 0, false, batchSize, maxBatches)
  {
    var gone: set<string> := {};
    assert rows - gone == rows && gone <= ExpiredIds(rows, rule) && |gone| == 0;
  }

  lemma EmptyIsZero(ids: set<string>)
    ensures ids == {} <==> |ids| == 0
  {
  }

  lemma QuotaIsZero(batchSize: nat, maxBatches: int)
    ensures batchSize == 0 ==> Quota(batchSize, maxBatches) == 0
  {
  }

  /** Without any batch a run reports that it was capped and deletes nothing, so repeating it would never end. */
  lemma NoBatchesIsCapped(before: map<string, Row>, after: map<string, Row>, rule: Rule, deleted: nat, capped: bool,
                          batchSize: nat, maxBatches: int)
    requires Purged(before, after, rule, deleted, capped, batchSize, maxBatches) && maxBatches <= 0
    ensures capped && deleted == 0 && after == before
  {
    var gone: set<string> :| gone <= ExpiredIds(before, rule) && |gone| == deleted && after == before - gone;
    assert gone == {};
  }

  /** A capped run took a full quota; with room for a row in each run, it is not the last one forever. */
  lemma CappedTakesAQuota(before: map<string, Row>, after: map<string, Row>, rule: Rule, deleted: nat, capped: bool,
                          batchSize: nat, maxBatches: int)
    requires Purged(before, after, rule, deleted, capped, batchSize, maxBatches) && batchSize > 0 && maxBatches > 0
    ensures capped ==> deleted == Quota(batchSize, maxBatches)
    ensures !capped ==> ExpiredIds(after, rule) == {}
    ensures Quota(batchSize, maxBatches) > 0
  {
    if !capped {
      UncappedLeavesNoneExactly(before, after, rule, deleted, batchSize, maxBatches);
    }
    TimesIsMonotone(batchSize, 1, maxBatches);
  }

  // What a run of non-empty batches does to the backlog of one table.
  ghost predicate TableProgress(before: map<string, Row>, after: map<string, Row>, rule: Rule, deleted: nat, capped: bool,
                                quota: nat) {
    && Survivors(after, rule) == Survivors(before, rule)
    && |ExpiredIds(after, rule)| == |ExpiredIds(before, rule)| - deleted
    && (capped ==> deleted == quota)
    && (!capped ==> |ExpiredIds(after, rule)| == 0)
  }

  lemma TableMakesProgress(before: map<string, Row>, after: map<string, Row>, rule: Rule, deleted: nat, capped: bool,
                           batchSize: nat, maxBatches: int)
    requires Purged(before, after, rule, deleted, capped, batchSize, maxBatches) && batchSize > 0 && maxBatches > 0
    ensures TableProgress(before, after, rule, deleted, capped, Quota(batchSize, maxBatches))
  {
    OnlyExpiredRowsGo(before, after, rule, deleted, capped, batchSize, maxBatches);
    CappedTakesAQuota(before, after, rule, deleted, capped, batchSize, maxBatches);
  }

  /** Every run keeps what a drained store keeps; a capped run shrinks the backlog by a quota and another one empties it. */
  lemma RunMakesProgress(before: Logs, after: Logs, now: int, r: RetentionResult, batchSize: nat, maxBatches: int)
    requires PurgedAll(before, after, now, r, batchSize, maxBatches) && batchSize > 0 && maxBatches > 0
    ensures Drained(after, now) == Drained(before, now)
    ensures Backlog(after, now) == Backlog(before, now) - (r.auditLog + r.pollHeartbeats + r.connectorRuns)
    ensures r.capped ==> Backlog(after, now) + Quota(batchSize, maxBatches) <= Backlog(before, now)
    ensures !r.capped ==> Backlog(after, now) == 0
    ensures Quota(batchSize, maxBatches) > 0
  {
    var a, h, c :|
      && Purged(before.audit, after.audit, AuditRule(now), r.auditLog, a, batchSize, maxBatches)
      && Purged(before.heartbeats, after.heartbeats, HeartbeatRule(now), r.pollHeartbeats, h, batchSize, maxBatches)
      && Purged(before.runs, after.runs, RunRule(now), r.connectorRuns, c, batchSize, maxBatches)
      && r.capped == (a || h || c);
    TableMakesProgress(before.audit, after.audit, AuditRule(now), r.auditLog, a, batchSize, maxBatches);
    TableMakesProgress(before.heartbeats, after.heartbeats, HeartbeatRule(now), r.pollHeartbeats, h, batchSize, maxBatches);
    TableMakesProgress(before.runs, after.runs, RunRule(now), r.connectorRuns, c, batchSize, maxBatches);
    TimesIsMonotone(batchSize, 1, maxBatches);
  }

  lemma NothingLeft(logs: Logs, now: int)
    requires Backlog(logs, now) == 0
    ensures Drained(logs, now) == logs
  {
    NoneExpired(logs.audit, AuditRule(now));
    NoneExpired(logs.heartbeats, HeartbeatRule(now));
    NoneExpired(logs.runs, RunRule(now));
  }

  lemma NoneExpired(rows: map<string, Row>, rule: Rule)
    requires |ExpiredIds(rows, rule)| == 0
    ensures Survivors(rows, rule) == rows
  {
    forall id | id in rows ensures !Expired(rows[id], rule) {
      assert id !in ExpiredIds(rows, rule);
    }
  }

  /**
   What a purge may never delete: audit rows of the last 365 days, heartbeats of the last 30, and connector
   runs of the last 90 days or of any kind but poll and agent ingest.
   */
  lemma RetainedRowsStay(before: Logs, after: Logs, now: int, r: RetentionResult, batchSize: nat, maxBatches: int)
    requires PurgedAll(before, after, now, r, batchSize, maxBatches)
    ensures forall id | id in before.audit && now - before.audit[id].stamp <= 365 * 86_400_000 ::
              id in after.audit && after.audit[id] == before.audit[id]
    ensures forall id | id in before.heartbeats && now - before.heartbeats[id].stamp <= 30 * 86_400_000 ::
              id in after.heartbeats && after.heartbeats[id] == before.heartbeats[id]
    ensures forall id | id in before.runs && now - before.runs[id].stamp <= 90 * 86_400_000 ::
              id in after.runs && after.runs[id] == before.runs[id]
    ensures forall id | id in before.runs && before.runs[id].kind !in {"poll", "agent_ingest"} ::
              id in after.runs && after.runs[id] == before.runs[id]
  {
    var a, h, c :|
      && Purged(before.audit, after.audit, AuditRule(now), r.auditLog, a, batchSize, maxBatches)
      && Purged(before.heartbeats, after.heartbeats, HeartbeatRule(now), r.pollHeartbeats, h, batchSize, maxBatches)
      && Purged(before.runs, after.runs, RunRule(now), r.connectorRuns, c, batchSize, maxBatches);
    UnexpiredStay(before.audit, after.audit, AuditRule(now), r.auditLog, a, batchSize, maxBatches);
    UnexpiredStay(before.heartbeats, after.heartbeats, HeartbeatRule(now), r.pollHeartbeats, h, batchSize, maxBatches);
    UnexpiredStay(before.runs, after.runs, RunRule(now), r.connectorRuns, c, batchSize, maxBatches);
  }

  /**
   And what a drained store keeps is exactly that: audit rows of the last 365 days, heartbeats of the last 30,
   and connector runs that are of the last 90 days or neither polls nor agent ingests.
   */
  lemma DrainedKeepsExactly(logs: Logs, now: int, id: string)
    ensures id in Drained(logs, now).audit <==> id in logs.audit && now - logs.audit[id].stamp <= 365 * 86_400_000
    ensures id in Drained(logs, now).heartbeats <==>
            id in logs.heartbeats && now - logs.heartbeats[id].stamp <= 30 * 86_400_000
    ensures id in Drained(logs, now).runs <==>
            id in logs.runs && (now - logs.runs[id].stamp <= 90 * 86_400_000
                                || (logs.runs[id].kind != "poll" && logs.runs[id].kind != "agent_ingest"))
  {
  }

  /** A run with the default batches takes up to 20000 expired rows of a table, 5000 at a time, and is capped from there on. */
  lemma DefaultRunExactly(before: map<string, Row>, after: map<string, Row>, rule: Rule, deleted: nat, capped: bool)
    requires Purged(before, after, rule, deleted, capped, DEFAULT_BATCH_SIZE, DEFAULT_MAX_BATCHES)
    ensures deleted == if |ExpiredIds(before, rule)| < 20_000 then |ExpiredIds(before, rule)| else 20_000
    ensures capped <==> |ExpiredIds(before, rule)| >= 20_000
    ensures forall ids | IsBatch(before, rule, ids, DEFAULT_BATCH_SIZE) :: |ids| <= 5000
  {
  }

  lemma UnexpiredStay(before: map<string, Row>, after: map<string, Row>, rule: Rule, deleted: nat, capped: bool,
                      batchSize: nat, maxBatches: int)
    requires Purged(before, after, rule, deleted, capped, batchSize, maxBatches)
    ensures forall id | id in before && !Expired(before[id], rule) :: id in after && after[id] == before[id]
  {
    OnlyExpiredRowsGo(before, after, rule, deleted, capped, batchSize, maxBatches);
  }

  // ---------- The dispatcher's view ----------

  datatype Connection = Connection(orgId: string, id: string, vendor: string, status: string, hasCredential: bool,
                                   lastPolledAt: int)

  datatype Candidate = Candidate(orgId: string, connectionId: string, vendor: string, lastPolledAt: int,
                                 backfillStarted: bool)

  function StartedBackfills(runs: map<string, Row>): set<string> {
    set id | id in runs && runs[id].kind == "backfill" :: runs[id].connection
  }

  function ListConnectorWorkCandidates(connections: seq<Connection>, runs: map<string, Row>): seq<Candidate> {
    if connections == [] then []
    else
      var c := connections[0];
      (if c.status in {"pending", "active", "error"} && c.hasCredential
       then [Candidate(c.orgId, c.id, c.vendor, c.lastPolledAt, c.id in StartedBackfills(runs))] else [])
      + ListConnectorWorkCandidates(connections[1..], runs)
  }

  /**
   A connection is a candidate exactly when it is pending, active or in error and has a credential, and its
   backfill counts as started exactly when some backfill run of it is on record.
   */
  lemma {:induction false} CandidatesExactly(connections: seq<Connection>, runs: map<string, Row>, x: Candidate)
    ensures x in ListConnectorWorkCandidates(connections, runs) <==>
            exists c | c in connections ::
              && (c.status == "pending" || c.status == "active" || c.status == "error") && c.hasCredential
              && x.orgId == c.orgId && x.connectionId == c.id && x.vendor == c.vendor && x.lastPolledAt == c.lastPolledAt
              && (x.backfillStarted <==> exists id | id in runs :: runs[id].kind == "backfill" && runs[id].connection == c.id)
  {
    if connections != [] {
      var c, rest := connections[0], connections[1..];
      CandidatesExactly(rest, runs, x);
      StartedExactly(runs, c.id);
      assert forall d :: d in connections <==> d == c || d in rest;
    }
  }

  lemma StartedExactly(runs: map<string, Row>, connection: string)
    ensures connection in StartedBackfills(runs) <==>
            exists id | id in runs :: runs[id].kind == "backfill" && runs[id].connection == connection
  {
  }

  lemma {:induction false} SameStartsSameCandidates(connections: seq<Connection>, runs: map<string, Row>,
                                                    runs': map<string, Row>)
    requires StartedBackfills(runs) == StartedBackfills(runs')
    ensures ListConnectorWorkCandidates(connections, runs) == ListConnectorWorkCandidates(connections, runs')
  {
    if connections != [] {
      SameStartsSameCandidates(connections[1..], runs, runs');
    }
  }

  /** No purge changes which connections have started a backfill, so the dispatcher never repeats one because of it. */
  lemma BackfillStartedIsKept(before: Logs, after: Logs, now: int, r: RetentionResult, batchSize: nat, maxBatches: int,
                              connections: seq<Connection>)
    requires PurgedAll(before, after, now, r, batchSize, maxBatches)
    ensures StartedBackfills(after.runs) == StartedBackfills(before.runs)
    ensures ListConnectorWorkCandidates(connections, after.runs) == ListConnectorWorkCandidates(connections, before.runs)
  {
    var c :| Purged(before.runs, after.runs, RunRule(now), r.connectorRuns, c, batchSize, maxBatches);
    OnlyExpiredRowsGo(before.runs, after.runs, RunRule(now), r.connectorRuns, c, batchSize, maxBatches);
    BackfillRowsStay(before.runs, after.runs, now);
    SameStartsSameCandidates(connections, before.runs, after.runs);
  }

  lemma BackfillRowsStay(before: map<string, Row>, after: map<string, Row>, now: int)
    requires forall id | id in after :: id in before && after[id] == before[id]
    requires forall id | id in before && id !in after :: Expired(before[id], RunRule(now))
    ensures StartedBackfills(after) == StartedBackfills(before)
  {
    forall id | id in before && before[id].kind == "backfill" ensures id in after {
      assert !Expired(before[id], RunRule(now));
    }
  }
}
