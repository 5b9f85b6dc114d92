# Verified model of the measurement and provisioning core

This project models the parts of the repository that carry real logic and proves what they promise,
for every input, every run and every interleaving:

- spike detection over a 28-day baseline (`Anomaly`, `Outliers`)
- concurrent database protocols as step systems: last-admin-safe removal (`Membership`, `MembershipAudit`),
  capped creation of team workspaces (`Provisioning`), the signup bootstrap (`Bootstrap`, `BootstrapJoins`),
  the initiative lifecycle
  (`Initiatives`) and team-member replacement with failing writes (`TeamMembers`)
- out-of-order Paddle events and the entitlement derived from them (`Subscriptions`,
  `SubscriptionWrites`)
- agent ingest, where a push replaces a window of its source family (`Ingest`, `IngestLaws`)
- aggregations with conservation laws and rounding bounds (`Adoption`, `AdoptionLaws`, `AttributionTrend`,
  `AttributionLaws`, `TrackedUsers`)
- bounded batch purging (`Retention`), device tokens (`AgentToken`) and the seed generator (`Random`,
  `SeedActivity`)

`Wrappers`, `Strings`, `Sorting`, `Calendar`, `Rounding`, `Shares` and `Attribution` are shared by them.
`dafny verify dfyconfig.toml` checks everything.

## How to read it

Numbers are exact: values and rates are reals, and the threshold `z >= 3` is stated on squares. A UTC
calendar day is a day number, where day 0 is Thursday 1970-01-01. The built-in rounding is
`Round(x) = floor(x + 1/2)`.

Code that changes state is a class or a method with loops, proved against a specification that the laws
are about: the class methods of `Subscriptions`, `Ingest`, `Retention` and `TeamMembers`, and the loops of
`Anomaly`, `Adoption`, `AttributionTrend`, `TrackedUsers`, `AgentToken`, `Random` and `SeedActivity`.

Concurrent protocols are state machines. A process is one call, each statement of its transaction is one
event, reads see committed data, and a lock is held to the commit. `Exec(s, events)` is the state after a
list of events, so a theorem about every list of events is a theorem about every interleaving.

Random draws are an arbitrary stream of numbers from 0 up to 1; the seed results hold for every stream.
The months of the calendar are not modelled: the first day of the anchor's month is an input, at most 30
days before the anchor.

## Where the code and its comments differ

The model follows the code.

- Agent ingest says that only the live source may write sub-daily signals (src/lib/agent-ingest.ts:162-168),
  but line 217 upserts the signals of every accepted push. `OthersLeaveSignalsExactlyWhen` says when that is
  harmless: exactly when such a push carries none. `ExportOverwritesSignal` is a push that is not, and
  `LastLivePushOwnsSignals` is proved under that condition.
- The spike detector is described as one that an outlier in the baseline can only silence. Raising a day that
  lies below the mean by less than 2n/(n-1) times the gap lowers the variance (`VarianceFallsExactly`) and can
  turn silence into a spike (`RaisingLowDayCanFire`). Every other raise of a baseline with a positive mean only
  silences (`OutliersOnlySuppress`); with a mean of zero the detector is silent, and a single huge outlier ends
  that (`RaisingFromZeroCanFire`).
  `RaiseOnlySuppressesExactly` gives the exact condition over all totals of the evaluated day: the largest of
  the three new thresholds is at least the largest of the old ones, or the detector stays silent altogether.
- `purgeMembership` promises an audit row for each removed membership "and vice versa". The first half holds in
  every run (`RemovedImpliesAudited`, `RemovalsAreAudited`). The second fails when two calls target one member
  (`TwoAuditRowsOneRemoval`); the audit row of a commit stands for a removal exactly when the delete statement
  finds the member (`AuditStandsForRemovalExactly`), and always when the re-read under the lock does
  (`FoundUnderLockIsRemoved`).
- The attribution trend promises a report for any rows. A negative `weeks` option can slice every week away
  and then reading the last point throws: `FailsExactlyWhen` gives the exact condition and `NegativeWeeksFail`
  an input. The two callers (src/lib/dashboard-view.ts:497, src/lib/exec-report.ts:461) pass no option.
- A purge that is not capped is meant to leave nothing expired. `UncappedLeavesNoneExactly` shows the one
  exception, a batch size of zero, with an input in `EmptyBatchesLeaveARow`, and `NoBatchesIsCapped` that a run
  of no batches would be repeated forever. The only caller (src/poller/process.ts:58) uses the default batches.
- Paddle events are promised to converge for every order of delivery. They do exactly when the events of each
  subscription name one org and have one latest event (`ConvergesExactly`): with two events of one time the order
  decides even the plan (`EqualTimesDiverge`), and with two orgs the first delivered wins (`TwoOrgsDiverge`).
- Metering writes quantities in between. Everything else still converges (`ConvergesButForQuantities`); the
  quantity need not (`QuantityDependsOnOrder`). It is what metering set since the last event that took effect
  (`QuantityIsMetered`), so two runs agree exactly when those quantities do (`ConvergesExactlyInQuantities`).
- Completed bootstraps are promised to return the existing membership. For a new user they all return one org as
  long as every membership that somebody else gives this user is created after the user's own
  (`CompletedCallsAgreeAmongJoins`). For any user, the next call returns the org of an earlier one if and only if
  every other membership was created strictly later (`NextReadAgreesExactly`); `EarlierJoinRedirects` is a run
  in which one was not.
- A slice to a negative number of slots in `buildHours` counts from the back; the number of filled hours
  follows that (`SeedActivity.BuildHours`).

## Model

| member | source | states |
|---|---|---|
| Anomaly.FreshestSync | src/lib/anomaly.ts:121-138 | the freshest successful sync among usable connections, none exactly when no usable connection ever synced |
| Anomaly.IsChannelStale | src/lib/anomaly.ts:141-150 | stale exactly when no usable connection has synced within the given number of days |
| Anomaly.CurrentExactly | src/lib/anomaly.ts:117-150 | the check runs exactly when some pending or active connection synced on or after the day before yesterday |
| Anomaly.TotalsMeaning | src/lib/anomaly.ts:166-172 | the totals have one entry for each day with rows, the sum of that day's values |
| Anomaly.DailyTotals | src/lib/anomaly.ts:166-172 | the loop over rows computes those totals and lists each day once |
| Anomaly.CollectBaseline | src/lib/anomaly.ts:206-212 | the loop over the totals collects exactly the measured days of the window, each once, with their values |
| Anomaly.DetectDailySpike | src/lib/anomaly.ts:187-245 | the detector returns the verdict of the statistical definition on the trailing window, whatever the order of the rows, and is suppressed exactly when the channels are stale |
| Anomaly.JudgeExactly | src/lib/anomaly.ts:193-260 | for every metric and baseline, with all thresholds written out: when the answer is a spike and what it carries, and when it is insufficient and with which count |
| Anomaly.SumsOfPermutation | src/lib/anomaly.ts:213-218 | length, sum and sum of squares depend on the baseline values and not on their order |
| Anomaly.SameDecision | src/lib/anomaly.ts:213-245 | the verdict does not depend on the order in which the baseline was collected |
| Anomaly.CauchySchwarz | src/lib/anomaly.ts:213-218 | n times the sum of squares is at least the square of the sum |
| Anomaly.ZScoreBound | src/lib/anomaly.ts:206-245 | when k of n values reached v above the mean, z squared is at most (n-1)(n-k)/(nk) |
| Anomaly.ThreePeersSilence | src/lib/anomaly.ts:206-245 | if three or more baseline days reached the evaluated total, no spike is ever reported, by either path |
| Anomaly.TwoPeersCanFire | src/lib/anomaly.ts:206-245 | the number three is tight: with two such days of 28 a spike is reported |
| Anomaly.OutliersOnlySuppress | src/lib/anomaly.ts:173-245 | with a positive mean, no raise of a baseline day turns silence into a spike unless it tightens the baseline: a day at or above the mean may rise by anything, a lower one by at least 2n/(n-1) times its gap |
| Anomaly.ReplaceMoves | src/lib/anomaly.ts:213-218 | what replacing one baseline value does to the mean and to the sum of squares, as an equation |
| Anomaly.VarianceFallsExactly | src/lib/anomaly.ts:216-218 | raising a value lowers the variance exactly when it starts below the mean and rises by less than 2n/(n-1) of the gap |
| Outliers.RaiseOnlySuppressesExactly | src/lib/anomaly.ts:173-245 | no total of the evaluated day turns from silence to a spike if and only if the new firing threshold is at least the old one, or too few days or no positive mean keep the detector silent |
| Outliers.LooserOnlySuppresses | src/lib/anomaly.ts:173-245 | a raise that does not lower the variance meets that condition |
| Outliers.NoLowerOnDeviations | src/lib/anomaly.ts:213-235 | the condition, stated on squares, compares the largest of mean plus three deviations, twice the mean, and mean plus floor |
| Outliers.SquareBetween | src/lib/anomaly.ts:216-219 | between any two bounds lies a square, so a threshold that fell admits a value without taking a root |
| Anomaly.RaisingLowDayCanFire | src/lib/anomaly.ts:173-245 | a concrete baseline that a raise tightens, where silence turns into a spike |
| Anomaly.RaisingFromZeroCanFire | src/lib/anomaly.ts:173-245 | a baseline of zeros in which one huge outlier turns silence into a spike, so the positive mean is needed |
| Anomaly.MoreOnTheDayStillFires | src/lib/anomaly.ts:179-245 | raising the evaluated day's own total never turns a spike into silence |
| Membership.AlwaysAnAdmin | src/db/membership.ts:98-277 | in every interleaving of leaves, removals and joins, an org that starts with an admin has one in every committed state |
| Membership.OwnerStays | src/db/membership.ts:197-277 | the bootstrap owner is never removed and keeps the same role |
| Membership.RemovedImpliesAudited | src/db/membership.ts:98-183 | a membership that disappeared in a run has an audit row written in that run |
| Membership.StepRemoves | src/db/membership.ts:98-183 | only the commit of a call on a membership removes it, never the owner's, together with its audit row |
| Membership.CommitEffect | src/db/membership.ts:98-183 | a commit clears exactly the dependent rows of its (org, user) that its statements found and appends one audit row naming the right actor; which membership goes is said by MembershipAudit |
| Membership.OnlyCommitsDelete | src/db/membership.ts:98-183 | a dependent row disappears only by the last step of a removal of the same (org, user) |
| Membership.OneTransactionPerOrg | src/db/membership.ts:98-125 | under the org row lock two removals of one org never overlap |
| Membership.RefusedExactlyWhenSoleAdmin | src/db/membership.ts:98-183 | after the recount a removal is refused exactly when its target is the only admin |
| Membership.FirstStatement | src/db/membership.ts:197-259 | a removal of oneself and a target that is no member are refused before the transaction, each exactly then |
| Membership.SecondStatement | src/db/membership.ts:210-267 | the bootstrap owner is refused next, as a personal org for a leave and as the owner for a removal, and nobody else |
| Membership.DeleteStatement | src/db/membership.ts:127-160 | each of the four delete statements finds exactly the committed rows of the target in its own table |
| Membership.BeginAndAbort | src/db/membership.ts:98-183 | an aborted transaction changes no table and frees its lock |
| MembershipAudit.RemovalsAreAudited | src/db/membership.ts:161-175 | in every run at least as many audit rows about a membership are written as it is removed |
| MembershipAudit.OneAuditRowPerSuccess | src/db/membership.ts:161-183 | in every run exactly as many audit rows about a membership are written as calls on it answer ok |
| MembershipAudit.StrangersAreRefused | src/db/membership.ts:197-259 | in every run in which nobody adds the target, no call on it answers ok and no audit row about it is written |
| MembershipAudit.TwoAuditRowsOneRemoval | src/db/membership.ts:98-183 | a concrete run of two calls against one member that ends with two audit rows and one removal |
| MembershipAudit.AuditStandsForRemovalExactly | src/db/membership.ts:161-175 | the audit row of a commit stands for a removal if and only if the target was a member at the delete statement, whatever happens in between |
| MembershipAudit.FoundUnderLockIsRemoved | src/db/membership.ts:113-163 | a transaction whose re-read under the lock finds its target removes it when it commits |
| MembershipAudit.RunsAlone | src/db/membership.ts:98-183 | a transaction that runs alone and is not refused clears the membership and all four kinds of dependent rows and writes one audit row |
| Provisioning.CapNeverExceeded | src/db/org-provisioning.ts:80-125 | in every interleaving of capped creations no user owns more created team workspaces than the cap, or than at the start |
| Provisioning.WorkspacesAreComplete | src/db/org-provisioning.ts:80-125 | org, admin membership, default team and audit row of a creation are committed together or not at all |
| Provisioning.CompletedCallsOwnTheirWorkspace | src/db/org-provisioning.ts:80-125 | a completed call returns a committed workspace with its creator as admin and its own default team |
| Provisioning.CallAlone | src/db/org-provisioning.ts:80-125 | a call that runs alone creates the four rows below its cap, is refused with nothing changed at it, and leaves no lock |
| Provisioning.BeginAndAbort | src/db/org-provisioning.ts:80-125 | an aborted transaction changes no table and frees its lock, and nothing else can be aborted |
| Bootstrap.CompletedCallsAgree | src/db/org-scope.ts:84-158 | all completed bootstraps of a new user return the same org, the only one with that bootstrap id, with the user as its admin and no other membership |
| Bootstrap.RepeatingChangesNothing | src/db/org-scope.ts:84-158 | after a completed bootstrap no statement of any call of that user changes a table |
| Bootstrap.OnlyAbortsFail | src/db/org-scope.ts:84-158 | a bootstrap of a new user fails only when its transaction is aborted |
| Bootstrap.BootstrapIdsStayUnique | src/db/org-scope.ts:84-158 | no two orgs ever carry the same bootstrap id |
| Bootstrap.NewcomerAlone | src/db/org-scope.ts:84-158 | a new user's call that runs alone creates one org with that bootstrap id, its admin membership and its copies of the presets, and returns it |
| Bootstrap.AdopterAlone | src/db/org-scope.ts:84-158 | a user whose org exists but who is a member of none becomes its admin, without a second org |
| Bootstrap.OtherAnswers | src/db/org-scope.ts:59-158 | a member's call returns the membership it reads and changes nothing; a vanished membership and an abort make a call throw |
| Bootstrap.CallsBegin | src/db/org-scope.ts:84-92 | a call changes nothing before its first read |
| Bootstrap.CopiesExactly | src/db/org-scope.ts:118-147 | the copies are person-level definitions, one for each active team-level preset without an org |
| BootstrapJoins.BootstrapIdsStayUniqueWithJoins | src/db/org-scope.ts:84-158 | the same with joins of any user between any two statements |
| BootstrapJoins.CompletedCallsAgreeAmongJoins | src/db/org-scope.ts:84-158 | completed bootstraps of a new user agree, whatever other users join, as long as a membership given to this user comes after the one of the user's own org |
| BootstrapJoins.NextReadAgreesExactly | src/db/org-scope.ts:59-98 | in every run with any joins, once a call returned an org, the next read of a call of that user returns it, whichever row the database picks, if and only if every other membership of the user was created strictly later |
| BootstrapJoins.CompletedCallsAreMembers | src/db/org-scope.ts:59-82 | with any joins, a completed call returned an org the user is a member of |
| BootstrapJoins.EarlierJoinRedirects | src/db/org-scope.ts:59-98 | a run from an idle start in which two completed calls of a new user return different orgs, because a join in between has an earlier creation time |
| Initiatives.AtMostOneWins | src/lib/api-impl.ts:845-917 | at most one review or stop of an initiative succeeds at its compare-and-set |
| Initiatives.OneTerminalEntry | src/lib/api-impl.ts:845-917 | the decision log never holds more than one completed or stopped entry, and a closed row has the status and outcome of the one call that closed it |
| Initiatives.ClosedForever | src/lib/api-impl.ts:845-917 | a terminal status and its outcome never change again |
| Initiatives.StepAppends | src/lib/api-impl.ts:752-972 | the log only grows, by the entry of a call that thereby succeeds |
| Initiatives.EntriesAreAuthorized | src/lib/api-impl.ts:752-972 | every log entry of a run is by a call that succeeded, in its own name, whose caller was a launching manager, the owner or an admin |
| Initiatives.RefusedExactlyWhenClosed | src/lib/api-impl.ts:845-917 | in every run a closing call that saw an open row is refused at its compare-and-set exactly when the row has a winner, and that winner is another call |
| Initiatives.LaunchAlone | src/lib/api-impl.ts:752-831 | a launch creates an active initiative of its caller with its entry, for managers only |
| Initiatives.RequestAlone | src/lib/api-impl.ts:845-972 | what a review, a stop and a note do when they run alone, for every caller and status: the refusal and its reason, or the new row and the entry |
| Initiatives.BeginAndCrash | src/lib/api-impl.ts:752-972 | a crash between two statements of a request leaves the rows and the log as they are |
| Initiatives.OneEntryPerSuccess | src/lib/api-impl.ts:752-972 | in every run the log grows by one entry for each call that succeeds |
| TeamMembers.Roster.SettleAll | src/lib/api-impl.ts:132-139 | every write of a phase settles before its first failure is reported |
| TeamMembers.Roster.PutTeamMembers | src/lib/api-impl.ts:96-149 | the two-phase update ends in the specified outcome and member set for any writes that fail and any order in which they settle |
| TeamMembers.FirstOutsiderMeaning | src/lib/api-impl.ts:96-131 | a request is let through exactly when every requested person is in the org |
| TeamMembers.OutcomeExactly | src/lib/api-impl.ts:96-149 | which answer a request gets and whom it names: the first outsider of the request, or the first failing write in issue order |
| TeamMembers.MemberSetAfterRequest | src/lib/api-impl.ts:96-149 | success leaves exactly the requested members, a failed add phase drops nobody, a failed remove phase keeps everyone requested, and no outsider is ever added |
| TeamMembers.RetryCompletes | src/lib/api-impl.ts:96-149 | repeating a failed request with writes that succeed leaves exactly the requested members |
| Subscriptions.SubscriptionTable.ApplyPaddleSubscriptionEvent | src/db/subscriptions.ts:199-244 | the upsert inserts an unknown id and otherwise replaces the row only for the same org and a later event |
| Subscriptions.SubscriptionTable.UpdateQuantity | src/db/subscriptions.ts:105-125 | only the quantity of a row of the same org changes |
| Subscriptions.SubscriptionTable.SetQuantityIf | src/db/subscriptions.ts:127-152 | the quantity is set exactly when the row still holds the expected one |
| Subscriptions.OneMessageClaims | src/db/subscriptions.ts:127-152 | of any number of repeated messages exactly one claims a change, and every one that changes nothing wins |
| Subscriptions.ConvergesExactly | src/db/subscriptions.ts:199-244 | every order of delivery with any duplicates ends in the same table if and only if each subscription has one org and one latest event |
| Subscriptions.EqualTimesDiverge | src/db/subscriptions.ts:199-244 | two events of one subscription and time whose order decides whether the org is on Team |
| Subscriptions.TwoOrgsDiverge | src/db/subscriptions.ts:199-244 | two events that name different orgs, of which the first delivered keeps the row |
| Subscriptions.DeliveryHoldsLatest | src/db/subscriptions.ts:199-244 | what a delivery leaves for an id is its latest event |
| Subscriptions.RowsNeverMoveOrGoBack | src/db/subscriptions.ts:199-244 | stored times never decrease and the org of a row never changes |
| Subscriptions.EntitlementIsBest | src/db/subscriptions.ts:56-77 | the entitlement is carried by the greatest (time, id) among entitling rows, and is personal exactly when there is none |
| Subscriptions.EntitlementExactly | src/db/subscriptions.ts:19-77 | Team exactly when some row is active, trialing or past due, carried by the one of these that no other beats by time and id, with its status and quantity |
| Subscriptions.TeamExactlyWhenLatestEntitles | src/db/subscriptions.ts:56-244 | from events to access: an org is on Team if and only if the latest event of one of its subscriptions is active, trialing or past due |
| Strings.LessExactly | src/db/subscriptions.ts:66-73 | ids compare by their first difference, and a prefix comes before what extends it |
| Subscriptions.EntitlementIgnoresOrder | src/db/subscriptions.ts:56-77 | the order of the rows does not matter |
| Subscriptions.AdminQueryAgrees | src/db/admin.ts:262-270 | the admin query's first row is the row the entitlement is carried by |
| Subscriptions.EntitlementConverges | src/db/subscriptions.ts:56-77 | an org's entitlement does not depend on the order or repetition of its events |
| SubscriptionWrites.ConvergesButForQuantities | src/db/subscriptions.ts:105-244 | with any writes of metering in between, runs with the same events end in tables that agree on everything but quantities |
| SubscriptionWrites.EntitlementConvergesButForQuantity | src/db/subscriptions.ts:56-77 | plan, status and subscription of an org converge all the same |
| SubscriptionWrites.QuantityDependsOnOrder | src/db/subscriptions.ts:127-152 | an event and a write whose order decides the quantity |
| SubscriptionWrites.QuantityIsMetered | src/db/subscriptions.ts:105-244 | after any run from any table, a row is what the events alone leave, with the quantity that metering set since the last event that took effect on it, if it set one |
| SubscriptionWrites.ConvergesExactlyInQuantities | src/db/subscriptions.ts:105-244 | two runs with the same events and any writes of metering end in the same table if and only if they leave the same quantities |
| SubscriptionWrites.SameAsEventsAloneExactly | src/db/subscriptions.ts:105-244 | metering leaves no trace if and only if no quantity it set since the last effective event differs from the one the events alone leave |
| SubscriptionWrites.ClaimsAreBounded | src/metering/meter.ts:59-82 | of the claims of one change, among any events and rollbacks, at most one wins plus one for each write that restored the quantity they expect |
| Ingest.FamiliesAreDistinct | src/contracts/api.ts:151-163 | every version of a source has the family of its module, and different sources have different families |
| Ingest.Validate | src/lib/agent-ingest.ts:86-151 | the validation loops report the first problem in the order of the checks |
| Ingest.AcceptedExactlyWhenWellFormed | src/lib/agent-ingest.ts:86-151 | a batch passes exactly when its window is ordered, every item names a declared subject and a day of the window, no person is fabricated and every dim is safe and inside its closed set |
| Ingest.RecordProblemExactly | src/lib/agent-ingest.ts:106-151 | which of its four problems a record is rejected for, in order |
| Ingest.RejectedExactly | src/lib/agent-ingest.ts:75-151 | a batch is rejected for its reversed window, else for its first item out of place, else for its first record that breaks a rule |
| Ingest.DigitsReadBack | src/contracts/api.ts:151-163 | a version is written in decimal digits that read back as it |
| Ingest.Dedupe | src/db/org-scope/metrics.ts:111-118 | of the entries of one key the last is kept |
| Ingest.Upsert | src/db/org-scope/metrics.ts:105-160 | writing in slices of 500 has the effect of one write of the last entry of each key |
| Ingest.Tables.DeleteWindowForConnection | src/db/org-scope/metrics.ts:194-238 | exactly the rows of the connection, family and window go, with the connection's signals when asked |
| Ingest.Tables.IngestAgentBatch | src/lib/agent-ingest.ts:50-254 | a rejected push returns its first problem and leaves the tables alone, an accepted one restates the window and reports its counts |
| IngestLaws.LastWinsMeaning | src/db/org-scope/metrics.ts:111-118 | the value kept for a key is that of its last entry |
| IngestLaws.AnsweredExactly | src/lib/agent-ingest.ts:50-151 | the answer to every push, with the numbers of distinct subjects, records and signals |
| IngestLaws.RecordsAreStored | src/lib/agent-ingest.ts:180-216 | each record that no later one repeats is stored with its value and attribution under its own key and the source's string |
| IngestLaws.RowsComeFromRecords | src/lib/agent-ingest.ts:193-216 | every row of the family in the window is the row of one of the records |
| IngestLaws.SignalsAreStored | src/lib/agent-ingest.ts:217-227 | each signal that no later one repeats is stored with its hours, peak concurrency and granularity |
| IngestLaws.SubjectsAreStored | src/lib/agent-ingest.ts:184-191 | an accepted push adds exactly its declared subjects |
| IngestLaws.LastCoveringPushWins | src/lib/agent-ingest.ts:153-227 | after any pushes a family's rows on a day are exactly those of the last accepted push whose window covers the day |
| IngestLaws.OnlyTheWindowChanges | src/lib/agent-ingest.ts:153-227 | rejected pushes change nothing, and rows of other connections, families and days are untouched |
| IngestLaws.NoStaleVersion | src/db/org-scope/metrics.ts:116-143 | a push after a version bump leaves no row of an older version in its window |
| IngestLaws.ReplayIsNoOp | src/lib/agent-ingest.ts:153-227 | replaying a push changes nothing |
| IngestLaws.LastLivePushOwnsSignals | src/lib/agent-ingest.ts:162-227 | when no other source carries signals, the signals of a day are those of the last live push that covers it |
| IngestLaws.OthersLeaveSignalsExactlyWhen | src/lib/agent-ingest.ts:162-227 | a push of another source leaves all signals alone if and only if it carries none |
| IngestLaws.ExportOverwritesSignal | src/lib/agent-ingest.ts:217-227 | an accepted export push that overwrites a signal of the live source |
| IngestLaws.RunsStayHonest | src/lib/agent-ingest.ts:106-151 | no stored row is attributed to a person unless its subject is one, and every stored dim is short, clean and inside its closed set, after any run |
| IngestLaws.RunsStayRooted | src/lib/agent-ingest.ts:94-105 | every stored row and signal belongs to a stored subject, after any run |
| Adoption.PersonBySubject | src/lib/agentic-adoption.ts:199-202 | the last identity link of a subject decides |
| Adoption.Resolve | src/lib/agentic-adoption.ts:204-218 | the loop collects exactly the person-days of the rows that count and adds their unresolved subjects |
| Adoption.GroupByVendor | src/lib/agentic-adoption.ts:246-260 | each connector is grouped with exactly its agentic person-days |
| Adoption.CoveragePerVendor | src/lib/agentic-adoption.ts:246-267 | one entry for each connector that saw an agentic person-day, the largest first and then by name |
| Adoption.WeeklyBuckets | src/lib/agentic-adoption.ts:275-288 | every person-day is in the bucket of its week and in no other |
| Adoption.Trend | src/lib/agentic-adoption.ts:290-318 | one point for each complete week with a person-day, in order, and the incomplete current week apart |
| Adoption.ComputeAgenticAdoption | src/lib/agentic-adoption.ts:187-331 | the loops compute the report that the person-day sets define, with the right one of its three kinds |
| AdoptionLaws.LawsApply | src/lib/agentic-adoption.ts:187-331 | every measured report that the computation returns is one the laws below are about |
| AdoptionLaws.KindExactly | src/lib/agentic-adoption.ts:187-331 | which of the three kinds of report is returned, and its counts |
| AdoptionLaws.PersonDaysExactly | src/lib/agentic-adoption.ts:187-232 | a person-day counts exactly when a row with a positive value on one of the 84 days shows it, through the last link of its subject |
| AdoptionLaws.UnresolvedExactly | src/lib/agentic-adoption.ts:204-218 | a subject is unresolved exactly when it has such a row and no link |
| AdoptionLaws.ConnectorDaysExactly | src/lib/agentic-adoption.ts:246-260 | the person-days of a connector, where rows without one are of an unknown connector |
| AdoptionLaws.TrendExactly | src/lib/agentic-adoption.ts:269-318 | each point counts the person-days of its seven days, the cut-off week is reported apart, and no person-day is missing |
| AdoptionLaws.CoverageExactly | src/lib/agentic-adoption.ts:242-267 | each connector with an agentic person-day once, with their number, in order |
| AdoptionLaws.RatesAreShares | src/lib/agentic-adoption.ts:169-177 | every reported rate is the whole number of hundredths nearest to its own agentic days over its active days, halves going up |
| AdoptionLaws.PersonDaysAreConserved | src/lib/agentic-adoption.ts:269-318 | active and agentic counts summed over the trend and the week to date equal the headline counts |
| AdoptionLaws.HeadlineIsAmongWeeks | src/lib/agentic-adoption.ts:238-240 | the headline rate lies between the smallest and the largest weekly rate, also after rounding |
| AdoptionLaws.RateIsAPercentage | src/lib/agentic-adoption.ts:169-177 | every measured rate is between 0 and 100, and 100 when every active day is agentic |
| AdoptionLaws.AtMostTwelveWeeks | src/lib/agentic-adoption.ts:105-110 | the trend has at most twelve strictly increasing Mondays, all complete within the window and before the week to date |
| AdoptionLaws.CoverageBounds | src/lib/agentic-adoption.ts:242-267 | each connector's count is at most, and together they are at least, the headline count |
| AdoptionLaws.SamePersonDayCountsOnce | src/lib/agentic-adoption.ts:178-180 | more rows or subjects for a counted person-day change nothing |
| AdoptionLaws.DeltaIsExact | src/lib/agentic-adoption.ts:342-353 | the delta is the change between the last two complete weeks and loses nothing to rounding |
| Calendar.SameWeek | src/lib/attribution-trend.ts:133-144 | the week of a day begins on the Monday at most six days before it |
| Calendar.WeekdaysFollow | src/lib/attribution-trend.ts:137-140 | day 0 is a Thursday, and the weekdays follow one another |
| AttributionTrend.Buckets | src/lib/attribution-trend.ts:171-189 | each used week has the counts of exactly its known rows |
| AttributionTrend.Aggregate | src/lib/attribution-trend.ts:210-224 | the running totals add up the displayed buckets |
| AttributionTrend.AggregateIsSpan | src/lib/attribution-trend.ts:208-224 | those totals count every known row from the first displayed Monday to the end of the last displayed week |
| AttributionTrend.DisplayedWeeks | src/lib/attribution-trend.ts:195-196 | the displayed weeks are the latest used weeks, in order |
| AttributionTrend.ComputeAttributionTrend | src/lib/attribution-trend.ts:165-261 | the loops compute the report that the counts of the rows define |
| AttributionLaws.LadderTotals | src/lib/attribution-trend.ts:226-232 | the three rounded ladder percentages total 99.9, 100.0 or 100.1 |
| AttributionLaws.EachTotalOccurs | src/lib/attribution-trend.ts:121-127 | each of the three totals occurs |
| AttributionLaws.UsageDaysAreConserved | src/lib/attribution-trend.ts:198-232 | usage-days are conserved by week and by level |
| AttributionLaws.NoRowAfterTheTrend | src/lib/attribution-trend.ts:195-224 | the counts are those of all known rows from the first displayed Monday on |
| AttributionLaws.OneSeriesOfNumbers | src/lib/attribution-trend.ts:234-260 | headline and delta endpoints are the last and first points, the window share is the person rung, and the delta is exact |
| AttributionLaws.CountsExactly | src/lib/attribution-trend.ts:171-189 | the counts of an interval are the numbers of its rows of each level |
| AttributionLaws.UsedExactly | src/lib/attribution-trend.ts:171-196 | a week is used exactly when a row of a known level falls on one of its days |
| AttributionLaws.ReportExactly | src/lib/attribution-trend.ts:165-261 | every number of a report from the rows, each percentage the nearest tenth of its share, halves going up |
| AttributionLaws.WindowIsAmongWeeks | src/lib/attribution-trend.ts:160-163 | the window share lies between the smallest and the largest weekly share |
| AttributionLaws.TrendLength | src/lib/attribution-trend.ts:195-196 | at most the requested number of weeks is shown, and all used weeks when there are no more |
| AttributionLaws.TrendLengthExactly | src/lib/attribution-trend.ts:195-196 | the length of the trend for every option, also zero and negative ones |
| AttributionLaws.FailsExactlyWhen | src/lib/attribution-trend.ts:195-252 | reading the last point throws exactly when a negative option slices every used week away |
| AttributionLaws.NegativeWeeksFail | src/lib/attribution-trend.ts:195-252 | rows and an option for which it throws |
| AttributionLaws.RowOrderDoesNotMatter | src/lib/attribution-trend.ts:165-261 | a report of some rows is the report of them in any order |
| AttributionLaws.UnknownLevelsAreIgnored | src/lib/attribution-trend.ts:173-174 | a row of an unknown level changes nothing |
| Attribution.LowestAttribution | src/contracts/attribution.ts:25-34 | the result is one of the inputs and none of them is lower; no input throws |
| Attribution.LowestComposes | src/contracts/attribution.ts:21-34 | the lowest of two groups is the lowest of their lowest levels, in either order |
| TrackedUsers.CountTrackedUsers | src/contracts/tracked-user.ts:37-74 | the loops list exactly the tracked people and the unresolved subjects of the definition, sorted and without duplicates |
| TrackedUsers.ListingIsUnique | src/contracts/tracked-user.ts:70-73 | a set has one such listing, as long as the set is large, so the counts are determined |
| TrackedUsers.ActiveSubjectsSplit | src/contracts/tracked-user.ts:57-68 | active subjects split exactly into resolved and unresolved, and the tracked people are those of the resolved ones |
| TrackedUsers.PeriodsAddUp | src/contracts/tracked-user.ts:4-16 | tracked people over a period are the union over any split of it into any number of adjacent periods, and so are the unresolved subjects |
| TrackedUsers.LinksAreMonotone | src/contracts/tracked-user.ts:4-16 | identity links only add tracked people and only remove unresolved subjects |
| TrackedUsers.PeopleCountOnce | src/contracts/tracked-user.ts:15-16 | a further link to a counted person, or from an inactive subject, changes no count of people |
| Retention.LogTable.BatchedDelete | src/db/system.ts:526-546 | the loop deletes as many expired rows as its quota allows, whichever a batch selects, and is capped exactly when every batch was full |
| Retention.Database.PurgeExpiredRetention | src/db/system.ts:572-641 | each of the three logs loses expired rows under its own rule |
| Retention.Database.ProcessPurges | src/poller/process.ts:57-68 | repeating the purge while it is capped terminates, drains every expired row and keeps every other, in a bounded number of runs |
| Retention.ProcessPurgeMessages | src/poller/process.ts:57-68 | with the default batches every run but the last takes at least 20000 rows from the backlog |
| Retention.OnlyExpiredRowsGo | src/db/system.ts:526-641 | a run deletes only expired rows, at most batch size times batches of a table, and leaves the others as they were |
| Retention.RetainedRowsStay | src/db/system.ts:507-641 | no purge deletes an audit row of the last 365 days, a heartbeat of the last 30, or a connector run of the last 90 days or of another kind than poll and agent ingest |
| Retention.DrainedKeepsExactly | src/db/system.ts:507-641 | what a drained store keeps of each log, with the windows and kinds written out |
| Retention.DefaultRunExactly | src/db/system.ts:526-590 | with the default batches a run takes up to 20000 rows of a table, 5000 at a time, and is capped exactly from there on |
| Retention.UncappedLeavesNoneExactly | src/db/system.ts:519-546 | a run that is not capped leaves no expired row, if and only if its batches are not empty or there was none |
| Retention.EmptyBatchesLeaveARow | src/db/system.ts:526-546 | a table for which an uncapped run with batches of no rows leaves an expired row |
| Retention.NoBatchesIsCapped | src/db/system.ts:526-546 | a run of no batches deletes nothing and is capped |
| Retention.CappedTakesAQuota | src/db/system.ts:526-546 | a capped run took a full quota |
| Retention.RunMakesProgress | src/db/system.ts:572-641 | a capped run shrinks the backlog by at least a quota, another one empties it, and what a drained store keeps never changes |
| Retention.BackfillStartedIsKept | src/db/system.ts:71-105 | no purge changes any connection's started backfill, nor the dispatcher's candidates |
| Retention.CandidatesExactly | src/db/system.ts:71-105 | which connections the dispatcher finds, and when their backfill counts as started |
| AgentToken.EncodeBytes | src/lib/agent-token.ts:20-26 | the loop computes the URL-safe base64 text without padding |
| AgentToken.Base64UrlRoundTrip | src/lib/agent-token.ts:20-26 | the bytes are recoverable, and a text decodes to some bytes exactly when it is their encoding |
| AgentToken.KnownEncodings | src/lib/agent-token.ts:20-26 | the encoding agrees with examples of section 10 of RFC 4648 and uses the URL-safe characters |
| AgentToken.GeneratedSecretIsAccepted | src/lib/agent-token.ts:28-65 | 32 bytes always give a 43-character secret that parses back in a token and gives the bytes back |
| AgentToken.TokenRoundTrip | src/lib/agent-token.ts:36-65 | a token parses to some parts exactly when they are valid and compose to it |
| AgentToken.ParsesExactly | src/lib/agent-token.ts:14-65 | which texts are tokens of which parts, with prefix, UUIDs and secret written out |
| AgentToken.SameBytes | src/lib/agent-token.ts:79-83 | the accumulated difference is zero exactly for equal bytes |
| AgentToken.TimingSafeEqualStr | src/lib/agent-token.ts:72-84 | true exactly for equal strings |
| AgentToken.Utf8IsInjective | src/lib/agent-token.ts:73-75 | different texts have different UTF-8 bytes |
| Random.RandInt | scripts/seed/rng.ts:26-29 | an integer between the bounds, both inclusive; reversed bounds throw |
| Random.RandFloat | scripts/seed/rng.ts:32-34 | the draw scaled to the bounds: from the lower up to, but not including, the upper one |
| Random.JitterInt | scripts/seed/rng.ts:46-60 | the jittered and rounded base that the draw decides, but never below the floor |
| Random.JitteredBounds | scripts/seed/rng.ts:46-60 | it is never negative, and within the rounded bounds of the jitter when base and fraction are not negative |
| Random.Shuffle | scripts/seed/rng.ts:63-72 | the shuffle is the permutation that the draws decide |
| Random.EveryOrderCanCome | scripts/seed/rng.ts:63-72 | every order of the items comes up for some stream |
| SeedActivity.SlotLeavesEnough | scripts/seed/activity.ts:437-443 | one slot takes at least one unit and leaves at least one for each slot that follows |
| SeedActivity.BuildHours | scripts/seed/activity.ts:423-447 | the loop computes the histogram that the draws decide |
| SeedActivity.HistogramConserves | scripts/seed/activity.ts:423-447 | for every stream the hours sum to the larger of units and slots, are filled only at candidate hours, and exactly the kept number of slots is non-zero |
| SeedActivity.AmountsNearShare | scripts/seed/activity.ts:437-443 | every slot but the last takes between 0.6 and 1.4 of an equal share, rounded, and at least one unit |
| SeedActivity.PickWeekdayDays | scripts/seed/activity.ts:166-193 | the loops pick the days that the draws decide |
| SeedActivity.PickedExactly | scripts/seed/activity.ts:166-193 | for every stream distinct days of the range, as many as asked for or as there are, and only candidates when there are enough of them |
| SeedActivity.WeekdayCandidates | scripts/seed/activity.ts:174-179 | the loop lists the candidates that the draws decide |
| SeedActivity.CandidateListLaws | scripts/seed/activity.ts:174-179 | the candidates are in order: every weekday, and a weekend day exactly when its draw is below 0.12 |
| SeedActivity.BuildWindowCtx | scripts/seed/activity.ts:117-136 | thirteen adjacent weeks that end before the current Monday |
| SeedActivity.WeekIndexForDay | scripts/seed/activity.ts:138-154 | the scan over the weeks finds the number of the day's week |
| SeedActivity.WeekIndexMeaning | scripts/seed/activity.ts:138-154 | exactly the days before the window throw, and week numbers follow the weeks |
| SeedActivity.BuildPersonaDays | scripts/seed/activity.ts:267-328 | the loops compute the days that the draws decide, strictly sorted |
| SeedActivity.PersonaHasDensities | scripts/seed/activity.ts:267-328 | for every stream the days lie inside the eligibility bounds and the window and have the densities asked for in the month, the rest of the trailing 28 days and each of the thirteen weeks |
| SeedActivity.RampExactly | scripts/seed/activity.ts:222-227 | the weekly density rises evenly from 0.3 to 1.3 over the complete weeks |
| SeedActivity.PersonaDaysHaveWeeks | scripts/seed/activity.ts:138-154 | no day of a persona makes the week lookup throw, and its week is 14 exactly from the current Monday on |

## Left out

- Anomaly.DetectDailySpike: the displayed deviation, factor and z-score and their rounding; the verdict carries the exact mean and variance instead.
- Adoption.CoveragePerVendor: ties are ordered by character value, where the source compares by locale; month labels are not modelled and a point carries the days its label spans.
- Subscriptions.AdminQueryAgrees: subscription ids are compared by character value, whatever the collation of the database.
- SeedActivity.BuildWindowCtx: the previous-month fields of the context, which the day lists do not use.
- Ingest.Tables.IngestAgentBatch: authentication and the request schema are inputs; raw payloads, run rows, the sync mark, the metadata of subjects and the recompute message that follows a push are not modelled. A dim's length is counted in characters.
- Membership: joins and inserts are atomic steps that may fall between any two statements, more often than the database would allow; account deletion, which bypasses the lock, is not a step.
- Provisioning: the trimming of workspace names and the standalone counter.
- Bootstrap: only the definitions copied at signup are modelled, not the other namespaces that `forOrg` composes.
- Initiatives: template resolution, the baseline snapshot and the validation of a launch.
- TeamMembers: other requests that change the team between its read and its writes.
- Subscriptions: `updatedAt`, the wall clock of a write.
- Adoption: a person-day is a pair where the source joins the two with a separator; person ids are UUIDs, so the two agree.
- Validity of date strings: days arrive as day numbers.
- Retention: rows inserted while a purge runs, and a clock that moves between repeated runs.
- AgentToken: the randomness of secrets, their storage, and strings with unpaired surrogates.
- Random: the generator's own recurrence.
- SeedActivity: which streams make which picks likely, and the emitters that use the days.
- `metricsSeries`, `acceptInvite`, `setTeamManager` and the read-side collapse of sources would add easier members.
- React components, routes, the desktop shell and foreign services.
