# A verified model of the device-management services

Several of the platform's services carry small algorithms and protocols whose behaviour is easy to
misjudge from the code: a compiler from rule trees to SQL text, a policy merge that should not depend on
order, point-in-polygon tests, expiring keys, retry loops and locks whose steps interleave. This project
models those pieces in Dafny and proves what they promise. Where a promise does not hold of the code, the
project says exactly when it does.

| part | modules |
|---|---|
| dynamic device groups | `SqlText` (text, lexer, parser, three-valued evaluation), `DynamicGroupRules` (the compiler), `DynamicGroupOperators` (what each operator and field asks), `DynamicGroupMeaning` (compiler against parser), `DynamicGroupMembership` (the two reconcilers) |
| effective policies | `PolicyMerge`, `PolicyPreview` (the merge that reports), `PolicyResolver` (order and strategies), `PolicyPrecedence` (who wins, by priority and scope), `PolicyAgreement` (when order does not matter), `PolicyCollection` |
| geofencing | `Geo` (ray casting), `GeofenceVisits` (one device at one geofence), `GeofenceTracker` (all of them, and the view of devices inside) |
| compliance | `Versions`, `ComplianceRules` (conditions), `ComplianceOperators` (what each operator says), `ComplianceViolations` (one evaluation), `ComplianceReconciliation` (sequences of evaluations, the score), `ComplianceOverlap` (evaluations that overlap) |
| circuit breaker | `CircuitBreaker`, `CircuitBreakerObserved` (what an observer can tell) |
| commands | `CommandPipeline` (table, history, queue and each actor), `CommandSchedule` (the plans step by step), `CommandRuns` (their interleavings) |
| remote control | `RemoteSessions` (sessions and channels), `RemoteRuns` (all sequences of calls and reads), `RemoteRouting` (which side gets what) |
| rate limiting | `RateLimiter` (interleaved calls), `RateLimiterOverlap` (calls that count before another's insertion), `RateLimiterCalls` (calls one after the other) |
| audit log, group tree | `AuditBuffer`, `GroupForest` |
| shared | `Common`, `Strings` |

Objects that the services change in place are classes here, and each method is proved against a function
of the old state. What happens over time, or when locked steps interleave, is stated about runs: sequences
of events, each allowed by the state it meets. Clocks, random ids, failures of stores and results of
deliveries are parameters or part of the events. Stores are maps, sequences, sets and multisets with ideal operations.

## How the code differs from what its documentation promises

- `services/policy-service/internal/model` knows the strategy `least_restrictive`; the resolver has no case
  for it and treats it as highest priority (`services/policy-service/internal/engine/resolver.go:189-191`).
- The comment of `EndSession` announces a bye to both sides; it reaches only the admin side
  (`RemoteRuns.ByeReachesOnlyAdmin`).
- A compliance score is documented as 0 to 100 and can be negative (`ComplianceReconciliation.ScoreCanBeNegative`
  and, for the exact condition, `ScoreIsPercentage`).
- The limiter can admit more than `maxRequests`: its rejection path removes every entry of the current
  millisecond (`RateLimiterCalls.NextBreaksLimitIffShared`), and its pipeline is no transaction, so calls of
  other instances may come between count and insertion (`RateLimiterOverlap.LimitHoldsIffNoOverlap`).
- Rule operators that the route accepts are refused by the database on enum and timestamp columns
  (`DynamicGroupRules.PatternOnTypedColumn`).
- Tied policies can resolve by the order in which they were collected (`PolicyAgreement.ResolvesToIffDetermined`,
  and `PolicyCollection.FirstRowDecides` for the rows of a device).
- Overlapping evaluations of one heartbeat can open a violation twice (`ComplianceOverlap.OneIffNoOverlap`).
- An `or` without parts holds; a missing field fails `neq` as well as `eq`, and NaN fails `gt` as well as `lte`
  (`ComplianceRules.OrIsDisjunctionIffItHasParts`, `NegationsComplementIffComparable`).
- Terminal command states are not final (`CommandRuns.NoStatusIsAbsorbing`), and the first retry delay of the
  schedule, one second, is never used (`services/command-service/internal/dispatcher/dispatcher.go:88`).

## Model

| member | source | states |
|---|---|---|
| SqlText.LexLiteral | services/admin-api/src/services/dynamic-groups.ts:63-65 | A value quoted by doubling its quotes is read back as one literal with exactly that value, whatever quotes, parentheses or words it contains. |
| SqlText.LexRender | services/admin-api/src/services/dynamic-groups.ts:78-127 | Text written from tokens that are kept apart is lexed back into exactly those tokens. |
| DynamicGroupRules.BuildsIffKnown | services/admin-api/src/services/dynamic-groups.ts:59-127 | Compiling a rule tree throws if and only if some condition has an unknown field, or an unknown operator that is not overridden by a relative time. |
| DynamicGroupRules.RuleText | services/admin-api/src/services/dynamic-groups.ts:59-127 | The text the compiler assembles by string concatenation is the written form of the rule's token sequence. |
| DynamicGroupRules.LexRule | services/admin-api/src/services/dynamic-groups.ts:59-127 | Lexing the compiled text gives back the rule's tokens: no value can open, close or extend a literal. |
| DynamicGroupMeaning.ParseRule | services/admin-api/src/services/dynamic-groups.ts:59-127 | With AND binding tighter than OR, a compiled rule parses as one primary that is the rule's own tree and stops there; it fails to parse if and only if the rule has an empty group or an empty `in` list. |
| DynamicGroupMeaning.ParseWhereRule | services/admin-api/src/services/dynamic-groups.ts:151 | The whole clause, id filter AND rules, parses as the conjunction of the filter and the rule's tree. |
| DynamicGroupMeaning.EvalRule | services/admin-api/src/services/dynamic-groups.ts:59-127 | In three-valued logic the parsed tree has the same truth value on every row as the rule read directly. |
| DynamicGroupMeaning.CompilationPreservesMeaning | services/admin-api/src/services/dynamic-groups.ts:59-151 | For every row and every rule tree that compiles: the clause parses exactly when no group and no `in` list is empty; then its three-valued truth is that of the id filter and the rule itself; and the database accepts it exactly when its types allow every condition of the rule, however deep, and the id filter. |
| DynamicGroupMeaning.AcceptedRule | services/admin-api/src/services/dynamic-groups.ts:59-127 | What a rule parses to is accepted by the database exactly if every one of its conditions is: compiling adds and drops no comparison, pattern or interval. |
| DynamicGroupRules.PatternOnTypedColumn | services/admin-api/src/db/schema.ts:62-84 | With the columns of the schema, `contains`, `not_contains`, `starts_with` and `regex` on an enum or timestamp column compile and are well formed, and the database refuses them. |
| DynamicGroupMeaning.EmptyGroupIsRejected | services/admin-api/src/services/dynamic-groups.ts:120-127 | An empty group compiles without an error, but the database cannot parse the result. |
| DynamicGroupOperators.FieldIsLookedUp | services/admin-api/src/services/dynamic-groups.ts:37-49 | Each of the eleven field names is looked up in its own column, under the text of that column. |
| DynamicGroupOperators.OtherFieldsAreRefused | services/admin-api/src/services/dynamic-groups.ts:60-61 | Any other field is refused by its name, whatever the operator. |
| DynamicGroupOperators.OtherOperatorsAreRefused | services/admin-api/src/services/dynamic-groups.ts:115-116 | Any operator name but the eleven is refused by name, unless the value is an age of last_seen_at. |
| DynamicGroupOperators.ComparisonsAsk | services/admin-api/src/services/dynamic-groups.ts:88-99 | What eq, neq, gt, gte, lt and lte ask of a value that is not NULL, in terms of the database's equality and order. |
| DynamicGroupOperators.PatternsAsk | services/admin-api/src/services/dynamic-groups.ts:100-114 | What contains, not_contains, starts_with and regex ask of such a value. |
| DynamicGroupOperators.ListsAsk | services/admin-api/src/services/dynamic-groups.ts:106-112 | `in` asks for equality with some element of the list. |
| DynamicGroupOperators.TextsAreLists | services/admin-api/src/services/dynamic-groups.ts:106-112 | Under `in` a text is the list of its trimmed parts between commas, in meaning and in compiled text. |
| Strings.TrimTakesSpace | services/admin-api/src/services/dynamic-groups.ts:109 | Trimming takes away white space only, at both ends, and all of it. |
| DynamicGroupOperators.ListsElsewhereAreEmpty | services/admin-api/src/services/dynamic-groups.ts:63-65 | A list given to any other operator counts as the empty text. |
| DynamicGroupOperators.NullIsUnknown | services/admin-api/src/services/dynamic-groups.ts:87-117 | NULL satisfies neither a condition nor its negation. |
| DynamicGroupOperators.AgesAsk | services/admin-api/src/services/dynamic-groups.ts:67-85 | A number with d, h or m on last_seen_at: gte and lte ask for rows not seen for that many days, hours or minutes, every other operator name for rows seen since. |
| DynamicGroupOperators.AgesCompile | services/admin-api/src/services/dynamic-groups.ts:67-85 | The text of such a condition, for each unit and operator name. |
| DynamicGroupOperators.ComparisonsCompile | services/admin-api/src/services/dynamic-groups.ts:88-99 | The text of the six comparisons for every value, after the text of the column. |
| DynamicGroupOperators.PatternsCompile | services/admin-api/src/services/dynamic-groups.ts:100-114 | The text of the four patterns for every value. |
| DynamicGroupOperators.ListsCompile | services/admin-api/src/services/dynamic-groups.ts:106-112 | The text of `in`: every element quoted, in its place. |
| DynamicGroupOperators.GroupsAsk | services/admin-api/src/services/dynamic-groups.ts:120-127 | In three-valued logic an `and` group is true if all its conditions are and false if one is false; an `or` group the other way round. |
| DynamicGroupOperators.GroupsCompile | services/admin-api/src/services/dynamic-groups.ts:120-127 | A group compiles to its parts in parentheses, joined by AND or OR. |
| DynamicGroupMembership.SelectByOrg | services/admin-api/src/services/dynamic-groups.ts:149-154 | The membership query selects exactly the devices of the organisation that satisfy the rules. |
| DynamicGroupMembership.SelectById | services/admin-api/src/services/dynamic-groups.ts:228-232 | The single-device query selects the device if and only if it satisfies the rules. |
| DynamicGroupMembership.GroupStore.EvaluateMembership | services/admin-api/src/services/dynamic-groups.ts:135-198 | Fails exactly if the rules do not compile, do not parse or are refused for their types, and then changes nothing; otherwise leaves exactly the matching devices of the organisation as members, returns the sizes of the two set differences and logs them; a group that is not dynamic is left alone. |
| DynamicGroupMembership.GroupStore.EvaluateDevice | services/admin-api/src/services/dynamic-groups.ts:203-260 | Settles the device in every dynamic group with rules of its organisation and logs each change, up to the first group whose rules cannot be run, where it fails; an unknown device changes nothing. |
| DynamicGroupMembership.RuledGroupsAreSettled | services/admin-api/src/services/dynamic-groups.ts:222-259 | One group of the sweep in full: where its rules cannot be run the sweep fails and stops; otherwise the device is added or removed as its rules say, a removal logged always, an addition where the group has policies. |
| DynamicGroupMembership.OtherGroupsArePassedOver | services/admin-api/src/services/dynamic-groups.ts:214-223 | Groups of other organisations, of other kinds or without rules are passed over. |
| DynamicGroupMembership.ChangesAreLogged | services/admin-api/src/services/dynamic-groups.ts:170-190 | Added and removed devices are logged with their numbers, additions only where the group has policies. |
| DynamicGroupMembership.GroupStore.PreviewRules | services/admin-api/src/services/dynamic-groups.ts:265-280 | Counts all matching devices, shows at most a hundred of them, all matching, and changes no membership. |
| DynamicGroupMembership.RefreshByDifference | services/admin-api/src/services/dynamic-groups.ts:165-190 | Adding the one difference and removing the other gives exactly the matching set, and leaves other groups alone. |
| DynamicGroupMembership.RefreshIdempotent | services/admin-api/src/services/dynamic-groups.ts:135-198 | Evaluating a group again with the same answers changes nothing and counts nothing. |
| DynamicGroupMembership.RefreshAllAt | services/admin-api/src/services/dynamic-groups.ts:135-198 | Who is a member of what after evaluating every ruled group. |
| DynamicGroupMembership.SweepAllAt | services/admin-api/src/services/dynamic-groups.ts:203-260 | Who is a member of what after evaluating every device, in any order. |
| DynamicGroupMembership.ReconcilersAgree | services/admin-api/src/services/dynamic-groups.ts:135-260 | Evaluating every group and evaluating every device give the same memberships if and only if no prior member of a ruled group is foreign to the group's organisation. |
| PolicyMerge.MergeTakesTheHigher | services/policy-service/internal/engine/resolver.go:377-412 | All branches of the value merge are one rule: the incoming value replaces one of its own kind that is strictly less restrictive, and nothing else. |
| PolicyMerge.MergesAsDocumented | services/policy-service/internal/engine/resolver.go:292-323 | Of two flags one that is set, of two numbers the greater, of two password qualities the later of the eight in their order; texts of other keys keep the first. |
| PolicyMerge.UnlikeValuesKeepTheFirst | services/policy-service/internal/engine/resolver.go:377-412 | Values of different kinds and null keep the first. |
| PolicyMerge.UnknownQualitiesAreLowest | services/policy-service/internal/engine/resolver.go:398-408 | A quality outside the list never replaces one, and is replaced by every listed one but the lowest. |
| PolicyMerge.Winner | services/policy-service/internal/engine/resolver.go:307-323 | The position the merge takes its value from: the earliest of the highest values comparable to the first one. |
| PolicyMerge.MergedIsWinner | services/policy-service/internal/engine/resolver.go:307-323 | Merging value after value ends with exactly the value at the winning position. |
| PolicyMerge.WinnerIsUnique | services/policy-service/internal/engine/resolver.go:307-323 | There is only one such position. |
| PolicyMerge.MergedIsLeastUpperBound | services/policy-service/internal/engine/resolver.go:304-323 | Values that are all flags, all numbers or all quality levels merge into their least upper bound: one of them and at least as restrictive as each; for flags, true exactly if one is true. |
| PolicyMerge.OpaqueStays | services/policy-service/internal/engine/resolver.go:410-411 | A first value that cannot be merged is kept. |
| PolicyMerge.SettledIsOrderIndependent | services/policy-service/internal/engine/resolver.go:377-412 | If one of the values is of the same kind as every value that differs from it and strictly more restrictive, the merge depends on the set of values only, not on order or repetition. |
| PolicyMerge.SettledIffOrderIndependent | services/policy-service/internal/engine/resolver.go:377-412 | The merged value is the same for every order of the values if and only if one of the values beats every value that differs from it. |
| PolicyMerge.AlikeValuesAreSettled | services/policy-service/internal/engine/resolver.go:293-302 | Flags, numbers and the listed quality levels never tie, so keys holding only one of these kinds always meet that condition. |
| PolicyMerge.MergeIsUnique | services/policy-service/internal/engine/resolver.go:307-323 | There is one merged payload: the iteration order of the maps cannot show. |
| PolicyMerge.MergeOfOne | services/policy-service/internal/engine/resolver.go:163-165 | The merge of a single policy is its own payload. |
| PolicyMerge.MergeIsOrderIndependent | services/policy-service/internal/engine/resolver.go:307-323 | The merged payload is the same for any order and repetition of the policies when every key meets the condition above. |
| PolicyMerge.MergeRestrictive | services/policy-service/internal/engine/resolver.go:307-323 | The two loops, whatever order each payload's keys come in, compute the merge: the union of the keys, each with the merge of its values in policy order. |
| PolicyPreview.MergeRestrictiveWithDetails | services/policy-service/internal/engine/resolver.go:326-374 | The twin computes the same payload, and reports each key once with the earliest policy that holds the final value, the number of policies holding the key, and the matching reason. |
| PolicyPreview.EarlierIsLower | services/policy-service/internal/engine/resolver.go:338-345 | When a value replaces the merged one, no earlier policy held it. |
| PolicyPreview.CountKeys | services/policy-service/internal/engine/resolver.go:349-354 | The count of a key is the number of policies that hold it. |
| PolicyResolver.SortPolicies | services/policy-service/internal/engine/resolver.go:283-290 | In place: no policy stands behind one that it precedes (priority, then specificity), the policies are the same, and policies already in such an order keep it. |
| PolicyPrecedence.SortedIsByPriorityThenScope | services/policy-service/internal/engine/resolver.go:283-290 | The order sorted by is this one: priorities do not increase, and among equal ones no policy stands before one of a more specific scope: device before group before organisation before any other. |
| PolicyPrecedence.HighestPriorityWins | services/policy-service/internal/engine/resolver.go:168-193 | The first policy, which sets the strategy and by default is the outcome, has the highest priority of all, and none of that priority is more specific. |
| PolicyPrecedence.HighestOfScopeWins | services/policy-service/internal/engine/resolver.go:176-188 | Under device_wins and org_wins the outcome has the highest priority among the policies of that scope, or of all where none has it. |
| PolicyPrecedence.ReasonsAreGiven | services/policy-service/internal/engine/resolver.go:197-281 | What the detailed resolution reports of a policy taken whole: every key once, with its value, name, scope, reason and number of candidates. |
| PolicyPrecedence.MergeIsReported | services/policy-service/internal/engine/resolver.go:326-374 | What it reports of a merge: the earliest policy that holds the merged value, how many policies hold the key, and whether only one does. |
| PolicyResolver.ResolveConflicts | services/policy-service/internal/engine/resolver.go:159-193 | Sorts in place and returns the outcome of the first policy's strategy over that order, which is the given one if that was sorted; nothing for no policies. |
| PolicyResolver.ResolveConflictsWithDetails | services/policy-service/internal/engine/resolver.go:197-281 | Sorts in place, returns the outcome over that order, and explains each key of it under every strategy. |
| PolicyResolver.OutcomeIsUnique | services/policy-service/internal/engine/resolver.go:159-281 | Over one order every strategy has one outcome, so the plain and the detailed resolution return the same policy and payload. |
| PolicyResolver.OutcomeOfOne | services/policy-service/internal/engine/resolver.go:163-165 | Returning a single policy at once is what each strategy would have returned. |
| PolicyResolver.NothingPrecedesTheFirst | services/policy-service/internal/engine/resolver.go:168-193 | The policy that sets the strategy, and wins by default, is one that no other precedes. |
| PolicyResolver.ScopeStrategyPicksBestOfScope | services/policy-service/internal/engine/resolver.go:176-188 | Under device_wins or org_wins the winner is of that scope if any policy is, and none of the scope precedes it. |
| PolicyResolver.SortedOrderIsUnique | services/policy-service/internal/engine/resolver.go:283-290 | Without ties there is one sorted order. |
| PolicyResolver.ResolutionIsDeterministic | services/policy-service/internal/engine/resolver.go:159-281 | Without ties any two resolutions of the same policies agree, in whatever order they were collected. |
| PolicyAgreement.EveryWinnerWins | services/policy-service/internal/engine/resolver.go:159-193 | Whichever policy can come first: if its strategy takes one policy whole, every policy that this strategy can choose (itself, or for the scope strategies any best policy of the scope) wins for some order of collection. |
| PolicyAgreement.WinnerIsChosen | services/policy-service/internal/engine/resolver.go:159-193 | And no other ever wins. |
| PolicyAgreement.PrevailingIsMerged | services/policy-service/internal/engine/resolver.go:304-323 | Where such values prevail, every order that starts with the same policy merges to them. |
| PolicyAgreement.MergedPrevails | services/policy-service/internal/engine/resolver.go:304-323 | A payload that every order starting with that policy merges to consists of prevailing values. |
| PolicyAgreement.ResolvesToIffDetermined | services/policy-service/internal/engine/resolver.go:159-193 | Under every strategy, mixed ones included: the resolution is the same for every order in which the policies were collected, namely r, if and only if each policy that no other precedes can only choose r, or merges, has the policy of r, and every value of r prevails: it is held, no held value beats it, and it equals or beats each value that can come first. |
| PolicyCollection.FirstRowDecides | services/policy-service/internal/repository/policy_repository.go:234-257 | An instance, from the rows of the query on: of two policies of equal priority assigned to the device alone and left to priority, the one whose row is read first is collected first, stays first when sorted, and is the outcome. |
| PolicyCollection.RecordScopes | services/policy-service/internal/engine/resolver.go:110-124 | Each id recorded has the scope of the last list it occurs in. |
| PolicyCollection.UniqueIds | services/policy-service/internal/engine/resolver.go:446-456 | Exactly the given ids, each once, in the order of their first occurrence. |
| PolicyCollection.CollectPoliciesByType | services/policy-service/internal/engine/resolver.go:88-150 | Fails exactly if one of the assignment queries fails; otherwise lists under each type exactly its active policies with a version, each once, with the most specific scope it is assigned at. |
| PolicyCollection.EveryApplyingPolicyIsCollected | services/policy-service/internal/engine/resolver.go:126-147 | Every applying policy that is assigned anywhere on the path to the device is in the collection, as the entry of its most specific level. |
| PolicyCollection.OnlyApplyingPoliciesAreCollected | services/policy-service/internal/engine/resolver.go:126-147 | And nothing else: every entry is an assigned, active policy of the type it is listed under, with its latest version. |
| PolicyCollection.GetEffectivePolicies | services/policy-service/internal/engine/resolver.go:49-64 | Resolves one policy for every type that has an applying policy and none for others. |
| Geo.CrossesBySide | services/geofence-service/internal/geo/geo.go:27-30 | An edge counts exactly if its ends lie on different sides of the ray's line and the point is below it: the division is the sign of an area. |
| Geo.CrossesIsSymmetric | services/geofence-service/internal/geo/geo.go:27-30 | An edge counts the same in both directions. |
| Geo.PointInPolygon | services/geofence-service/internal/geo/geo.go:18-34 | The loop answers whether an odd number of the closed ring's edges count; fewer than three vertices hold nothing. |
| Geo.TwoVerticesHoldNothing | services/geofence-service/internal/geo/geo.go:20-22 | The guard for fewer than three vertices decides nothing that the loop would not. |
| Geo.RotationKeepsAnswer | services/geofence-service/internal/geo/geo.go:18-34 | The answer does not depend on which vertex is listed first. |
| Geo.ReversalKeepsAnswer | services/geofence-service/internal/geo/geo.go:18-34 | The answer does not depend on the direction in which the vertices are listed. |
| Geo.CutAlongDiagonal | services/geofence-service/internal/geo/geo.go:18-34 | Cut along any diagonal, the answers for the two parts differ exactly where the whole says inside: zones sharing an edge never both claim, nor both miss, a point of the union. |
| Geo.FanDecidesPolygon | services/geofence-service/internal/geo/geo.go:18-34 | A polygon holds a point exactly if an odd number of its fan triangles do. |
| Geo.TriangleIsStrictInterior | services/geofence-service/internal/geo/geo.go:18-34 | For a triangle and a point on none of its lines the answer is the strict interior. |
| Geo.BeyondTheBoxIsOutside | services/geofence-service/internal/geo/geo.go:24-33 | A point at or beyond the greatest latitude, or beside all longitudes, is never inside. |
| Geo.BelowTheBoxIsOutside | services/geofence-service/internal/geo/geo.go:24-33 | A point below the least latitude is never inside: a closed ring changes side an even number of times. |
| GeofenceVisits.FlagsBelongToVisits | services/geofence-service/internal/handler/geofence_handler.go:179-206 | After every run of reports, a live dwell flag belongs to a state key that is inside and outlives it. |
| GeofenceVisits.EntersStartWithoutFlag | services/geofence-service/internal/handler/geofence_handler.go:154-206 | While the flag is live the device is inside by a live state key, so every enter starts without a flag. |
| GeofenceVisits.EntryTimeIsLatestEnter | services/geofence-service/internal/handler/geofence_handler.go:154-184 | While a device is inside, the stored entry time is the time of its latest enter event, whether or not keys have lapsed. |
| GeofenceVisits.DwellTakesDwellTime | services/geofence-service/internal/handler/geofence_handler.go:186 | A dwell comes only after the device has been inside for longer than the dwell time since its latest enter event. |
| GeofenceVisits.DwellsAreADayApart | services/geofence-service/internal/handler/geofence_handler.go:186-197 | Two dwells of one visit are at least 24 hours apart, and n dwells at least n - 1 times 24. |
| GeofenceVisits.EventsAreEdges | services/geofence-service/internal/handler/geofence_handler.go:153-178 | If the state key never lapses, an enter is logged exactly on a change to inside and an exit exactly on a change to outside. |
| GeofenceVisits.LatestEventTellsState | services/geofence-service/internal/handler/geofence_handler.go:153-206 | If the state key never lapses, the events are enter, dwells, exit and so on, and the latest one tells where the latest report was. |
| GeofenceVisits.StreamWithoutLapses | services/geofence-service/internal/handler/geofence_handler.go:153-206 | With no lapsed keys the events are a prefix of (enter, at most one dwell, exit) repeated. |
| GeofenceVisits.ViewIsRightIffNoMissedExit | services/admin-api/src/routes/geofences.ts:242-258 | With lapses: the newest event says inside if and only if the stored state does or the device was reported outside, without an exit, after its state key had lapsed. |
| GeofenceVisits.AMissedExit | services/geofence-service/internal/handler/geofence_handler.go:200-206 | Two days of silence and a report from outside: the log goes on saying inside. |
| GeofenceTracker.Tracker.Report | services/geofence-service/internal/handler/geofence_handler.go:146-206 | One geofence's transition over the stored keys: the new state, the dwell flag and the event are those of a single visit's step. |
| GeofenceVisits.ReportInFull | services/geofence-service/internal/handler/geofence_handler.go:146-206 | One report in full: which event, what is stored, the dwell time in seconds, the flag for 24 hours and the state for 48. |
| GeofenceTracker.ShapesHoldPoints | services/geofence-service/internal/handler/geofence_handler.go:147 | Circles by the given distance test, polygons by ray casting; a polygon that cannot be parsed and an unknown type hold no point. |
| GeofenceTracker.InsideByShape | services/geofence-service/internal/handler/geofence_handler.go:146-148 | In the ids the runs are stated over, each geofence is in exactly where its own shape holds the point: the distance test, the ray casting of a parsed polygon, or never. |
| GeofenceTracker.Tracker.ProcessLocationEvent | services/geofence-service/internal/handler/geofence_handler.go:136-245 | Every active geofence is stepped once, in order, and the returned events are the saved ones; a failed listing changes nothing. |
| GeofenceTracker.CellsAreIndependent | services/geofence-service/internal/handler/geofence_handler.go:136-245 | However reports of other devices and geofences come between, each device at each geofence runs as if it were alone. |
| GeofenceTracker.InsideDevices | services/admin-api/src/routes/geofences.ts:244-256 | Lists, once each, exactly the devices whose newest event is not an exit. |
| GeofenceTracker.ViewMatchesState | services/admin-api/src/routes/geofences.ts:235-261 | For every run over all devices: the view of a geofence lists a device if and only if its stored state is inside or its exit was missed during a lapse. |
| GeofenceTracker.ViewIsStateWithoutLapse | services/admin-api/src/routes/geofences.ts:235-261 | If the device's state key never lapses the view is exactly the stored state. |
| Versions.CompareVersions | services/compliance-service/internal/engine/evaluator.go:174-199 | The loop returns the sign of the order that pads the shorter version with zeros and compares the first differing part. |
| Strings.SplitJoins | services/compliance-service/internal/engine/evaluator.go:175-176 | Splitting gives parts without the separator that join to the text again. |
| Versions.AtoiReadsNumbers | services/compliance-service/internal/engine/evaluator.go:183-190 | A part of digits counts as the nearest 64-bit integer, signed by a leading minus; digits beyond the unsigned range count so whatever characters follow, because the library stops reading there. |
| Versions.AtoiOfOthers | services/compliance-service/internal/engine/evaluator.go:183-190 | A part that is no number counts as 0: empty, a sign alone, or with a character that is no digit before the digits overflow. |
| Versions.DigitsAreDecimal | services/compliance-service/internal/engine/evaluator.go:183-190 | The digits of a part are read in decimal, the first counting for the highest power of ten. |
| Versions.FirstDifferenceDecides | services/compliance-service/internal/engine/evaluator.go:174-199 | Of two lists of parts, the one lower in the first part that differs compares as -1, and a missing part counts as 0. |
| Versions.LowerNumberIsLower | services/compliance-service/internal/engine/evaluator.go:174-199 | Behind the same parts, the text whose next part is the lower number is the lower version, whatever follows: 1.9 before 1.10. |
| Versions.CompareIsZeroForSame | services/compliance-service/internal/engine/evaluator.go:174-199 | Two versions compare equal exactly if all their padded parts are equal. |
| Versions.CompareIsAntisymmetric | services/compliance-service/internal/engine/evaluator.go:174-199 | Swapping the versions negates the result. |
| Versions.CompareIsTransitive | services/compliance-service/internal/engine/evaluator.go:174-199 | The order is transitive, and equal only if both steps are. |
| Versions.AppendingZeroChangesNothing | services/compliance-service/internal/engine/evaluator.go:174-199 | Appending ".0" to a version string changes no comparison. |
| ComplianceRules.VersionOperatorsAreConsistent | services/compliance-service/internal/engine/evaluator.go:143-159 | Exactly one of lt, eq and gt holds of a reported version; gte, lte and neq are the negations of lt, gt and eq. |
| ComplianceRules.TrailingZeroInRuleIsIgnored | services/compliance-service/internal/engine/evaluator.go:143-159 | A trailing ".0" in a rule's version changes no outcome of the six comparison operators. |
| ComplianceRules.Evaluate | services/compliance-service/internal/engine/evaluator.go:40-61 | The evaluator's loops and recursion compute the outcome of the condition document, including its errors. |
| ComplianceOperators.NumbersAreCompared | services/compliance-service/internal/engine/evaluator.go:84-91 | On every field but the two versions: gt, gte, lt and lte compare the reported number with the target, infinities and NaN included. |
| ComplianceOperators.RealsAreCompared | services/compliance-service/internal/engine/evaluator.go:84-91 | Of two real numbers: x > y, x >= y, x < y and x <= y. |
| ComplianceOperators.OthersAreErrors | services/compliance-service/internal/engine/evaluator.go:209-240 | Where either side is no number, the four are errors. |
| ComplianceOperators.TextsAreCompared | services/compliance-service/internal/engine/evaluator.go:80-95 | eq, neq, contains and not_contains compare the formatted value: equality and occurrence at some place. |
| ComplianceOperators.TextsAreLookedUp | services/compliance-service/internal/engine/evaluator.go:96-103 | in, bool_eq and regex: some trimmed element of the list, equal truth values, a match or an error. |
| ComplianceOperators.OtherNamesAreErrors | services/compliance-service/internal/engine/evaluator.go:104-106 | Any other operator name is an error on a reported field. |
| ComplianceOperators.VersionsAreCompared | services/compliance-service/internal/engine/evaluator.go:143-159 | On the two version fields the six names compare versions part by part. |
| ComplianceOperators.VersionTextsAreMatched | services/compliance-service/internal/engine/evaluator.go:160-170 | There contains and regex look at the text, and the other three are errors. |
| ComplianceOperators.CompoundsCombine | services/compliance-service/internal/engine/evaluator.go:109-140 | Without errors `and` needs all parts, `or` one, and either holds without parts. |
| ComplianceRules.UnreportedPassesIffVacuous | services/compliance-service/internal/engine/evaluator.go:69-72 | A device that reported none of a condition's fields evaluates without error, whatever the operators, and passes if and only if empty compounds alone satisfy the condition; it fails every condition whose compounds all have parts. |
| ComplianceRules.NegationsComplementIffComparable | services/compliance-service/internal/engine/evaluator.go:69-92 | Where both evaluate, a condition and its negation (eq and neq, contains and not_contains, gt and lte, gte and lt) have opposite outcomes if and only if the field was reported and neither of two numbers to be compared is NaN. |
| ComplianceRules.CleanOutcomeIsLogic | services/compliance-service/internal/engine/evaluator.go:63-140 | If no field condition errs, the short-circuiting evaluation is the classical reading of the tree, so the order of the parts does not matter. |
| ComplianceRules.FirstOutcomeDecides | services/compliance-service/internal/engine/evaluator.go:114-136 | A compound's outcome, an error too, is that of its first part that is not passed over. |
| ComplianceRules.ArrayIsAnd | services/compliance-service/internal/engine/evaluator.go:43-58 | An array of conditions is the compound `and` of them. |
| ComplianceRules.OrIsDisjunctionIffItHasParts | services/compliance-service/internal/engine/evaluator.go:110-136 | Without errors an `or` is the disjunction of its parts if and only if it has parts. |
| ComplianceViolations.HandledAllAdds | services/compliance-service/internal/handler/compliance_handler.go:54-93 | Going through the rules one by one adds the new violations and dispatches behind the old ones, and changes nothing else. |
| ComplianceViolations.Handler.EvaluateCompliance | services/compliance-service/internal/handler/compliance_handler.go:32-116 | The whole new table, also with failing reads, inserts and updates: which violations are resolved, which are new, which actions are dispatched; compliant exactly if no rule is cleanly violated. |
| ComplianceViolations.ResolvesTheSettled | services/compliance-service/internal/handler/compliance_handler.go:95-104 | The updates by id resolve exactly the read violations whose rule is not violated, and never one created in the same run. |
| ComplianceReconciliation.ActiveAfter | services/compliance-service/internal/handler/compliance_handler.go:51-104 | With any failures: a rule has an active violation afterwards exactly if it had one that is not resolved or opened a new one. |
| ComplianceReconciliation.ActiveAreTheViolated | services/compliance-service/internal/handler/compliance_handler.go:51-104 | Without failures: afterwards the rules with an active violation are exactly those evaluating cleanly to false. |
| ComplianceReconciliation.RulesAreJudged | services/compliance-service/internal/handler/compliance_handler.go:51-104 | After an evaluation in which no call failed, a rule has an active violation for the device exactly where its document evaluates to false without an error. |
| ComplianceReconciliation.ErrorResolvesViolation | services/compliance-service/internal/handler/compliance_handler.go:55-60 | A rule whose evaluation errs has no active violation afterwards. |
| ComplianceReconciliation.OthersUnchanged | services/compliance-service/internal/handler/compliance_handler.go:78-104 | Violations of other devices and organisations are untouched. |
| ComplianceReconciliation.DispatchedForNewViolations | services/compliance-service/internal/handler/compliance_handler.go:119-131 | The actions dispatched are exactly those of new violations' rules without a grace period. |
| ComplianceReconciliation.RepeatChangesNothing | services/compliance-service/internal/handler/compliance_handler.go:32-116 | Evaluating again with the same rules and state creates, resolves and dispatches nothing. |
| ComplianceReconciliation.AtMostOneIsKept | services/compliance-service/internal/handler/compliance_handler.go:43-69 | One active violation per device and rule is kept if and only if no failed read lets a violated rule with an active violation open a second. |
| ComplianceReconciliation.RunsKeepAtMostOne | services/compliance-service/internal/handler/compliance_handler.go:32-116 | Any sequence of evaluations from an empty table in which the reads succeed keeps at most one active violation per device and rule. |
| ComplianceOverlap.ApartKeepsOne | services/compliance-service/internal/handler/compliance_handler.go:43-104 | Reads and single writes of evaluations in any order: if no read fails and no two evaluations of one device are in progress at once, every interleaving keeps at most one active violation per device and rule. |
| ComplianceOverlap.OverlapOpensTwice | services/compliance-service/internal/subscriber/heartbeat_subscriber.go:49 | From any state: two evaluations of a device that both read before either writes open the same violation twice, as two replicas do on one heartbeat. |
| ComplianceOverlap.OneIffNoOverlap | services/compliance-service/internal/handler/compliance_handler.go:43-104 | If at most k evaluations of a device are in progress at once and no read fails, at most one active violation is always kept if and only if k is at most 1. |
| ComplianceOverlap.AloneIsEvaluated | services/compliance-service/internal/handler/compliance_handler.go:43-104 | The reads and writes of an evaluation on its own leave the table of the sequential handler. |
| ComplianceOverlap.StepsWriteAll | services/compliance-service/internal/handler/compliance_handler.go:54-104 | From every state, the steps of one evaluation in a row make exactly its planned writes. |
| ComplianceReconciliation.CalculateDeviceScore | services/compliance-service/internal/service/scoring.go:22-44 | Counts each violated rule once; 100 for no rules. |
| ComplianceReconciliation.ScoreIsPercentage | services/compliance-service/internal/service/scoring.go:42-43 | The score lies in 0..100 if and only if no more rules are violated than are listed, and is 100 if and only if none is. |
| ComplianceReconciliation.ScoreAfterEvaluation | services/compliance-service/internal/service/scoring.go:22-44 | Right after an evaluation without failures the score over the same rules lies in 0..100 and is 100 exactly for a compliant device. |
| ComplianceReconciliation.ScoreCanBeNegative | services/compliance-service/internal/service/scoring.go:42-43 | With a rule deactivated since, the score can be -100. |
| CircuitBreaker.Breaker.BeforeCall | services/device-service/internal/resilience/circuit_breaker.go:99-117 | When a call is admitted, and the breaker's state afterwards. |
| CircuitBreaker.Breaker.AfterCall | services/device-service/internal/resilience/circuit_breaker.go:119-148 | How a finished call changes the counters and the state. |
| CircuitBreaker.RunsKeepInvariant | services/device-service/internal/resilience/circuit_breaker.go:99-177 | The counters and the calls in flight stay consistent in every interleaving of starts and finishes. |
| CircuitBreaker.ClosedIsBelowThreshold | services/device-service/internal/resilience/circuit_breaker.go:119-148 | In every run a closed breaker has fewer failures than the threshold. |
| CircuitBreakerObserved.OpensExactlyAtThreshold | services/device-service/internal/resilience/circuit_breaker.go:119-148 | In every run, by what an observer counts, failures finished while closed since the last success or closing: a closed breaker admits every call, opens exactly at the failure that brings the count to failureThreshold, and no other event changes its state. |
| CircuitBreakerObserved.OpenWaitsForTimeout | services/device-service/internal/resilience/circuit_breaker.go:99-162 | In every run an open breaker rejects and stays open while some failure is younger than resetTimeout; after that a look makes it half-open, a start is the first probe, and a finished call is the first outcome. |
| CircuitBreakerObserved.HalfOpenAdmitsProbes | services/device-service/internal/resilience/circuit_breaker.go:109-114 | In every run a half-open breaker admits exactly while fewer than halfOpenMaxCalls probes were admitted, and each admission is one. |
| CircuitBreaker.OpenFailsFast | services/device-service/internal/resilience/circuit_breaker.go:99-162 | In every run an open breaker admits nothing until resetTimeout after the latest recorded failure. |
| CircuitBreaker.ProbesAreBounded | services/device-service/internal/resilience/circuit_breaker.go:109-114 | In every run a half-open episode admits at most halfOpenMaxCalls. |
| CircuitBreaker.HalfOpenMakesProgress | services/device-service/internal/resilience/circuit_breaker.go:99-148 | In every run a half-open breaker with no call in flight admits the next call. |
| CircuitBreaker.OpenRecovers | services/device-service/internal/resilience/circuit_breaker.go:99-114 | In every run whose timeout has passed since every recorded failure, an open breaker admits the next call, whatever is in flight. |
| CircuitBreaker.EpisodeEnds | services/device-service/internal/resilience/circuit_breaker.go:134-146 | A half-open breaker closes exactly when the recorded successes reach the limit and opens exactly on a failure. |
| CircuitBreaker.StaleCallsAreConserved | services/device-service/internal/resilience/circuit_breaker.go:119-148 | The successes of an episode are those of its probes and of calls in flight when it began. |
| CircuitBreaker.ClosingTakesProbes | services/device-service/internal/resilience/circuit_breaker.go:109-145 | Every run that stays half-open and then closes has had at least halfOpenMaxCalls probes less the calls in flight from before. |
| CircuitBreaker.StaleCallSparesProbe | services/device-service/internal/resilience/circuit_breaker.go:119-145 | From every half-open state with such a call in flight and probes to spare, some run closes with fewer than halfOpenMaxCalls probes. |
| CircuitBreaker.OnlyProbesCloseIffNoneStale | services/device-service/internal/resilience/circuit_breaker.go:109-145 | Every run that closes the episode has had halfOpenMaxCalls probes if and only if no call was in flight when it began. |
| CircuitBreaker.EpisodeFromOpen | services/device-service/internal/resilience/circuit_breaker.go:152-162 | The same for an episode that begins by looking at an open breaker: if and only if nothing was in flight at that moment. |
| CircuitBreaker.StaleSuccessClosesBreaker | services/device-service/internal/resilience/circuit_breaker.go:138-145 | An instance: a call admitted before the breaker opened closes it, without a probe. |
| RateLimiter.SlidingWindow.CheckRateLimit | services/admin-api/src/middleware/rate-limiter.ts:45-81 | One call alone, by the clocks of instance and server: what is stored afterwards and when it expires, the answer, the remaining count and the reset second, from the stored entries of the window. |
| RateLimiter.KeyExpiryChangesNothing | services/admin-api/src/middleware/rate-limiter.ts:63 | Where the two clocks are one, a key that has expired held nothing of the window. |
| RateLimiter.EveryWindowIsBounded | services/admin-api/src/middleware/rate-limiter.ts:45-81 | Count and insertion are separate events. However calls interleave at times that do not decrease, if no removal meets a stored admitted request and at most k insertions are outstanding at any count, every window of windowSeconds, wherever it ends, contains at most maxRequests + k admitted requests. |
| RateLimiter.RejectedIffStoreIsFull | services/admin-api/src/middleware/rate-limiter.ts:45-81 | In every such interleaving a request is rejected exactly if the admitted requests of its window, those not yet inserted aside, and the rejected ones not yet taken back number at least maxRequests. |
| RateLimiter.PendingEntryCausesRejection | services/admin-api/src/middleware/rate-limiter.ts:71-78 | An instance: a rejected entry not yet taken back causes a rejection although the window holds no admitted request. |
| RateLimiterOverlap.OverlapIsReached | services/admin-api/src/middleware/rate-limiter.ts:55-66 | The bound is reached: for every limit and every k some interleaving admits maxRequests + k requests in one window. |
| RateLimiterOverlap.LimitHoldsIffNoOverlap | services/admin-api/src/middleware/rate-limiter.ts:55-66 | No window ever exceeds maxRequests if and only if no insertion of an admitted request is outstanding when another call counts. |
| RateLimiterCalls.CallIsRun | services/admin-api/src/middleware/rate-limiter.ts:45-81 | One call on its own is the run of its commands in a row, so what holds of interleavings holds of it. |
| RateLimiterCalls.SequentialCallsAreBounded | services/admin-api/src/middleware/rate-limiter.ts:45-81 | Calls one after the other at times that do not decrease: if no call is rejected in the millisecond of a stored admitted request, every window contains at most maxRequests admitted requests. |
| RateLimiterCalls.RejectedIffWindowIsFull | services/admin-api/src/middleware/rate-limiter.ts:45-81 | Then a request is rejected exactly if its own window already holds maxRequests admitted ones. |
| RateLimiterCalls.IncreasingCallsStandAlone | services/admin-api/src/middleware/rate-limiter.ts:45-81 | Strictly increasing times always meet that condition. |
| RateLimiterCalls.RejectedOnlyWhenFull | services/admin-api/src/middleware/rate-limiter.ts:68 | Every rejection in such a sequence meets the full store that the next row starts from. |
| RateLimiterCalls.NextBreaksLimitIffShared | services/admin-api/src/middleware/rate-limiter.ts:71-78 | From every full store: a request is rejected, and the next one of the same millisecond makes the window hold maxRequests + 1 if and only if an admitted request of that millisecond is stored, else maxRequests. |
| RateLimiterCalls.SharedMillisecondBreaksLimit | services/admin-api/src/middleware/rate-limiter.ts:71-78 | An instance, at any time: three requests of one millisecond under a limit of one, two of them admitted. |
| AuditBuffer.EntriesAreConserved | services/audit-service/src/subscribers/audit-subscriber.ts:27-39 | In every run with any number of overlapping flushes, written, in-flight and buffered entries are exactly those received. |
| AuditBuffer.OneAtATimeIsOrderly | services/audit-service/src/subscribers/audit-subscriber.ts:27-39 | One flush at a time is an orderly run. |
| AuditBuffer.OrderlyRunsKeepOrder | services/audit-service/src/subscribers/audit-subscriber.ts:27-39 | In every orderly run the entries keep the order in which they arrived. |
| AuditBuffer.OnlyOrderlyStepsKeepOrder | services/audit-service/src/subscribers/audit-subscriber.ts:30-38 | For distinct entries, a step keeps the order if and only if it is orderly. |
| AuditBuffer.StrandedUntilFull | services/audit-service/src/subscribers/audit-subscriber.ts:41-44 | After the timer has fired, a buffer is not written until a full batch has gathered. |
| AuditBuffer.FullBatchIsFlushed | services/audit-service/src/subscribers/audit-subscriber.ts:73-76 | The message that fills the batch starts the flush, with all the entries in the order they came. |
| AuditBuffer.TimerIsNotRenewed | services/audit-service/src/subscribers/audit-subscriber.ts:53-76 | An instance: a message that arrives after the timer has fired and its flush has succeeded is stranded, since only a flush by the consumer sets the timer again. |
| AuditBuffer.TimerAndTurns | services/audit-service/src/subscribers/audit-subscriber.ts:41-76 | When the timer is set and unset, and when the consumer takes no message: from the start until it fires, again whenever the consumer's own flush has finished; and not while that flush is under way. |
| AuditBuffer.Subscriber.Consume | services/audit-service/src/subscribers/audit-subscriber.ts:53-76 | The consumer's handling of one message, on the fields it changes, is the receiving event of the runs. |
| AuditBuffer.Subscriber.FireTimer | services/audit-service/src/subscribers/audit-subscriber.ts:41-44 | The timer's flush is the timer event of the runs. |
| AuditBuffer.Subscriber.FlushBuffer | services/audit-service/src/subscribers/audit-subscriber.ts:27-30 | A flush up to its write is the start of a flush in the runs; an empty buffer starts none. |
| AuditBuffer.Subscriber.FinishFlush | services/audit-service/src/subscribers/audit-subscriber.ts:30-44 | A flush from its write on is the succeeding or failing event of the runs, with the timer set again by the consumer only. |
| AuditBuffer.BatchInsert | services/audit-service/src/services/audit-service.ts:90-117 | The batched statement with its numbered placeholders inserts, in order, the row that a single insert of each entry would. |
| GroupForest.BuildTree | services/admin-api/src/routes/groups.ts:59-85 | Every group gets one new node that repeats its data; its children, and the roots, are the nodes filed there, in order; and walking the nodes from the roots through their children meets exactly the ids of the forest listing, in its order. |
| GroupForest.ChildrenNameTheirParent | services/admin-api/src/routes/groups.ts:76-82 | A built node is a child of another exactly if its group names the other's group as parent, by an id that is not empty; it is a root exactly if it names none, or one that is not listed. |
| GroupForest.UnderInOrder | services/admin-api/src/routes/groups.ts:76-82 | Siblings and roots stand in the order of the groups. |
| GroupForest.UnderCarriesFiled | services/admin-api/src/routes/groups.ts:76-82 | The nodes of a list carry the ids of the groups filed there. |
| GroupForest.WalkIsListing | services/admin-api/src/routes/groups.ts:59-85 | Walking node objects through their children, to any depth, is the listing of the ids filed under one another. |
| GroupForest.RootsWalkTheForest | services/admin-api/src/routes/groups.ts:59-85 | Of the built nodes: the walk from the roots to any depth is the listing from the root ids, so the next rows speak of the nodes. |
| GroupForest.ChainEndsOrCycles | services/admin-api/src/routes/groups.ts:76-82 | A parent chain ends within as many steps as there are groups, or the group is on or below a parent cycle. |
| GroupForest.ListingCounts | services/admin-api/src/routes/groups.ts:76-82 | How often a group occurs below given nodes: once for every generation in which its ancestor is among them. |
| GroupForest.ForestHoldsGroundedGroups | services/admin-api/src/routes/groups.ts:59-85 | The forest holds each group whose parent chain ends exactly once; exactly the groups on or below a parent cycle are missing. |
| GroupForest.ForestIsComplete | services/admin-api/src/routes/groups.ts:59-85 | Nothing lies deeper than that. |
| CommandPipeline.Pipeline.UpdateStatus | services/command-service/internal/repository/command_repository.go:62-85 | Status and history row change together or not at all; an unknown id changes nothing. |
| CommandSchedule.WritesChange | services/command-service/internal/repository/command_repository.go:62-85 | A status write that gets through changes that status alone and adds its history row; otherwise nothing changes. |
| CommandSchedule.OthersChange | services/command-service/internal/queue/nats_queue.go:106-143 | What inserts, publishes, acknowledgements, deliveries and pauses change. |
| CommandPipeline.Pipeline.DispatchCommand | services/command-service/internal/handler/command_handler.go:61-83 | Executes the dispatch plan; succeeds exactly if insert and publish do, whatever the last status write does. |
| CommandPipeline.Pipeline.BulkDispatch | services/command-service/internal/handler/command_handler.go:87-108 | Returns exactly the ids that were stored and queued; commands whose publish failed stay stored. |
| CommandPipeline.Pipeline.Sweep | services/command-service/internal/sweeper/expiry_sweeper.go:44-72 | Expires what its query listed, one write after the other. |
| CommandSchedule.QueriesSelect | services/command-service/internal/repository/command_repository.go:138-143 | The sweep's query takes pending, queued and delivered commands whose time has passed; the stream's query the device's pending, queued and sent ones. |
| CommandPipeline.Pipeline.HandleCommandStream | services/device-service/internal/handler/device_handler.go:116-216 | Marks what could be sent and records every acknowledgement of the device under the status that its text names. |
| CommandPipeline.AckStatus | services/device-service/internal/handler/device_handler.go:143-156 | The status recorded for an acknowledgement is stored as the very text the device sent, except that received is stored as delivered. |
| CommandSchedule.TextsAreKnown | services/device-service/internal/handler/device_handler.go:143-156 | The text under which each status is stored. |
| CommandPipeline.Pipeline.HandleCommand | services/command-service/internal/dispatcher/dispatcher.go:72-115 | Executes the plan for one message: queued, then expired, or up to five deliveries and delivered or failed, then one acknowledgement. |
| CommandSchedule.HandlingFollowsSchedule | services/command-service/internal/dispatcher/dispatcher.go:17-26 | Until the first success: one delivery at once and then after pauses of 5, 30, 120 and 600 seconds; then delivered and the acknowledgement; queued before all. |
| CommandSchedule.HandlingFails | services/command-service/internal/dispatcher/dispatcher.go:83-115 | If all five deliveries fail: failed and the acknowledgement. |
| CommandSchedule.OtherPlans | services/command-service/internal/dispatcher/dispatcher.go:72-82 | An expired command is only marked and acknowledged; a dispatch inserts a pending command, publishes it and marks it queued. |
| CommandPipeline.TryDelivery | services/command-service/internal/dispatcher/dispatcher.go:85-104 | The retry loop stops at the first success or after five attempts, having waited the schedule before every attempt but the first. |
| CommandPipeline.DeliveryPlan | services/command-service/internal/dispatcher/dispatcher.go:83-115 | After the last attempt only its status write and the acknowledgement are left. |
| CommandPipeline.HandledCompletely | services/command-service/internal/dispatcher/dispatcher.go:72-115 | Where the writes get through, handling a message adds exactly two history rows, queued and then expired, delivered or failed, leaves the command in that status, acknowledges the one message, and touches nothing else. |
| CommandPipeline.DispatchOutcome | services/command-service/internal/handler/command_handler.go:61-83 | A new command is stored exactly if its insert succeeds, and queued exactly if its publish does too. |
| CommandPipeline.WrittenInTurn | services/command-service/internal/sweeper/expiry_sweeper.go:44-62 | A sweep changes exactly the listed commands whose write gets through, whatever happens to the others. |
| CommandPipeline.WaitIsBounded | services/command-service/internal/dispatcher/dispatcher.go:17-26 | At most 755 seconds of waiting, reached only by all five attempts. |
| CommandRuns.StatusIsNewestHistory | services/command-service/internal/repository/command_repository.go:62-85 | In every interleaving of dispatches, redelivered workers, sweeps, device streams and cancellations a command's status is its newest history row, or pending if it has none. |
| CommandRuns.MessagesAreConserved | services/command-service/internal/queue/nats_queue.go:106-143 | In every interleaving the published messages are exactly the outstanding and the acknowledged ones, and outstanding ones belong to stored commands. |
| CommandRuns.AckedOnlyWhenFinal | services/command-service/internal/dispatcher/dispatcher.go:72-115 | If the final status writes succeed, a message is acknowledged only after expired, delivered or failed was recorded. |
| CommandRuns.FailedFinalWriteLosesOutcome | services/command-service/internal/dispatcher/dispatcher.go:94-96 | A failed final write does not hold the acknowledgement back: the message is gone and nothing final is recorded. |
| CommandRuns.OutcomeCanBeLost | services/command-service/internal/dispatcher/dispatcher.go:72-115 | From every state a run has reached, a new command can end that way. |
| CommandRuns.NoStatusIsAbsorbing | services/command-service/internal/repository/command_repository.go:62-85 | Every stored command, cancelled ones included, whatever its status, has a continuation that stores a different status text. |
| CommandRuns.AcknowledgementReplacesStatus | services/device-service/internal/handler/device_handler.go:143-162 | An acknowledgement from any device that names a command replaces its status, whatever that is. |
| CommandRuns.SweepOverwritesCompletion | services/command-service/internal/sweeper/expiry_sweeper.go:44-56 | A sweep expires what it listed although the device has reported completion since. |
| CommandRuns.CompletedCanExpire | services/command-service/internal/sweeper/expiry_sweeper.go:44-56 | From the start, for every command with an expiry: a run in which the device completes it and the sweep then expires it. |
| CommandRuns.HistoryOnlyGrows | services/command-service/internal/repository/command_repository.go:76-80 | History rows are only added. |
| CommandRuns.AloneIsExecuted | services/command-service/internal/handler/command_handler.go:61-83 | An actor run without interruption does what the corresponding sequential part does. |
| RemoteSessions.Handler.CreateSession | services/remote-control-service/internal/handler/remote_handler.go:34-67 | Refused exactly if the device has a session that has not ended; otherwise a new session and its channel. |
| RemoteRouting.SessionIsCreated | services/remote-control-service/internal/handler/remote_handler.go:34-67 | What a created session and its channel look like, and when none is created. |
| RemoteSessions.Handler.HandleSignaling | services/remote-control-service/internal/handler/remote_handler.go:92-122 | Refused exactly for unknown and ended sessions; otherwise the session is updated by the message's type and the message routed. |
| RemoteRouting.SignalIsRouted | services/remote-control-service/internal/signaling/relay.go:93-123 | An accepted message goes to the device's side if it is addressed to the device, or to neither party and comes from the admin, else to the admin's side, and to no other; an offer connects, an answer activates, other kinds keep the state; nothing else changes. |
| RemoteRouting.SignalIsRefused | services/remote-control-service/internal/handler/remote_handler.go:92-105 | A message for an unknown or ended session changes nothing. |
| RemoteRouting.MailFromEmpty | services/remote-control-service/internal/signaling/relay.go:93-123 | In every run each side of a session was sent exactly the accepted messages that are for it, each once and in order, and the admin's side the bye. |
| RemoteSessions.Handler.EndSession | services/remote-control-service/internal/handler/remote_handler.go:124-156 | Marks the session, routes the bye, closes the channel. |
| RemoteRouting.SessionIsEnded | services/remote-control-service/internal/handler/remote_handler.go:124-156 | What ending changes of the session and its channel. |
| RemoteSessions.Handler.CleanupExpiredSessions | services/remote-control-service/internal/handler/remote_handler.go:163-173 | Ends exactly the sessions that have expired, in any order, then removes the stale records. |
| RemoteRouting.CleanupSettles | services/remote-control-service/internal/repository/session_repository.go:126-155 | For every session: whether a cleanup ends it, by its last activity, and whether its record is removed, by last activity or, once ended, by creation. |
| RemoteSessions.Handler.GetExpiredActive | services/remote-control-service/internal/repository/session_repository.go:143-155 | Exactly the live sessions without activity since the cutoff, each once. |
| RemoteSessions.Handler.CleanupExpired | services/remote-control-service/internal/repository/session_repository.go:127-140 | Removes exactly the stale records and counts them. |
| RemoteRuns.RunsFromEmpty | services/remote-control-service/internal/handler/remote_handler.go:34-173 | In every run: at most one live session per device; channels for exactly the live sessions, every other id closed exactly once; each side has an ordered subsequence of what was routed to it, with at most 100 waiting. |
| RemoteRuns.NothingDroppedMeansAll | services/remote-control-service/internal/signaling/relay.go:118-123 | Where nothing was dropped, a side gets exactly what was routed to it, in order. |
| RemoteRuns.EndedIsAbsorbing | services/remote-control-service/internal/handler/remote_handler.go:92-173 | Once ended, a session never comes back to life and never has a channel again. |
| RemoteRuns.CleanupSparesLiveSessions | services/remote-control-service/internal/handler/remote_handler.go:163-173 | A cleanup removes no live session if and only if its second clock reading leaves every session it kept its double time to live. |
| RemoteRuns.ByeReachesOnlyAdmin | services/remote-control-service/internal/signaling/relay.go:108-116 | The bye of an ending session is put into the admin side alone. |

## Left out

- Dynamic groups: ILIKE, regular expressions, collation, time arithmetic, text comparison and which comparisons a column's type accepts are parameters of the dialect; a field name is looked up among the listed fields only, so names that JavaScript objects inherit count as unknown here; the limit on bind parameters of a statement is not modelled.
- SqlText.LexRender: covers the fragment of SQL that the compiler can write, not the whole lexical grammar; backslash is an ordinary character, as with standard-conforming strings.
- DynamicGroupMembership.ReconcilersAgree: takes groups whose rules can all be run; where one cannot, evaluating a device stops at that group, as `EvaluateDevice` states.
- PolicyMerge.MergedIsLeastUpperBound: numbers are exact and of one kind, as JSON decoding gives them; nested objects and arrays as payload values are not modelled, since the detailed merge cannot compare them.
- PolicyResolver.SortPolicies: stands for the library sort; the resolution results use only that the outcome is sorted, a permutation, and the input itself if that was sorted.
- PolicyCollection.GetEffectivePolicies: its detailed counterpart loops in the same way over `ResolveConflictsWithDetails` and is not repeated.
- Geo.PointInPolygon: coordinates are exact reals; floating-point rounding and the great-circle distance behind circular geofences are not modelled, circles are an arbitrary predicate.
- GeofenceTracker.Tracker.ProcessLocationEvent: saving an event and the key store always succeed and share one clock with the service; a store that is absent or fails is not modelled.
- Deleting a geofence clears its state keys but not its dwell flags; ids are never used again, so this is not modelled.
- Versions.CompareVersions: pre-release suffixes have no meaning in the code either; versions are sequences of characters, not of bytes.
- ComplianceRules.Evaluate: number formatting and parsing, boolean parsing, trimming and regular expressions are parameters.
- ComplianceViolations.Handler.EvaluateCompliance: the payloads of dispatched messages, the result event, and the later sweep for grace periods are not modelled; ids are counted up instead of drawn at random.
- ComplianceOverlap.OneIffNoOverlap: rules and reported state of an evaluation are given with its read, since both are taken before the first write; the dispatches of overlapping evaluations are not modelled.
- PolicyAgreement.ResolvesToIffDetermined: is about orders of collection; a policy that is also assigned at an earlier level is collected before those of the later level alone, so not every such order arises from an order of rows.
- The organisation-wide score and the reports are aggregate queries without an algorithm.
- CircuitBreaker.Breaker.AfterCall: a call that panics never reaches it, in the code as in the model, and such calls simply stay in flight.
- RateLimiter.SlidingWindow.CheckRateLimit: the name of an entry stands for its time and random suffix, assumed distinct; a store that is down is not modelled.
- RateLimiter.EveryWindowIsBounded: request times come from one clock and do not decrease from count to count; the removal of expired entries and the count of one call are one event, since nothing another call does between them changes the count unless it is delayed by a whole window.
- AuditBuffer.EntriesAreConserved: a process that stops loses what is buffered; stopping is not an event here.
- GroupForest.BuildTree: description and type of a node are copied like its name and left out; the depth column is copied, not maintained, so nothing is claimed about it.
- CommandPipeline.Pipeline.UpdateStatus: which status texts the database column accepts is not modelled, a refused one is a failed write; status events on the message bus are left out.
- CommandPipeline.Pipeline.HandleCommand: whether a message is expired and which deliveries succeed is given in advance; a message is named by its command.
- The cancel route of the admin API writes a status without a history row (`services/admin-api/src/routes/commands.ts:71`) and is outside the history invariant.
- RemoteSessions.Handler.CreateSession: handler methods are atomic; the check and the insert are separate locked steps in the code, so two simultaneous calls for one device are outside the model, as is a send into a channel that is being closed.
- RemoteSessions.Handler.HandleSignaling: routing is the in-memory path; with a message bus between the services order and delivery are the bus's.
- RemoteRuns.RunsFromEmpty: a cleanup pass takes no longer than the time to live between its two clock readings; `CleanupSparesLiveSessions` says what happens otherwise.
- Enrolment, certificates, SCEP, SAML, OIDC, LDAP, password hashing and push senders: calls into libraries.
- Device enrolment program synchronisation and property-list generation: library calls and templates.
- HTTP, gRPC, WebSocket and message-bus plumbing, configuration, metrics, exporters and the admin console.
