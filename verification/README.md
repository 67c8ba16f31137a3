# Verified model of the AbstractGateway algorithms

AbstractGateway's repository holds a terminal console (`console-tui`, Rust) and a set of maintenance scripts (Python)
around a gateway service. This project models the self-contained algorithms among them and proves what their comments,
documentation and tests promise. `dafny verify dfyconfig.toml` checks everything.

## What is modelled

| modules | what they model | main results |
|---|---|---|
| `CiShard`, `CiShardWeights`, `CiShardBounds`, `CiShardTight` | the greedy longest-first shard planner of `scripts/ci_shard.py` | every file in exactly one shard; a file nobody timed counts as the median, whatever the durations; independent of input order; spread at most one file; at most 4/3 - 1/(3n) times the heaviest shard of any assignment, and for every n some files reach that factor |
| `Query` | the console's query language: an iterative glob matcher with one backtrack point | equal to the recursive matcher of the source's tests on every pattern exactly for values without `*`, and on every value exactly for patterns without `*`; sound on all; a step bound; the laws of the language |
| `Boundary`, `BoundarySearch` | the search for a multipart boundary over a wrapping 64-bit sequence | the sequence repeats no number for 2^60 steps, candidates are distinct texts, and the search ends on every payload a slice can hold |
| `Multipart`, `MultipartText`, `MultipartReader` | the multipart/form-data writer, its text on the wire, and a reader after section 5.1.1 of RFC 2046, section 4 of RFC 7578 and section 2 of RFC 2183 | the reader recovers the upload if and only if a condition on the text values, the file name and the content type holds; no file content breaks it |
| `Calendar`, `IsoTime`, `IsoGrammar`, `Decimal` | Gregorian date arithmetic and the ISO 8601 timestamp parser | days and valid dates are in bijection, the next day is the next date; a text reads as an instant if and only if it denotes it in a written-out grammar, and an instant written to the second reads back as itself |
| `Health` | the connection health authority as a class and as a step relation over all interleavings | a settle ends only the phase its own trigger began; retries at most once per budget; exactly since when a failure stands unverified; how many probes a run can send |
| `Follower`, `FollowerFrames` | one server-sent-events stream: frame splitting and delivery times | the frames are the one cut of the stream, and which are kept; chunking does not matter; the bisection over maxima equals a linear scan exactly where no identifier stands for a number between the one asked and the initial maximum |
| `Changelog`, `ChangelogGrammar`, `ChangelogRoundTrip`, `ChangelogRelease`, `Lines` | reading and assembling changelog fragments, and cutting a release | which texts parse, and to what; assembled text re-parses to its groups, is a fixed point and keeps every line; a release empties Unreleased, stacks above older ones and loses no line exactly when the heading ends its line |
| `Workflows`, `HomePlane` | the fold of payload items to workflow rows; which plane owns a data home | no item lost, which item a row shows and is named by, what it summarises; the innermost owner is found |
| `Pointer` | the canonical form of a loopback URL | accepted exactly for the spellings of a loopback origin; a fixed point; equal answers exactly for equal origins; how every other text is refused |

`Wrappers`, `Seqs`, `Sorting`, `Texts` and `Bytes` hold what these share: option and result types, searching, stable
sorting, trimming and letter case, byte strings.

Code that changes state step by step is a method or a class here: `CiShard.Assign` over arrays, `Query.GlobMatches`,
`BoundarySearch.FindBoundary`, `Multipart.MultipartBody`, `Follower.Follower`, `Health.Authority`, `Changelog.Parse` and
its neighbours, `Workflows.WorkflowRows`, `HomePlane.HomePlaneIndex`. Each is proved equal to a function of its inputs
or of its old state, and the theorems are about that function.

## Where the code differs from what is said about it

- The glob matcher tests equality before its star branch (`console-tui/src/query.rs:108`), so a `*` in the value can use
  up a `*` of the pattern. `Query.ExactlyStarFreeValues` gives the exact extent, for every value with a `*` a pattern
  that fails, and `Query.ExactlyStarFreePatterns` the same from the pattern's side. `Query.GlobStarFirstIsExact` shows
  that testing the star first needs no condition.
- The comment on `multipart_body` says the boundary can never collide (`console-tui/src/api_sandbox_docs.rs:155-156`).
  The search looks at the file bytes only: `MultipartReader.TextsCanCollide` is a session id that is not recovered.
- The comment on `safe` says it drops the two characters that would end a quoted value (line 172). A backslash quotes
  the byte after it, and stays: a file named by one backslash never closes its name (`MultipartReader.BackslashIsLost`).
  `MultipartReader.UploadIsRecovered` says exactly when an upload is recovered.
- The health effect subscribes to the slots and to the failed-write count, not to the spent list
  (`console-tui/src/health.rs:114-138`, `149-152`). A refresh clears the spent list first
  (`console-tui/src/ui/mod.rs:706`), and on the Connection and Network screens it then starts no watched load (lines
  711-715): over a slot that is still failed the console stays connected and nothing verifies the failure.
  `Health.MissedAfterRefresh` is such a run for every action slot, and `Health.MissedExactlySince` says that in every run
  a failure stands unverified exactly since such a refresh, up to the next change the effect sees.
- The module comment says each slot's failure funds at most one verification until a user action re-arms it
  (`console-tui/src/health.rs:17-20`). `Health.VerifiedTwiceAfterRecovery` gives the exact extent: between two clears two
  probes go out over one failed, unspent slot only if that slot recovered while it was being verified, and
  `Health.VerifiedTwice` is such a run for every slot (opening the routing editor resets two of them,
  `console-tui/src/ui/routes.rs:2294-2295`). `Health.RecoveringFailureLoops` sends any number of probes that way and
  spends nothing; for failures that persist until they are settled `Health.PersistentFailuresEnd` bounds their number.
- `delivered_at` differs from a scan of every frame for a number that some identifier puts between it and the initial
  maximum a caller sets (`scripts/bench_replay_view.py:446`): `Follower.AgreesExactlyWhenSkipped`, for any numbering of
  identifiers, and `Follower.ExactlyAboveInitialMaximum` where the maximum itself has an identifier.
- A release cuts the changelog at the heading's text, wherever it stands (`scripts/changelog.py:87`). Where more text
  follows it on its line, that text moves below the new release's title: `ChangelogRelease.ReleaseKeepsLines` says that
  every line is kept exactly when nothing does.
- A timestamp rendered for a local year before 0 does not parse, because the sign is read as a separator:
  `IsoTime.ReadRendered` and `IsoTime.ReadStamp` cover both cases.

## Assumptions

- Health: an effect runs after the handler or settle that notified it has returned, not inside it (the reactive engine
  is not part of this model). `settle` sets the phase (line 199) and the slots (line 209) before it extends the spent
  list (line 215), so this order matters. Slots are named by their position in the table, whose names are distinct.
- Health: commands run one at a time on one worker lane (`console-tui/src/worker.rs:731-747`), and what it posts is
  handled in order. The Connect command sets the probing phase and resets every slot in one step (lines 1161-1172) and
  holds the lane until it joins or is refused (lines 1228-1244), so no load fails in between. `Health.IsRun` states this;
  the theorems on phases, settles and retries do not need it and hold for any order of events.
- Health: setting a slot's signal notifies the effect even when the value is the one already there. If the engine drops
  such writes, a failure stands unverified until the first write that changes a slot.
- Follower: the number an id carries (`_seq_of`, `scripts/bench_replay_view.py:214-222`) is an arbitrary function of the
  id's bytes.
- The file bytes of an upload are shorter than 2^63, the limit of a Rust slice.

## Model

| member | source | states |
|---|---|---|
| `CiShard.LightestOf` | scripts/ci_shard.py:48 | the loop over the totals finds the first shard of least load |
| `CiShard.Lightest` | scripts/ci_shard.py:48 | no shard is lighter, and every earlier one is heavier |
| `CiShard.Assign` | scripts/ci_shard.py:45-50 | the loop that appends to shards and adds to totals in place builds the greedy assignment, totals being the loads |
| `CiShard.Plan` | scripts/ci_shard.py:41-51 | the whole of `plan`, with its median default, its sort key, and the error of no shard for some file |
| `CiShard.PlanPartitions` | scripts/ci_shard.py:41-51 | n shards that together hold exactly the listed files, as often as listed, each shard sorted by name |
| `CiShard.LoadsAddUp` | scripts/ci_shard.py:46-50 | the loads of the shards add up to the load of the files |
| `CiShard.PlanIgnoresOrder` | scripts/ci_shard.py:41-51 | any permutation of the files gives the same shards |
| `CiShardWeights.RecordedWeight` | scripts/ci_shard.py:44 | a file with a recorded duration weighs that duration |
| `CiShardWeights.UnrecordedWeight` | scripts/ci_shard.py:42-44 | any other file weighs 1 when no listed file is recorded, and else the midpoint of two recorded durations with as many above as below: fewer than half of the recorded files lie under the lower, at least half at or under it, the same mirrored for the upper, none between, and the two are one for an odd number |
| `CiShardWeights.PlanOfCompleted` | scripts/ci_shard.py:42-44 | recording every unrecorded file with that default leaves the plan as it is |
| `CiShardWeights.PlanRefuses` | scripts/ci_shard.py:45-51 | no plan exactly for some file and no shard; otherwise as many shards as asked |
| `CiShardWeights.PlacedInOrder` | scripts/ci_shard.py:44 | of two files placed one after another the first is longer, or equally long and not later by name |
| `StringOrder.LeMeans` | scripts/ci_shard.py:44 | what comes first by name: a text is at most another when it is its beginning, or smaller at the first place where they differ |
| `CiShardBounds.GreedyChoice` | scripts/ci_shard.py:47-50 | whatever the order, the shard a file joins was no heavier than the average any assignment must reach |
| `CiShardBounds.LongFileFits` | scripts/ci_shard.py:44-50 | longest first, a file longer than a third of any assignment's heaviest load fits within that load |
| `CiShardBounds.ListSchedulingRatio` | scripts/ci_shard.py:47-50 | greedy in any order stays within 2 - 1/n of any assignment |
| `CiShardBounds.LongestFirstRatio` | scripts/ci_shard.py:44-50 | greedy longest first stays within 4/3 - 1/(3n) of any assignment, scaled by 3n |
| `CiShardBounds.PlanRatio` | scripts/ci_shard.py:41-51 | the planned heaviest shard is at most 4/3 - 1/(3n) times the heaviest shard of any assignment of the same files |
| `CiShardBounds.PlanSpread` | scripts/ci_shard.py:41-51 | two planned shards never differ by more than the longest file |
| `CiShardTight.GreedySeats` | scripts/ci_shard.py:47-50 | on 2n+1 files sized two each of 2n-1 down to n+1 and three of n, whichever of equally light shards is taken the loads are, up to order, those of seating the files forth and back |
| `CiShardTight.GreedyPeak` | scripts/ci_shard.py:47-50 | so the heaviest greedy load is 4n-1 |
| `CiShardTight.PairedPeak` | scripts/ci_shard.py:47-50 | where pairing the files from both ends needs 3n |
| `CiShardTight.PlanReachesRatio` | scripts/ci_shard.py:41-51 | for every n there are files, durations and another assignment for which the plan is exactly 4/3 - 1/(3n) times heavier |
| `Query.GlobMatches` | console-tui/src/query.rs:99-128 | the two loops answer what the machine answers, accept only matches, decide matching of star-free values, in fewer than (length of value + 1)(length of pattern + 1) iterations |
| `Query.StepKeepsPending` | console-tui/src/query.rs:107-121 | one step keeps what can still be matched, unless it takes a `*` of the value literally |
| `Query.LeftmostIsEnough` | console-tui/src/query.rs:111-118 | once a later star is reached, going back to the earlier one finds nothing new: one backtrack point is enough |
| `Query.GlobIsExact` | console-tui/src/query.rs:99-128 | on a value without `*` the matcher equals the recursive one |
| `Query.GlobIsSound` | console-tui/src/query.rs:99-128 | on any value it accepts only what the recursive one accepts |
| `Query.ExactlyStarFreeValues` | console-tui/src/query.rs:107-121 | a value is matched as specified by every pattern if and only if it holds no `*` |
| `Query.GlobIsExactWithoutStars` | console-tui/src/query.rs:99-128 | the matcher equals the recursive one whenever the value or the pattern holds no `*` |
| `Query.ExactlyStarFreePatterns` | console-tui/src/query.rs:107-121 | a pattern is matched as specified on every value if and only if it holds no `*` |
| `Query.GlobStarFirstIsExact` | console-tui/src/query.rs:209-220 | with the star tested first the machine equals the recursive matcher on every value |
| `Query.MatchesWhole` | console-tui/src/query.rs:209-220 | the recursive matcher on slices and on positions agree |
| `Query.NeedleMeaning` | console-tui/src/query.rs:47-84 | what a typed query finds in a star-free value, as one statement about the recursive matcher: all, a glob of the value or its basename, or `*q*` |
| `Query.RetryReadsBasename` | console-tui/src/query.rs:79-83 | a wildcard query matches `a` + slash + `b`, for either slash and `b` without one, exactly when the pattern matches the whole or `b` |
| `Query.NoSlashNoRetry` | console-tui/src/query.rs:79-83 | a value without a slash of either kind is matched as a whole or not at all |
| `Query.SubstringIsStarred` | console-tui/src/query.rs:76-78 | a wildcard-free query is a substring exactly when the recursive matcher accepts it between two stars |
| `Query.InsertedStarKeepsMatches` | console-tui/src/query.rs:209-220 | inserting a `*` anywhere never loses a match |
| `Query.InsertedStarKeepsRows` | console-tui/src/query.rs:99-128 | so the matcher itself never loses a star-free value by it |
| `Query.RetryIsIdleAfterStar` | console-tui/src/query.rs:79-83 | the basename retry adds nothing to a pattern that starts with `*` |
| `Query.RetryMattersAfterStar` | console-tui/src/query.rs:79-83 | with a `*` in the value it can add something |
| `Query.Basename` | console-tui/src/query.rs:82 | the longest slash-free end of the value |
| `Boundary.CandidateIsInjective` | console-tui/src/api_sandbox_docs.rs:164-165 | different numbers give different boundary texts |
| `Boundary.FactorsOfTwo` | console-tui/src/api_sandbox_docs.rs:170 | the sum of d powers of 31 holds k factors of two only when 16 d reaches 2^k |
| `Boundary.NoEarlyRepeat` | console-tui/src/api_sandbox_docs.rs:170 | from any start the wrapping step repeats no number within 2^60 steps |
| `Boundary.OrbitIsInjective` | console-tui/src/api_sandbox_docs.rs:163-171 | the first 2^60 numbers tried are distinct |
| `BoundarySearch.OrbitResidue` | console-tui/src/api_sandbox_docs.rs:163-171 | the numbers tried are 14 and 9 modulo 16 by turns |
| `BoundarySearch.StemsApart` | console-tui/src/api_sandbox_docs.rs:164 | two occurrences of the boundary's fixed stem lie at least 27 bytes apart |
| `BoundarySearch.HolesDiffer` | console-tui/src/api_sandbox_docs.rs:163-171 | different candidates that occur in a payload fall into different pigeonholes |
| `BoundarySearch.FewOccur` | console-tui/src/api_sandbox_docs.rs:163-171 | fewer candidates can occur in a payload than it has holes |
| `BoundarySearch.BoundaryOf` | console-tui/src/api_sandbox_docs.rs:163-171 | the boundary does not occur in the file bytes and every candidate before it does |
| `BoundarySearch.FindBoundary` | console-tui/src/api_sandbox_docs.rs:163-171 | the loop ends on every payload a slice can hold, with that boundary |
| `Multipart.Field` | console-tui/src/api_sandbox_docs.rs:175-180 | one text part is appended to the buffer |
| `Multipart.Fields` | console-tui/src/api_sandbox_docs.rs:181-185 | the text parts in front of the file |
| `Multipart.FileHeader` | console-tui/src/api_sandbox_docs.rs:186-198 | the file part's header, with or without a content type, quotes and line breaks in the file name replaced |
| `Multipart.MultipartBody` | console-tui/src/api_sandbox_docs.rs:157-202 | the boundary is the search's, the buffer the encoding of the parts |
| `Multipart.BlocksEncode` | console-tui/src/api_sandbox_docs.rs:181-201 | parts written one after another and closed are the delimited body of RFC 2046 |
| `MultipartText.BodySpelled` | console-tui/src/api_sandbox_docs.rs:175-201 | the whole body, byte for byte: boundary lines, header names, quotes and line breaks spelled out between the values |
| `MultipartText.AsciiMeans` | console-tui/src/api_sandbox_docs.rs:175-198 | the bytes of spelled-out text are the codes of its characters |
| `MultipartText.HexMeans` | console-tui/src/api_sandbox_docs.rs:164 | the boundary ends in the lower-case hexadecimal digits of its number, without a needless zero |
| `MultipartText.FirstCandidate` | console-tui/src/api_sandbox_docs.rs:163-164 | the first boundary tried is `----abstractgateway-console-5a17c0de` |
| `MultipartReader.CutAtDelimiter` | console-tui/src/api_sandbox_docs.rs:175-201 | no false delimiter straddles the end of a part |
| `MultipartReader.SkipLine` | console-tui/src/api_sandbox_docs.rs:175-180 | nor the end of a header line |
| `MultipartReader.FieldIsRecovered` | console-tui/src/api_sandbox_docs.rs:175-180 | a text field is recovered exactly when no line of its value is a boundary line |
| `MultipartReader.FileIsRecovered` | console-tui/src/api_sandbox_docs.rs:186-200 | the file part is recovered, for any bytes without a boundary line, exactly when its name holds no backslash and its content type is one line without white space around it |
| `MultipartReader.NameIsRead` | console-tui/src/api_sandbox_docs.rs:172-173 | a reader of quoted strings gets the file name as written if and only if it holds no backslash |
| `MultipartReader.UploadIsRecovered` | console-tui/src/api_sandbox_docs.rs:157-202 | session id, file name, content type and file bytes are recovered if and only if no text value holds a boundary line and the file part can be sent |
| `MultipartReader.UploadWithoutBoundaryIsRecovered` | console-tui/src/api_sandbox_docs.rs:155-202 | in particular for any bytes when no text holds the boundary, the file name holds no backslash, and the content type is one line without white space around it |
| `MultipartReader.TextsCanCollide` | console-tui/src/api_sandbox_docs.rs:155-171 | a session id that is the boundary line is never recovered |
| `MultipartReader.BackslashIsLost` | console-tui/src/api_sandbox_docs.rs:172-197 | a file named by one backslash is never recovered: its name does not end |
| `Calendar.YearOfEraIs` | console-tui/src/localtime.rs:60 | the year formula finds the year of every day of the era |
| `Calendar.YearOfEraInRange` | console-tui/src/localtime.rs:60 | every day of an era lies in the year the formula names |
| `Calendar.CivilOfDays` | console-tui/src/localtime.rs:46-66 | every valid Gregorian date is recovered from its day number |
| `Calendar.DaysOfCivil` | console-tui/src/localtime.rs:46-66 | every integer day number names a valid date and is recovered from it |
| `Calendar.DaysOfTomorrow` | console-tui/src/localtime.rs:46-54 | the next calendar date has the next day number |
| `Calendar.CivilOfNextDay` | console-tui/src/localtime.rs:56-66 | the next day number is the next calendar date |
| `Calendar.DayZero` | console-tui/src/localtime.rs:54 | day 0 is 1970-01-01 |
| `Calendar.CivilCountsDays` | console-tui/src/localtime.rs:56-66 | n days after the epoch the formula gives what counting n calendar dates gives |
| `Decimal.ParsePadded` | console-tui/src/localtime.rs:91-94 | zero-padded decimal text reads back as its number |
| `Decimal.WriteMeans` | console-tui/src/localtime.rs:91-94 | the text written for a number is the one text of digits that means it and has no needless zero |
| `Decimal.ParseMeans` | console-tui/src/localtime.rs:12-27 | a text is read as a number exactly when it is its digits after an optional sign, within 64 bits |
| `IsoTime.ReadRendered` | console-tui/src/localtime.rs:9-43 | reading the text written for an instant in a whole-minute offset under 100 hours gives the instant less its seconds, or nothing when the local year is negative |
| `IsoTime.RenderingsAgree` | console-tui/src/localtime.rs:88-96 | all offset renderings of one instant read as the same instant |
| `IsoTime.ReadStamp` | console-tui/src/localtime.rs:6-43 | a date, a time with seconds, any fraction, and `Z`, an offset or none read as the days, plus the time to the second, minus the offset; a negative year is refused |
| `IsoTime.ReadStampOf` | console-tui/src/localtime.rs:6-66 | an instant written to the second, in any zone and with any fraction, reads back as itself |
| `IsoGrammar.ZoneIsRead` | console-tui/src/localtime.rs:28-38 | a zone is read as an offset exactly for nothing, `Z`, and a mark followed by hours and minutes, parted by a colon or cut after two characters (`+0200`, `+02`), negative exactly after `-` |
| `IsoGrammar.ReadExactly` | console-tui/src/localtime.rs:9-43 | a text is read as an instant if and only if it denotes it: date, `T`, time and zone, written out as a grammar over their pieces |
| `IsoGrammar.PartsShow` | console-tui/src/localtime.rs:88-96 | what is shown of an instant in an offset is its valid local date and its hour and minute, each a number in digits filled up with zeros to its width |
| `Health.Authority.constructor` | console-tui/src/store.rs:3900-3906 | the initial state |
| `Health.Authority.Effect` | console-tui/src/health.rs:149-183 | the trigger effect, field by field: its guards, the new generation, the phase, the probe |
| `Health.Authority.RetryFailures` | console-tui/src/health.rs:201-213 | the loop over the slots collects exactly the failed, unspent ones in table order and reloads exactly the reload-safe ones among them |
| `Health.Authority.Settle` | console-tui/src/health.rs:190-230 | a settle, with its two guards, changes the state as specified and nothing else |
| `Health.EveryStateIsConsistent` | console-tui/src/health.rs:149-216 | in every run spent slots stay distinct, generations count up, and only reload-safe slots are ever sent again |
| `Health.VerifyingBegins` | console-tui/src/health.rs:163-183 | a verifying phase begins only at the trigger, from connected, with a fresh generation |
| `Health.VerifyingWasSpawned` | console-tui/src/health.rs:163-183 | every verifying phase of a run goes back to one trigger, and nothing ended it since |
| `Health.SettleEndsItsOwnPhase` | console-tui/src/health.rs:190-230 | a settle that changes the phase ends exactly the phase whose trigger spawned it; success restores that identity, and an error leads to the wrong-token phase exactly for a refused token, to no-access exactly for a forbidden one, to not-a-gateway exactly for an answer that is none, with its code, or 0 for a body that could not be read, and to not-reached otherwise, with its message |
| `Health.OtherFailureIsQuiet` | console-tui/src/health.rs:154-161 | a load that fails for any other reason than the network starts no probe and spends nothing |
| `Health.SlotsAreNamed` | console-tui/src/health.rs:75-107 | which domains may be loaded again, by name, and which are actions |
| `Health.NamesAreDistinct` | console-tui/src/health.rs:74-107 | no two slots share a name, so a spent name is a spent slot |
| `Health.PongReloadsExactly` | console-tui/src/health.rs:197-216 | a success loads a failed, unspent slot again exactly when its name is that of a pure read, and charges it either way |
| `Health.PongLeavesOthers` | console-tui/src/health.rs:197-216 | and touches no other slot |
| `Health.ClearRearms` | console-tui/src/ui/mod.rs:702-706 | after any clear, whatever was spent before, the first network failure of any slot starts a probe of a new generation |
| `Health.ConnectIsAnswered` | console-tui/src/worker.rs:1160-1247 | the Connect command resets every slot and budget, and ends connected as the identity it joins, where a failure is verified, or in the phase it is refused with, where none is |
| `Health.FailedWriteProbes` | console-tui/src/health.rs:149-183 | a failed write starts a probe whatever slots and budgets say, exactly while connected |
| `Health.RefreshLoads` | console-tui/src/ui/mod.rs:702-716 | a refresh changes the slots it loads and no other, and starts a probe exactly when it loads something, while connected, over a failed slot it does not load |
| `Health.ResetForgets` | console-tui/src/store.rs:3979-3990 | a reset leaves no load and no failure, and starts no probe |
| `Health.StaleSettleIsIdle` | console-tui/src/health.rs:191-196 | any other settle changes nothing at all |
| `Health.NoTriggerAfterSettle` | console-tui/src/health.rs:197-216 | a settle leaves the effect nothing to trigger on |
| `Health.RetriedAtMostOnce` | console-tui/src/health.rs:14-22 | between two clears of the spent list a slot is retried at most once, and an action slot never |
| `Health.PongShrinksUnspent` | console-tui/src/health.rs:203-216 | a success that finds an unspent failure makes the unspent slots strictly fewer |
| `Health.SpentFailureIsQuiet` | console-tui/src/health.rs:154-161 | in one turn, a slot whose budget is spent starts no probe when it fails |
| `Health.ProbesAreCharged` | console-tui/src/health.rs:149-216 | between two clears every probe of a run is paid for by a spent budget or by a success that found nothing failed |
| `Health.PersistentFailuresEnd` | console-tui/src/health.rs:149-216 | over all slots together, without failed writes, failures that persist until they are settled cost between two clears at most one probe for every slot whose budget is left, and one more |
| `Health.RecoveringFailureLoops` | console-tui/src/health.rs:17-20 | a slot that recovers before each settle sends any number of probes and spends nothing |
| `Health.VerifiedTwiceAfterRecovery` | console-tui/src/health.rs:17-20 | in every run, two probes between clears over one failed, unspent slot have a recovery of that slot between them, in the phase that verified it |
| `Health.VerifiedTwice` | console-tui/src/health.rs:17-20 | such runs exist for every slot |
| `Health.NotifiedTurnMissesNothing` | console-tui/src/health.rs:149-183 | a turn the effect sees leaves no failed, unspent slot while connected |
| `Health.RunProbesClean` | console-tui/src/worker.rs:1160-1247 | in every run no slot is failed while the Connect command probes |
| `Health.MissedExactlyWhen` | console-tui/src/ui/mod.rs:702-716 | a turn leaves one if and only if it is a refresh that starts no watched load and clears the budget of a failed slot while connected |
| `Health.MissedExactlySince` | console-tui/src/health.rs:149-216 | in every run a failed, unspent slot stands while connected if and only if such a refresh happened and no later turn notified the effect |
| `Health.MissedAfterRefresh` | console-tui/src/ui/mod.rs:702-716 | a run that ends connected over a failed action slot nobody verifies |
| `Follower.Follower.constructor` | scripts/bench_replay_view.py:194-210 | the initial state |
| `Follower.Follower.StartAbove` | scripts/bench_replay_view.py:445-446 | a caller may start counting above what it already knows |
| `Follower.Follower.Feed` | scripts/bench_replay_view.py:224-243 | the loop over the buffer receives exactly the frames the chunk completes and keeps the rest |
| `Follower.Follower.Handle` | scripts/bench_replay_view.py:232-243 | what one frame changes |
| `Follower.Follower.BisectLeft` | scripts/bench_replay_view.py:267 | the first recorded maximum that reaches the number |
| `Follower.Follower.DeliveredAt` | scripts/bench_replay_view.py:266-268 | its time, or none |
| `Follower.CutAppend` | scripts/bench_replay_view.py:228-231 | frames already complete are cut the same way when more bytes follow |
| `Follower.FedAllIsStream` | scripts/bench_replay_view.py:224-243 | feeding chunks is receiving the frames of the whole stream |
| `Follower.ChunkingDoesNotMatter` | scripts/bench_replay_view.py:224-243 | any two chunkings of a stream leave the same frames, ids, numbers and buffer, and the buffer holds no terminator |
| `Follower.ReachedIsConsistent` | scripts/bench_replay_view.py:239-243 | in every reached state the recorded maxima strictly increase, one time each |
| `Follower.DeliveredIsFirstCovering` | scripts/bench_replay_view.py:266-268 | above the initial maximum the bisection answers what a scan of every frame answers |
| `Follower.AgreesExactlyWhenSkipped` | scripts/bench_replay_view.py:239-268 | for any numbering of identifiers, it does so on every stream if and only if no identifier stands for a number from the one asked up to the initial maximum |
| `Follower.ExactlyAboveInitialMaximum` | scripts/bench_replay_view.py:239-268 | so when some identifier stands for the initial maximum, if and only if the number asked is above it |
| `FollowerFrames.NothingIsLost` | scripts/bench_replay_view.py:226-231 | the frames and the rest, one after another, are the stream; each frame ends at its first two line feeds in a row, and the rest holds none |
| `FollowerFrames.CutsOnlySo` | scripts/bench_replay_view.py:226-231 | and no other cut of a stream does that |
| `FollowerFrames.StreamIsKept` | scripts/bench_replay_view.py:224-238 | whatever the chunks, a view stream keeps exactly the frames that start with `id: `, in order, a ledger stream none, and the last identifier is what the last of them bears |
| `Changelog.Parse` | scripts/changelog.py:40-64 | the loop over the lines is the reading of a fragment, with its three errors |
| `Changelog.Group` | scripts/changelog.py:70-72 | one fragment's entries go into the dictionary of lists |
| `Changelog.Collect` | scripts/changelog.py:68-72 | so do all fragments', and the first that does not parse decides the error |
| `Changelog.LayOut` | scripts/changelog.py:73-77 | the sections that have bodies are written in the fixed order |
| `Changelog.AssembleText` | scripts/changelog.py:67-77 | the whole of `assemble_text` |
| `Changelog.ParsedSections` | scripts/changelog.py:51-52 | every parsed entry belongs to a known section |
| `ChangelogGrammar.HeadingExactly` | scripts/changelog.py:46-52 | a line is the heading of a section exactly when it is `###`, white space, the name in any case, and white space |
| `ChangelogGrammar.SpaceMeans` | scripts/changelog.py:46-55 | what Python takes for white space, code point by code point |
| `ChangelogGrammar.ParsedExactly` | scripts/changelog.py:40-64 | for every text, which error a fragment is refused with, and otherwise its entries: the stretches between headings, without their outer newlines |
| `ChangelogGrammar.BlocksAreAll` | scripts/changelog.py:45-60 | every line is before the first heading, a heading, or in the stretch of one |
| `ChangelogGrammar.AssembledReads` | scripts/changelog.py:67-77 | the text assembled from any fragments, with its six sections in their order |
| `ChangelogRoundTrip.ParsedIsClean` | scripts/changelog.py:40-64 | every parsed body has no newline at its edges, no other line end and no heading inside, and one is not blank |
| `ChangelogRoundTrip.AssembledParses` | scripts/changelog.py:67-77 | assembled text parses to exactly the grouped bodies, each section once, in the fixed order |
| `ChangelogRoundTrip.AssembledIsFixed` | scripts/changelog.py:67-77 | assembling the assembled text returns it unchanged |
| `ChangelogRoundTrip.EveryLineIsKept` | scripts/changelog.py:71-76 | every line of every non-blank body is kept, in file order and then as written |
| `ChangelogRoundTrip.ReadShown` | scripts/changelog.py:45-62 | reading laid-out sections closes to exactly those sections |
| `ChangelogRelease.SplitIsWhole` | scripts/changelog.py:87-91 | the three pieces of a changelog make up the file |
| `ChangelogRelease.SplitMeans` | scripts/changelog.py:87-91 | the cut is at the first Unreleased heading and at the first line below it that starts a release |
| `ChangelogRelease.ReleasesExactly` | scripts/changelog.py:85-86 | a changelog can be released if and only if it holds the Unreleased heading |
| `ChangelogRelease.ReleasedReads` | scripts/changelog.py:87-94 | the new file, piece by piece: the text above, the heading, the line of the release, what stood under Unreleased without its outer newlines if anything, the fragments' text, each followed by an empty line, and the older releases |
| `ChangelogRelease.ReleaseKeepsLines` | scripts/changelog.py:85-94 | line by line, every line of the old file and of the fragments that is not empty is in the new one, in order, next to the release's own title, if and only if the Unreleased heading ends its line |
| `ChangelogRelease.ReleaseEmptiesUnreleased` | scripts/changelog.py:85-94 | after a release nothing is left under Unreleased, what stood there heads the new section, and the rest is untouched |
| `ChangelogRelease.ReleasesStack` | scripts/changelog.py:85-94 | a second release goes above the first, which stays as it was |
| `Lines.SplitJoin` | scripts/changelog.py:45 | lines that hold none of the characters `splitlines` ends a line at split back when joined, when the last is not empty |
| `Lines.JoinSplit` | scripts/changelog.py:45-49 | text whose only line ends are newlines is its lines joined |
| `Lines.StripJoined` | scripts/changelog.py:49 | stripping joined lines keeps a run of them, from a line that is not empty to one that is not |
| `Lines.LinesOfText` | scripts/changelog.py:45 | every text is its lines, which hold no line end, with one line end between each two and perhaps one after the last |
| `Lines.StripMeans` | scripts/changelog.py:49 | stripping takes newlines off both ends, all of them, and nothing else |
| `Workflows.AddInterfaces` | console-tui/src/store.rs:1423-1427 | the inner loop adds the interfaces of one entrypoint that are not there yet |
| `Workflows.CollectInterfaces` | console-tui/src/store.rs:1421-1429 | the nested loops collect every interface once, in order of first occurrence |
| `Workflows.CountItem` | console-tui/src/store.rs:1316-1361 | counts, first values, maxima and deprecation, changed field by field |
| `Workflows.NameRow` | console-tui/src/store.rs:1368-1429 | name, description, source, entrypoint info and interfaces from the newest item |
| `Workflows.UpdateRow` | console-tui/src/store.rs:1307-1431 | the body of the loop over the items |
| `Workflows.CollectRows` | console-tui/src/store.rs:1265-1432 | the loop keeps one folded row for every bundle id that is not empty |
| `Workflows.KeysInOrder` | console-tui/src/store.rs:1433 | the map's keys in order |
| `Workflows.ListRows` | console-tui/src/store.rs:1433-1436 | the map's rows in key order, versions sorted |
| `Workflows.WorkflowRows` | console-tui/src/store.rs:1265-1437 | exactly one row for every non-empty bundle id of the payload, ordered by it |
| `Workflows.NoItemIsLost` | console-tui/src/store.rs:1316-1431 | published plus draft is the number of versions and of items, one version each |
| `Workflows.LeaderIsShown` | console-tui/src/store.rs:1363-1430 | source, entrypoint info and interfaces come from the last item that carries the greatest version string |
| `Workflows.LeaderIsUnique` | console-tui/src/store.rs:1363-1366 | there is one such item |
| `Workflows.RowSummarises` | console-tui/src/store.rs:1307-1361 | scope of the first item, first `latest` and flows there are, most entrypoints, any deprecation |
| `Workflows.RowIsNamed` | console-tui/src/store.rs:1368-1398 | name and description come from the last item that was the newest so far and has an entrypoint |
| `Workflows.DistinctHasNoRepeats` | console-tui/src/store.rs:1421-1429 | the interfaces have no repeats and lose no member |
| `Workflows.RowIsSound` | console-tui/src/store.rs:1265-1437 | all of this for every finished row of every payload, versions newest first |
| `Workflows.RowTells` | console-tui/src/store.rs:1265-1437 | every finished row in terms of its items' own fields: drafts and published counted, one listed version for each with its channel or its draft state, newest first, the flow and workflow ids and joined interfaces of the first item with an entrypoint, the leader's source, information and interfaces, and the name and description |
| `Workflows.DefaultIs` | console-tui/src/store.rs:1368-1382 | the naming entrypoint is the first one whose trimmed flow id is the declared default, and the first of all where none is declared or none fits |
| `Workflows.CommasBetween` | console-tui/src/store.rs:1349-1357 | interfaces are joined by a comma and a space |
| `Workflows.EqualVersionsKeepOrder` | console-tui/src/store.rs:1434-1436 | equal version strings stay in payload order |
| `HomePlane.HomePlaneIndex` | console-tui/src/store.rs:1576-1594 | the first plane whose trimmed directory is a longest path-boundary prefix, or none when no plane owns the path |
| `HomePlane.OwnersAreNested` | console-tui/src/store.rs:1569-1575 | two directories that own a path are nested, and equal when equally long |
| `HomePlane.FoundIsInnermost` | console-tui/src/store.rs:1569-1594 | every other owner's directory owns the found one's |
| `HomePlane.FirstLongestIsUnique` | console-tui/src/store.rs:1576-1594 | the answer is unique |
| `HomePlane.TrimSlashes` | console-tui/src/store.rs:1579 | only slashes come off the end of a directory, and all of them |
| `HomePlane.OwnsBySegment` | console-tui/src/store.rs:1583-1588 | a directory owns a path exactly when its segments between slashes are the first of the path's |
| `Pointer.SpellingIsAccepted` | console-tui/src/pointer.rs:245-301 | every spelling of a loopback origin is accepted and comes back as its canonical text |
| `Pointer.AcceptedIsSpelling` | console-tui/src/pointer.rs:245-301 | whatever is accepted is such a spelling |
| `Pointer.AcceptedExactly` | console-tui/src/pointer.rs:245-301 | a text is accepted if and only if it denotes an origin |
| `Pointer.AnswersExactly` | console-tui/src/pointer.rs:245-301 | an origin's canonical text is the answer for its spellings and for nothing else |
| `Pointer.AcceptedIsFixed` | console-tui/src/pointer.rs:242-301 | an accepted result is accepted again, unchanged |
| `Pointer.CanonicalIsInjective` | console-tui/src/pointer.rs:296-300 | the canonical text determines scheme, host and port |
| `Pointer.SameAnswerSameOrigin` | console-tui/src/pointer.rs:245-301 | two accepted texts give the same answer exactly when scheme, host and effective port agree |
| `Pointer.AnswerShowsPort` | console-tui/src/pointer.rs:296-300 | the answer carries the port exactly when it is neither 80 for http nor 443 for https |
| `Pointer.NoPortIsDefault` | console-tui/src/pointer.rs:296-300 | a text without a port number denotes port 80 for http and 443 for https |
| `Pointer.TextIsCut` | console-tui/src/pointer.rs:246-255 | a text is cut at its scheme, whatever its case, and at the first slash, question mark or number sign; any other scheme is refused as such |
| `Pointer.NoSchemeIsRefused` | console-tui/src/pointer.rs:246-249 | a text without a scheme is no URL |
| `Pointer.PlainAnswers` | console-tui/src/pointer.rs:256-300 | for any host without brackets, which of the refusals is given first, or the answer |
| `Pointer.BracketAnswers` | console-tui/src/pointer.rs:256-300 | the same for a bracketed host, after which only a port may stand |
| `Pointer.OpenBracketIsRefused` | console-tui/src/pointer.rs:256-262 | a bracket that is never closed |
| `Texts.WhiteMeans` | console-tui/src/pointer.rs:246 | what trimming takes for white space, code point by code point |
| `Texts.LowerMeans` | console-tui/src/pointer.rs:250 | lowering keeps the letters, leaves no capital, and is determined by that |

## Left out

- HTTP, server-sent-events transport, sockets, threads, subprocesses, git, file reads and writes,
  clocks and the C library's time zone are not part of this model.
- Durations are real numbers: the rounding of floating-point sums is not modelled.
- Letter case is folded before a query reaches the model; Unicode case folding and the query's row-level OR are not
  modelled.
- `Changelog.Parse`: headings are titled by the ASCII rule, so a heading that Python's `title` turns into a section name
  through a letter outside ASCII is read as unknown.
- Integer width: the parser's range of 64-bit numbers is modelled, the overflow of sums of them and of the 64-bit probe
  generation is not.
- `Follower.Follower.Feed`: ids are kept as bytes; replacing invalid UTF-8 in them is not modelled.
- `IsoTime.ReadRendered`: the text is a sequence of characters, so Rust's refusal to cut inside one is not modelled.
- `HomePlane.HomePlaneIndex`: lengths count characters where the source counts bytes, which orders nested prefixes alike.
- `Workflows.WorkflowRows`: items arrive as records; reading their fields out of JSON, the skipped bundles, the default
  bundle and the agent defaults of the payload are not modelled.
- `MultipartReader.UploadIsRecovered`: the reader takes the form this writer produces; transport padding, header folding,
  a preamble, comments in header values, percent-encoded names and part headers of other kinds are not modelled.
- `Health.Authority.Effect`: notices, and the credentials a probe is sent with, are not modelled.
- Checking a pull request for fragments, recording test durations, URL encoding, chat status, capability deltas, account
  rows and link lists would only add easy members.
- The replay engine, cursor tokens and the gateway service are called by this code and not part of it.
