# Verified core of the Teleport API client and types

A Dafny model of the parts of the Teleport `api` module that hold real state machines, concurrent
protocols, parsers and arithmetic, with proofs of what they guarantee. `dafny verify dfyconfig.toml`
checks the whole project.

- **Racing dial** (`RacingDial.dfy`, `RacingPlan.dfy`): `connect` as a step system of the spawner, its dial workers,
  the wait group, the closer of the error channel, the main loop and the drainer. The caller may
  cancel at any step. The plan of attempts is derived from the config.
- **Circuit breaker** (`Breaker.dfy`, `BreakerRuns.dfy`): the breaker as a class whose methods are
  proved against functions on its fields, and every interleaving of concurrent executions over it.
  Counters wrap at 32 bits, generations at 64 bits.
- **Inventory control stream** (`InventoryStream.dfy`): the send loop, the receive loop, any number
  of callers and any number of closers of one half of the stream, both halves told apart by a
  parameter.
- **Paginated listing** (`Pagination.dfy`): the loop that halves its page size, against any server
  that keeps the paging contract and refuses pages wherever it likes.
- **Identity file** (`IdentityFile.dfy`, `IdentityText.dfy`, `IdentityMeaning.dfy`,
  `IdentityRoundTrip.dfy`): decoder and
  encoder, what a file means in terms of its lines, and the round trips. PEM blocks are the textual
  encoding of section 2 of RFC 7468.
- **Duration text** (`Duration.dfy`, `DurationLaws.dfy`, `DurationRoundTrip.dfy`): the parser with
  its wrapping int64 arithmetic, the grammar it accepts and what texts are worth, and Go's own
  duration format parsed back.
- **Plugin data** (`PluginData.dfy`): the compare-and-set store as a class, refined to an array of
  cells.
- **Authentication preference** (`AuthPreference.dfy`, `AuthPreferenceLaws.dfy`): the in-place check
  that fills in defaults, as classes proved against a function, and its fixed points.
- `Options.dfy` and `Chars.dfy` hold what several of these share.

## Where the code and its comments differ

The model follows the code.

- api/client/client.go:291 says the last "no connection methods found" is never reached for a
  validated config. `RacingPlan.NoMethodsForConfigIff` gives the exact condition under which it is.
- api/breaker/breaker.go:303-304 announces an error for too many executions while Recovering. The
  code admits them all.
- api/types/duration.go:172 lists the units up to hours. The table at lines 154-166 also has days,
  months and years.
- A passing authentication preference check need not pass when repeated.
  `AuthPreferenceLaws.SecondRun` gives the exact condition.

## Model

| member | source | states |
|---|---|---|
| `RacingPlan.Spawn` | api/client/client.go:198-256 | the spawner's loops yield exactly the plan of attempts of the config, in order |
| `RacingPlan.SpawnFor` | api/client/client.go:203-255 | for one set of credentials: a single error if they are unusable, else the dialers and then every way in to every address |
| `RacingPlan.SpawnAddrs` | api/client/client.go:237-254 | per address the direct dial, and the proxy, tunnel and TLS-routing dials only with an SSH config |
| `RacingPlan.PlanCovers` | api/client/client.go:198-256 | a route is in the plan if and only if some usable credential and the config ask for it |
| `RacingPlan.PlanCounts` | api/client/client.go:198-256 | every route is dialled as often as the config asks: once per dialer, once per occurrence of its address; one error per broken credential |
| `RacingPlan.PlanInOrder` | api/client/client.go:203-235 | credentials come in order; unusable ones give one error, others the config's dialer, then their own or its error |
| `RacingPlan.AddressesInOrder` | api/client/client.go:237-254 | then the addresses in order, each with its direct, proxy, tunnel and TLS-routing dials in that order |
| `RacingPlan.OnlyBrokenCredsReport` | api/client/client.go:203-235 | the plan holds nothing but dials if and only if no credential has an error to report |
| `RacingDial.InvKept` | api/client/client.go:166-298 | every step of every goroutine keeps the invariant of the race |
| `RacingDial.ReachableInv` | api/client/client.go:166-298 | the invariant holds after every interleaving |
| `RacingDial.ChannelSafe` | api/client/client.go:169-263 | the wait group equals the live workers plus the live spawner; the error channel is never closed while anyone can still send, nor twice |
| `RacingDial.Survivors` | api/client/client.go:180-283 | once all goroutines end, the clients left open are exactly the returned one, or none on an error |
| `RacingDial.StepBurnsFuel` | api/client/client.go:166-298 | every step lowers a measure |
| `RacingDial.RunsAreBounded` | api/client/client.go:166-298 | no run has more than five steps per attempt plus seven |
| `RacingDial.SomeoneCanMove` | api/client/client.go:166-298 | no deadlock: until all goroutines have ended, one can step without the caller |
| `RacingDial.RunsCanFinish` | api/client/client.go:166-298 | every run extends, without the caller, to one in which all goroutines have ended |
| `RacingDial.QuietMeansEnded` | api/client/client.go:166-298 | a run that nobody but the caller can carry on has ended all goroutines, so with the bound every schedule ends |
| `RacingDial.FailureIsComplete` | api/client/client.go:265-297 | a returned error lists every credential error and every failed dial once, and nothing else but the context error, that only if the caller cancelled |
| `RacingDial.ErrorsInOrder` | api/client/client.go:265-297 | a returned error lists its causes in the order in which they were handed over |
| `RacingDial.ContextErrorIff` | api/client/client.go:294-297 | the context error is added exactly if the caller has cancelled by the time `connect` returns |
| `RacingDial.LostOnlyIfAllFailed` | api/client/client.go:265-297 | without cancellation the race is lost only if each attempt of the plan failed |
| `RacingDial.NoMethodsMeansGivenUp` | api/client/client.go:286-293 | the last branch is taken only if all dials succeeded and were given up, so only after a cancellation unless the plan is empty |
| `RacingDial.NoMethodsReachedIff` | api/client/client.go:286-293 | for every plan: some run takes the last branch if and only if there are targets and the plan holds only dials |
| `RacingPlan.NoMethodsForConfigIff` | api/client/client.go:198-293 | for every config: some run takes it if and only if there is a dialer or an address and no credential has an error to report |
| `Breaker.CircuitBreaker.constructor` | api/breaker/breaker.go:289-298 | a new breaker stands by in its first generation |
| `Breaker.CircuitBreaker.StartGeneration` | api/breaker/breaker.go:423-435 | a new generation has no tallies and the expiry of its state |
| `Breaker.CircuitBreaker.MoveTo` | api/breaker/breaker.go:398-407 | a change of state opens a generation, no change opens none |
| `Breaker.CircuitBreaker.Refresh` | api/breaker/breaker.go:410-419 | a late clock reading ends a Tripped or a Standby generation |
| `Breaker.CircuitBreaker.BeforeExecution` | api/breaker/breaker.go:324-339 | admits and counts unless tripped, and hands out the generation |
| `Breaker.CircuitBreaker.Success` | api/breaker/breaker.go:365-376 | new state and callback of a counted success |
| `Breaker.CircuitBreaker.Failure` | api/breaker/breaker.go:380-394 | new state and callback of a counted failure |
| `Breaker.CircuitBreaker.AfterExecution` | api/breaker/breaker.go:343-361 | counts the outcome only in the generation that admitted it |
| `BreakerRuns.Conservation` | api/breaker/breaker.go:324-361 | executions are successes plus failures plus the executions of this generation still running, modulo 2^32, and exactly so in the log |
| `BreakerRuns.TalliesRefineLog` | api/breaker/breaker.go:53-76 | all five counters are the fold of this generation's admissions and outcomes; the consecutive ones are the longest same-outcome suffixes |
| `BreakerRuns.StaleChangesNothing` | api/breaker/breaker.go:343-352 | completing an execution of an older generation, or of one the clock has just ended, counts nothing and does only what reading the clock does |
| `BreakerRuns.WindowSnoc` | api/breaker/breaker.go:53-76 | a consecutive count reaches n exactly when a run of n equal outcomes has just appeared |
| `BreakerRuns.RecoversExactly` | api/breaker/breaker.go:365-376 | over all steps, Recovering goes to Standby exactly when a counted outcome completes the first RecoveryLimit successes in a row |
| `BreakerRuns.TrippedWindow` | api/breaker/breaker.go:324-339 | nothing is admitted after a trip at t until a reading strictly after t + TrippedPeriod |
| `BreakerRuns.TrippedEndsOnTime` | api/breaker/breaker.go:410-435 | while tripped, an execution is admitted if and only if its reading is past that period |
| `BreakerRuns.StandbyCountsOneInterval` | api/breaker/breaker.go:410-435 | a Standby generation only holds executions admitted within one Interval |
| `BreakerRuns.ExpiryIsExact` | api/breaker/breaker.go:423-435 | every generation expires exactly Interval or TrippedPeriod after the reading that opened it; a Recovering one has no expiry |
| `BreakerRuns.StandbyRenewsExactly` | api/breaker/breaker.go:410-435 | in Standby an execution starts a new count exactly if its reading is past that Interval |
| `BreakerRuns.NoTokenFromTripped` | api/breaker/breaker.go:324-361 | no running execution carries a Tripped generation, so no outcome is counted while tripped |
| `BreakerRuns.CallbacksAlternate` | api/breaker/breaker.go:365-394 | OnTripped firings less OnStandBy firings are 0 in Standby and 1 otherwise |
| `BreakerRuns.LegalMoves` | api/breaker/doc.go:20-32 | Standby never goes straight to Recovering nor Tripped straight to Standby; each change opens one generation |
| `BreakerRuns.TripsIff` | api/breaker/breaker.go:380-394 | over all steps, the breaker trips exactly on a counted failure after which Trip, or Recover while Recovering, says so |
| `BreakerRuns.TripsExactly` | api/breaker/breaker.go:166-172 | over all steps, the consecutive-failure tripper trips Standby exactly on the first run of max + 1 failures of a generation within its interval, and never if max is the largest 32-bit value |
| `BreakerRuns.RatioTripsExactly` | api/breaker/breaker.go:152-164 | over all steps, the ratio tripper trips exactly on a counted failure that brings the failures to the given share of all admitted executions, the running ones included, once the minimum has been admitted |
| `BreakerRuns.EpochGrowsSlowly` | api/breaker/breaker.go:423-425 | a step opens at most one generation, so no token is reused in runs of fewer than 2^64 - 2 steps |
| `InventoryStream.InvKept` | api/client/inventory.go:256-385 | every step of every goroutine keeps the invariant of the stream |
| `InventoryStream.OneReplyEach` | api/client/inventory.go:292-329 | each accepted request gets exactly one reply, its own, in order |
| `InventoryStream.AnswerNeverBlocks` | api/client/inventory.go:311-315 | the loop can always give its reply, even if the caller has left |
| `InventoryStream.WireInOrder` | api/client/inventory.go:292-329 | the stream is given the supported messages in the order accepted, none skipped or repeated |
| `InventoryStream.NilMeansSent` | api/client/inventory.go:331-350 | a `Send` that returns nil had its message passed to the stream exactly once, with success |
| `InventoryStream.NotSentMeansNotSent` | api/client/inventory.go:331-350 | a `Send` cancelled before acceptance, told of a closed stream or refused for its type left nothing on the stream |
| `InventoryStream.NoSendIsStranded` | api/client/inventory.go:331-350 | while a `Send` has not returned, a step of that call, of the send loop on the item in hand or of a closer is possible |
| `InventoryStream.SendCanReturn` | api/client/inventory.go:331-350 | from every reachable state at most 47 such steps, and nobody else's, bring a given `Send` to its return |
| `InventoryStream.HelpIsBounded` | api/client/inventory.go:292-350 | such steps, whatever the stream answers, cannot go on: every run of them has at most 47 |
| `InventoryStream.ClosedOnce` | api/client/inventory.go:364-385 | under any closers the done channel is closed once, where the error is set |
| `InventoryStream.LoopsCanEnd` | api/client/inventory.go:256-329 | once the stream is closed, both loops can end within five steps of their own, the pending read failing |
| `InventoryStream.WindingUpIsBounded` | api/client/inventory.go:256-329 | every run of such steps, whatever the stream answers, has at most five |
| `InventoryStream.ErrorIsFirst` | api/client/inventory.go:364-385 | the stream has an error exactly once closed, and it is what the first closer brought: the user's or end-of-file, or the failure of the read or send that made the loop close |
| `InventoryStream.SendIsToldTruly` | api/client/inventory.go:331-350 | a `Send` gives up or skips its reply only if its context is done, and one told of a closed stream gets the stream's error |
| `InventoryStream.KindsMatch` | api/client/inventory.go:270-312 | each known kind is sent by one half only and is what the other unwraps |
| `InventoryStream.ErrorIsFinal` | api/client/inventory.go:364-385 | once set, the error never changes |
| `InventoryStream.NeverExternallyClosed` | api/client/inventory.go:343-348 | the "externally closed" branch of `Send` is never taken |
| `InventoryStream.DeliveredIsPrefix` | api/client/inventory.go:256-288 | what is delivered is a prefix of the known messages read, at most one short |
| `InventoryStream.NothingAfterFailure` | api/client/inventory.go:314-323 | after a failed stream send nothing more is accepted or sent |
| `InventoryStream.EndToEnd` | api/client/inventory.go:422-493 | over a stream that keeps order, one half delivers a prefix of the supported messages the other accepted |
| `Pagination.GetResourcesWithFilters` | api/client/client.go:2681-2724 | success returns all matches in order; at most ten "limit exceeded" answers, the tenth and only it ends the run as too large, never if each resource fits; page sizes only halve; other errors end the run at once; bounded number of requests |
| `Pagination.TenHalvings` | api/defaults/defaults.go:124 | the default page size survives nine halvings and not the tenth |
| `Pagination.PageOfOneFits` | api/client/client.go:2701-2711 | if each resource fits, a page of one is never refused |
| `Pagination.PageExtends` | api/client/client.go:2716-2720 | a page extends what was fetched without gap or overlap, and the loop stops on it exactly at the end |
| `IdentityFile.Decode` | api/identityfile/identityfile.go:236-304 | the decoder computes the meaning of the file's lines |
| `IdentityFile.DecodeLines` | api/identityfile/identityfile.go:263-303 | the outer loop, line by line |
| `IdentityFile.ReadBlock` | api/identityfile/identityfile.go:269-287 | the inner loop takes the lines up to the first END or reports a fragment |
| `IdentityFile.KindsExclude` | api/identityfile/identityfile.go:264-276 | a line is of one kind only, so the order of the tests does not matter |
| `IdentityFile.CertIsNoBoundary` | api/identityfile/identityfile.go:306-316 | a certificate line is no authority line and no PEM boundary, though its type may begin with dashes |
| `IdentityText.CutIsUndone` | api/identityfile/identityfile.go:237-250 | the lines, each with a newline, are the text with a final newline |
| `IdentityText.LastLineCounts` | api/identityfile/identityfile.go:237-250 | a last line without a newline is a line like any other |
| `IdentityText.LinesAreTrimmed` | api/identityfile/identityfile.go:243-250 | a line is looked at without the white space around it, and only without that |
| `IdentityText.SpaceCodes` | api/identityfile/identityfile.go:248 | white space is the Unicode property White_Space, by code point |
| `IdentityText.BoundariesAre` | api/identityfile/identityfile.go:267-276 | a PEM boundary is five dashes and its word; an authority line starts with its mark |
| `IdentityText.FirstFieldIs` | api/identityfile/identityfile.go:314 | the certificate type is what stands before the first space |
| `IdentityText.CertTypeIff` | api/identityfile/identityfile.go:306-316 | a certificate type is a key type, "-cert-v", two digits and "@openssh.com", and nothing else |
| `IdentityMeaning.FailsIffUnterminated` | api/identityfile/identityfile.go:279-286 | decoding fails if and only if a block is left open at the end |
| `IdentityMeaning.DecodedMeaning` | api/identityfile/identityfile.go:261-303 | otherwise key, TLS certificate and TLS authorities are the file's blocks in order, the SSH certificate the last outside any block, the SSH authorities all such lines outside blocks in order |
| `IdentityMeaning.BlocksAreSpans` | api/identityfile/identityfile.go:269-298 | the blocks found are all the maximal BEGIN-to-END spans, in order, with their lines |
| `IdentityMeaning.OutsideLines` | api/identityfile/identityfile.go:264-268 | certificate and authority lines count exactly outside blocks |
| `IdentityRoundTrip.Encode` | api/identityfile/identityfile.go:194-232 | the encoder writes every component in its place, each ending its line |
| `IdentityRoundTrip.EncodedText` | api/identityfile/identityfile.go:194-232 | the file is the lines of its components as they are, an absent one leaving an empty line |
| `IdentityRoundTrip.LinesOfEncoding` | api/identityfile/identityfile.go:194-232 | an encoded file has the lines of its components, one after the other |
| `IdentityRoundTrip.RoundTripIff` | api/identityfile/identityfile.go:194-304 | decoding an encoded well-formed identity gives it back normalised if and only if there is no TLS certificate without a key and no TLS authority without a TLS certificate |
| `IdentityRoundTrip.DecodeEncodeDecode` | api/identityfile/identityfile.go:194-304 | decode, encode and decode again gives the first result, for every text that decodes |
| `Duration.AddDigit` | api/types/duration.go:110-118 | the wrapping overflow checks admit a digit exactly when the exact value fits int64 |
| `Duration.LeadingInt` | api/types/duration.go:103-121 | reads the longest run of digits; fails exactly if its value exceeds 2^63 - 1 |
| `Duration.LeadingFraction` | api/types/duration.go:126-152 | reads the longest run of digits, keeping the longest prefix that fits int64 and its scale |
| `Duration.ScaleTerm` | api/types/duration.go:244-257 | the wrapping checks refuse a term exactly if its exact value exceeds 2^63 - 1 |
| `Duration.ScanTerm` | api/types/duration.go:195-257 | one pass of the loop reads one number and unit, or gives the error of the first thing wrong |
| `Duration.ParseUnsigned` | api/types/duration.go:194-263 | the loop adds up the terms and refuses exactly a sum that exceeds 2^63 - 1 |
| `Duration.ParseDuration` | api/types/duration.go:173-269 | the whole parser equals the one on unbounded integers |
| `Duration.FracIsLongest` | api/types/duration.go:126-152 | the digits kept are the longest prefix whose value fits |
| `DurationLaws.GrammaticalTextParses` | api/types/duration.go:173-269 | a grammatical text is worth sign times the sum of its terms, refused exactly if the sum exceeds 2^63 - 1 |
| `DurationLaws.WholeTermsAreExact` | api/types/duration.go:244-248 | a term without fraction is its number times its unit |
| `DurationLaws.AcceptedIff` | api/types/duration.go:173-269 | a text is worth x exactly if it is a bare zero with any sign and x is 0, or a sign and terms whose sum fits and x is the signed sum |
| `DurationLaws.UnitErrorIff` | api/types/duration.go:227-243 | a missing or unknown unit is reported exactly if, after good terms whose sum fits, a number comes without a unit or with one not in the table; every other refusal is "invalid" |
| `DurationLaws.ConcatenationAdds` | api/types/duration.go:194-263 | the concatenation of two accepted unsigned texts, bare zeros aside, is worth the sum of their values, or refused if that does not fit |
| `DurationRoundTrip.RoundTrip` | api/types/duration.go:43-66 | the text of a duration parses back to it for every int64 but the least, which is refused |
| `DurationRoundTrip.FormatTotal` | api/types/duration.go:43-45 | the printed terms, fractions included, add up to the duration |
| `DurationRoundTrip.DecimalTerms` | api/types/duration.go:244-257 | with an exact quotient, a term whose fraction digits fit is worth its decimal number of units, cut off to a whole |
| `DurationRoundTrip.ShortShape` | api/types/duration.go:43-45 | below a second the text is one plain term between 1 and 999 of its unit; zero is "0s" |
| `DurationRoundTrip.LongShape` | api/types/duration.go:43-45 | from a second on it is hours, minutes and seconds without leading zero units, the lower two below 60 |
| `DurationRoundTrip.UnitTable` | api/types/duration.go:154-166 | the eleven unit names and the relations between their values |
| `DurationRoundTrip.RealEnvironment` | api/types/duration.go:154-166 | the source's unit table and an exact quotient meet all that the laws ask for |
| `PluginData.NewPluginData` | api/types/plugin_data.go:43-57 | an empty store for a named resource of some kind, and nothing otherwise |
| `PluginData.PluginDataV3.CheckExpectations` | api/types/plugin_data.go:195-217 | passes if and only if every expected value is what the store shows, an absent one being empty; otherwise names a field that differs |
| `PluginData.PluginDataV3.WriteKeys` | api/types/plugin_data.go:175-183 | the loop over the keys to set, in any order, overlays them, an empty value deleting |
| `PluginData.PluginDataV3.Apply` | api/types/plugin_data.go:164-188 | the entry is made when missing and dropped when empty |
| `PluginData.PluginDataV3.Update` | api/types/plugin_data.go:147-190 | succeeds if and only if kind, name and expectations match; otherwise says why and changes nothing |
| `PluginData.AnyOrder` | api/types/plugin_data.go:175-183 | every order of the keys gives the same data |
| `PluginData.UpdatedView` | api/types/plugin_data.go:174-188 | an update overrides the keys set of its plugin and no other cell |
| `PluginData.RunRefines` | api/types/plugin_data.go:147-217 | every run of updates is a run of compare-and-set over a total map with the same answers and contents |
| `PluginData.RunNormal` | api/types/plugin_data.go:176-188 | no run leaves an empty value or an empty entry |
| `PluginData.NormalIsUnique` | api/types/plugin_data.go:176-188 | stores in that form that read the same are the same |
| `PluginData.HistoriesAgree` | api/types/plugin_data.go:147-190 | histories of a new store with the same meaning leave the same maps |
| `PluginData.Commute` | api/types/plugin_data.go:26-31 | updates that do not touch each other's cells, such as those of two plugins, commute |
| `PluginData.UndoRestores` | api/types/plugin_data.go:147-190 | writing back what an update overwrote is accepted and restores the store exactly |
| `PluginData.OneWinner` | api/types/plugin_data.go:158-163 | of two updates that expect and replace the same value, both succeed only if the value was written back in between |
| `AuthPreference.CheckCerts` | api/types/authentication.go:547-551 | all certificates are valid |
| `AuthPreference.FirstPart` | api/types/authentication.go:573 | all of the host, or all before its first colon |
| `AuthPreference.WebauthnV2.CheckAndSetDefaults` | api/types/authentication.go:555-607 | new settings and verdict, the relying party id and allowed authorities taken from U2F where missing |
| `AuthPreference.AuthPreferenceV2.CheckMetadata` | api/types/resource.go:334-361 | new metadata and verdict, the expiry shown in UTC, labels taken in any order |
| `AuthPreference.AuthPreferenceV2.CheckSetRequireSessionMFA` | api/types/authentication.go:530-536 | the old flag and the new setting are brought together |
| `AuthPreference.AuthPreferenceV2.CheckFactor` | api/types/authentication.go:450-490 | WebAuthn is validated, made from U2F when only that is configured |
| `AuthPreference.AuthPreferenceV2.CheckAndSetDefaults` | api/types/authentication.go:399-526 | the whole configuration afterwards, also on failure, and the error |
| `AuthPreferenceLaws.PassesIff` | api/types/authentication.go:399-607 | the check passes if and only if the input meets a list of conditions, whatever their order |
| `AuthPreferenceLaws.FirstFault` | api/types/authentication.go:399-607 | the error reported is a fault of the input, and no other fault it has is looked for earlier |
| `AuthPreferenceLaws.FailureLeaves` | api/types/authentication.go:399-607 | what a failed check leaves of header, settings and WebAuthn is fixed by the stage of its fault |
| `AuthPreferenceLaws.LabelsPass` | api/types/resource.go:347-351 | label keys are non-empty and of letters, digits and the six marks, by code point |
| `AuthPreferenceLaws.KeepsChoices` | api/types/authentication.go:399-536 | a passing check keeps every setting that was made and fills in the rest, field by field, an inferred relying party id being the application id's host name or the id itself |
| `AuthPreferenceLaws.FixedPointIff` | api/types/authentication.go:399-607 | what the check passes and leaves alone is exactly the normal configurations |
| `AuthPreferenceLaws.SecondRun` | api/types/authentication.go:399-607 | after a passing check a second one changes nothing, and fails if and only if the first took a relying party id from the U2F host that does not parse |
| `AuthPreferenceLaws.SecondRunCanFail` | api/types/authentication.go:569-581 | an application id with an escaped percent sign passes once and then fails |
| `AuthPreferenceLaws.FactorsAllow` | api/types/authentication.go:261-288 | which methods each second factor setting allows and enforces after a passing check |
| `AuthPreferenceLaws.PreferredIsAllowed` | api/types/authentication.go:240-288 | after a passing check the suggested method is the best one the accessors allow, and there is none only if none is allowed |

## Left out

- The rest of the repository: single-call wrappers, dialers, credentials, profiles, resource getters and setters, event tables, build tooling. They would only add easy members or rest on foreign libraries.
- gRPC, TLS, SSH, protobuf, JSON and YAML: opaque values, or parameters such as what a dial, a stream call, `url.Parse` or the certificate parser answers.
- Dials and stream calls that never return: a dial always comes back, and a pending stream call is a step not yet taken.
- The in-memory pipe of the inventory stream (api/client/inventory.go:91-191).
- `NewNoop`, the retry jitter, logging and the interceptors of the breaker; TrippedPeriod, Interval and RecoveryLimit are positive constants and clock readings do not go back.
- Breaker steps assume that no execution outlives 2^64 generations, when its token could be mistaken for a new one. `BreakerRuns.EpochGrowsSlowly` shows this of every run shorter than that.
- BreakerRuns.RatioTripsExactly: over real numbers, so the rounding of the float64 quotient is not modelled; for generations of fewer than 2^32 admissions, beyond which the counters wrap and only `BreakerRuns.TripsIff` applies.
- Duration.ScaleTerm: the float64 product is a parameter. Of the arguments the parser makes (a positive fraction below one, at a power of ten, of a unit in the table) it is asked to be a non-negative int64, and for the round trip also exact where the unit is a multiple of the scale and the product is below 2^53. That float64 arithmetic meets this is not proved here. Other fractions keep whatever it returns.
- DurationRoundTrip.RoundTrip: the printed form is modelled from the documented format of Go's `time.Duration.String`, which is not part of the repository.
- Durations are texts of Unicode characters rather than bytes; only the unit names hold characters beyond ASCII. The special text "never" and the JSON and YAML framing are not modelled.
- IdentityFile.Decode: scanner errors (a reader that fails, a line over the scanner's limit) and invalid UTF-8 are not modelled, and an absent component is the empty text.
- PluginData.PluginDataV3.Update: an entry whose data map is nil, which would fail on a write, and sharing of entries between stores are not modelled.
- AuthPreference.AuthPreferenceV2.CheckAndSetDefaults: optional flags are values, so two settings sharing one flag object are not modelled; an invalid label or certificate is reported without its text.
