# SparkPilot verification

A Dafny model of the parts of the SparkPilot control plane whose correctness does not show in any single
function, with machine-checked proofs of what they guarantee. `dafny verify dfyconfig.toml` checks all of it.

- **Trust policies** (`TrustPolicy`, `TrustMeaning`, `TrustExactness`, `TrustMerge`, `TrustDisagreements`,
  `TrustUpdates`). Before a dispatch the IAM trust
  policy of the execution role is de-duplicated, extended by one web-identity grant and consolidated to one
  SparkPilot statement per OIDC provider. The model gives policies a meaning (which federated calls they admit,
  `StringLike` by glob matching) and shows when the rewriting keeps it, that every run of updates admits exactly
  what it should, and exactly when the separate reader of the trust check finds what the writer wrote.
- **Role names** (`RoleNames`). Base-36 role names and the service-account patterns built from them: what
  collides, and that the patterns of different roles share no subject.
- **Token verification** (`RefreshThrottle`, `KeySets`, `JwksVerifier`). The JWKS cache as a class with its clock,
  its throttle with pruned timestamps, its key resolution, and both decoding paths. Ghost fields keep the full
  history of refreshes; the methods prove that the pruned list is enough.
- **Idempotency** (`Idempotency`). The reservation protocol as a step relation over any number of clients, and the
  procedure that a client runs in it while the others interleave.
- **Quota** (`Quota`). Admissions under the environment's row lock, interleaved with runs that move on.
- **States and codecs** (`Base64Url`, `BrowserBase64`, `InviteState`, `OidcState`). Unpadded base64url in Python and
  in the browser, the signed invite state, and the login page's wrapped state.
- **Contact intake and review** (`ContactIntake`, `ContactReview`). The second sliding-window limiter, and the
  approval state machine under the submission's row lock.
- **Release sync** (`ReleaseLabels`, `ReleaseSync`). Classification of EMR release labels over the release table,
  against a definition read off the set of listed labels.
- **Log tail** (`LogTail`), **names** (`Names`), **matrix runner** (`Matrix`).

Shared string vocabulary is in `Text`, and what wildcard patterns match in `Wildcards`. Where the source loops or updates fields the model does too, as a method
proved against a function or a property of the state; the results about runs and interleavings are lemmas.

Where code and expectation differ, the model follows the code and states the exact boundary, with inputs beyond it:

- Consolidation rewrites every SparkPilot statement into an `Allow` for its first federated principal with one
  `StringLike` condition. `TrustExactness.ExactlyTheCanonicalOnes` says of every SparkPilot statement whether that keeps
  its meaning: if and only if it is an `Allow` of the web-identity action alone, names one provider, has no condition but
  one on the sub key (in `StringLike`, or without wildcards in `StringEquals`, or in both with the same texts), and no
  other operator or member besides a `Sid`. Elsewhere it does not: a `Deny` becomes an `Allow`
  (`TrustExactness.DenyBecomesAllow`), further conditions are dropped (`TrustExactness.FurtherConditionIsDropped`), a star
  in `StringEquals` starts to match (`TrustExactness.EqualsBecomesLike`), and a second provider is refused
  (`TrustExactness.SecondProviderIsDropped`). Statements that are canonical one by one still change when one provider's
  are keyed differently, since only the first key is kept (`TrustExactness.SecondKeyIsDropped`).
- The trust check need not find a grant that an update reported as present or added. `TrustMerge.WriterAndReader` gives
  the condition for every policy, `TrustDisagreements.SecondProviderMisleads` and `TrustDisagreements.OtherKeyHides` a
  policy for each way of failing. On the first of them repeating the update also changes the policy again;
  `TrustMerge.RepeatedMerge` says for every policy whether it does.
- Base-36 encoding ignores leading zero bytes (`RoleNames.EncodedCollision`, `RoleNames.LeadingZeroCollides`). No IAM
  role name begins with one, and names that do not are told apart (`RoleNames.EncodedInjective`).
- A plain CSRF state that starts with the wrapping prefix, such as "sp_oidc_v1.x", and a wrapped one with a blank CSRF
  state do not survive the login page's round trip: `OidcState.ParseOfBuild`, `OidcState.LookalikeIsRefused`,
  `OidcState.BlankIsRefused`.
- Decoding an invite state raises instead of refusing when its body is not ASCII: `InviteState.RaisesExactly`,
  `InviteState.AccentedBodyRaises`.
- On texts with other characters than base64 symbols the server's decoder can accept what the browser's refuses:
  `BrowserBase64.DecodersDiffer`, `BrowserBase64.ExclamationDiffers`.
- A limit of zero or less does not cut the log tail to that many events (`LogTail.TailCount`, `LogTail.NotCut`). The
  HTTP endpoint only passes limits of at least one.
- After several syncs the release table can hold more than three current rows, since rows of labels no longer listed
  keep their status: `ReleaseSync.CurrentInTheTable`, `ReleaseSync.UpToSixCurrent`, `ReleaseSync.FourCurrent`.
- A window of the refresh throttle that includes its end can hold one refresh more than the maximum:
  `RefreshThrottle.ClosedWindowOverflows`.

## Model

| member | source | states |
|---|---|---|
| `TrustPolicy.SubPatternsFromTrustStatement` | src/sparkpilot/aws_clients.py:182-199 | the first `:sub` key and all patterns, `StringLike` before `StringEquals`, in the order of the object |
| `TrustPolicy.ConsolidateStatements` | src/sparkpilot/aws_clients.py:217-270 | the dictionary-driven loop computes the consolidated list: other statements first, then one per provider in first-met order |
| `TrustPolicy.ConsolidatedTrails` | src/sparkpilot/aws_clients.py:217-270 | for any list: other statements survive unchanged in order; providers and each provider's patterns are those before, first occurrences in order; each provider keeps its first key |
| `TrustPolicy.ConsolidationKeepsGrants` | src/sparkpilot/aws_clients.py:148-270 | the extracted (provider, pattern) relation is unchanged, with no precondition |
| `TrustPolicy.ConsolidationIsTight` | src/sparkpilot/aws_clients.py:217-270 | afterwards each provider has exactly one SparkPilot statement and no pattern twice |
| `TrustPolicy.ConsolidationIsIdempotent` | src/sparkpilot/aws_clients.py:217-270 | consolidating again changes nothing, for any list |
| `TrustPolicy.MergedExtracts` | src/sparkpilot/aws_clients.py:174-214 | reading back a written statement gives the provider, key and patterns written into it |
| `TrustMeaning.MergedStatementCovers` | src/sparkpilot/aws_clients.py:204-214 | a written statement admits exactly the web-identity calls of its provider whose subject matches one of its patterns |
| `TrustMeaning.ConsolidationPreservesMeaning` | src/sparkpilot/aws_clients.py:148-270 | on canonical SparkPilot statements, with one sub key per provider, the policy admits exactly the same requests before and after, whatever the other statements' opaque parts mean |
| `TrustMeaning.ConsolidationNeverNarrows` | src/sparkpilot/aws_clients.py:148-270 | without any condition on effects, operators or further conditions, what was admitted for web identity stays admitted |
| `TrustExactness.ExactlyTheCanonicalOnes` | src/sparkpilot/aws_clients.py:148-270 | a SparkPilot statement, whichever condition blocks it has, keeps its meaning when rewritten if and only if it is canonical |
| `TrustExactness.FurtherConditionIsDropped` | src/sparkpilot/aws_clients.py:202-214 | any SparkPilot statement with an entry of another key in either block, or with another operator or member that does not hold, admits once consolidated a request that it refused before |
| `TrustExactness.DenyBecomesAllow` | src/sparkpilot/aws_clients.py:202-214 | any SparkPilot `Deny` admits, once consolidated, what it was there to refuse |
| `TrustExactness.EqualsBecomesLike` | src/sparkpilot/aws_clients.py:182-214 | a star in a `StringEquals` pattern stands for any text once consolidated, and admits subjects refused before |
| `TrustExactness.SecondProviderIsDropped` | src/sparkpilot/aws_clients.py:172-179 | a call of a second federated principal, admitted before, is refused once consolidated |
| `TrustExactness.SecondKeyIsDropped` | src/sparkpilot/aws_clients.py:217-270 | of two canonical statements of one provider under different keys, a call of the second's subject, admitted before, is refused once consolidated |
| `TrustMerge.DedupeTrustStatements` | src/sparkpilot/aws_clients.py:136-145 | the loop over seen keys computes the list of first statements of each key |
| `TrustMerge.DedupedLaws` | src/sparkpilot/aws_clients.py:136-145 | one statement of every key is kept, and nothing but repeats of a key is dropped |
| `TrustMerge.DedupedAreFirsts` | src/sparkpilot/aws_clients.py:136-145 | what is kept is a subsequence of the list, made of the first of each class of statements that agree in every member: effect, action, whole principal, each operator, the rest |
| `TrustMerge.KeyIsIdentity` | src/sparkpilot/aws_clients.py:140 | two statements have one key if and only if they agree in every member up to the order of the entries of an operator |
| `TrustMerge.NothingElseIsDropped` | src/sparkpilot/aws_clients.py:136-145 | every statement is kept or agrees in every member with one that is, and no two that are kept agree |
| `TrustMerge.UpdateKeepsTheRest` | src/sparkpilot/aws_clients.py:694-735 | through a whole update every statement that consolidation does not rewrite is still there, or one that agrees with it in every member |
| `TrustMerge.RecognisedExactly` | src/sparkpilot/aws_clients.py:148-169 | a statement counts as SparkPilot's if and only if it has the web-identity action and, under a `:sub` key of either operator, a value with the service-account prefix |
| `TrustMerge.ExtractedExactly` | src/sparkpilot/aws_clients.py:172-179 | it is rewritten, for a provider, if and only if its principal is that text or names it first |
| `TrustMerge.HasGrantExactly` | src/sparkpilot/aws_clients.py:105-133 | the writer finds a grant in a statement if and only if the first entry of its own key in either operator holds the pattern and any federated principal is the provider |
| `TrustMerge.MatchesExactly` | src/sparkpilot/aws_clients.py:1056-1077 | the trust check does if and only if that entry is in `StringLike` and the principal is the provider alone |
| `TrustMerge.DedupeKeepsMeaning` | src/sparkpilot/aws_clients.py:136-145 | de-duplication never changes what a policy admits |
| `TrustMerge.WriterAndReader` | src/sparkpilot/aws_clients.py:1056-1077 | for every policy, after an update the trust check finds the grant if and only if the provider's first key is the grant's and the update did not skip it for a statement read as another provider's |
| `TrustMerge.WriterAndReaderAgree` | src/sparkpilot/aws_clients.py:1056-1077 | on policies whose SparkPilot statements each name one provider under its own key the grant just written is always found |
| `TrustMerge.MergeGrants` | src/sparkpilot/aws_clients.py:694-735 | for any policy an update adds its grant to the extracted relation unless it was skipped, and changes nothing else there |
| `TrustMerge.RunGrants` | src/sparkpilot/aws_clients.py:694-735 | after any run of updates of a single-provider policy the grants are the initial ones and those requested |
| `TrustMerge.RunOrderIsIrrelevant` | src/sparkpilot/aws_clients.py:694-735 | two runs that request the same grants, in any order and multiplicity, end with the same grants |
| `TrustMerge.RunIsTight` | src/sparkpilot/aws_clients.py:694-735 | after any non-empty run each provider has one statement and each pattern occurs once |
| `TrustMerge.RepeatedMerge` | src/sparkpilot/aws_clients.py:694-735 | for every policy, repeating an update changes nothing if and only if, should the writer find the grant in the policy, consolidation reads it there too or leaves a statement with it alone |
| `TrustMerge.RepeatChangesNothing` | src/sparkpilot/aws_clients.py:694-735 | so on single-provider policies it never changes anything |
| `TrustDisagreements.SecondProviderMisleads` | src/sparkpilot/aws_clients.py:709-735 | a statement that names another provider first: reported as present, not found by the trust check, and a repeated update changes the policy |
| `TrustDisagreements.OtherKeyHides` | src/sparkpilot/aws_clients.py:709-735 | a statement of the same provider under another key: what the update writes is not found by the trust check |
| `TrustUpdates.TrustPolicyDocument.MergeSparkPilotTrustStatement` | src/sparkpilot/aws_clients.py:694-735 | the document's statement member is replaced by the merged list, in which every statement that is not rewritten is kept; whether the grant was there is reported |
| `TrustUpdates.WrittenStatements` | src/sparkpilot/aws_clients.py:703-707 | the next update reads exactly the statements the last one wrote |
| `TrustUpdates.UpdateMeaning` | src/sparkpilot/aws_clients.py:694-735 | one update of a canonical policy widens what it allows by exactly the grant and leaves what it denies |
| `TrustUpdates.UpdateStaysCanonical` | src/sparkpilot/aws_clients.py:694-735 | canonical policies stay canonical |
| `TrustUpdates.RunMeaning` | src/sparkpilot/aws_clients.py:694-735 | after any sequence of updates a canonical policy admits exactly what it allowed or what some grant admits, unless denied at the start |
| `TrustUpdates.RunIsFound` | src/sparkpilot/aws_clients.py:1056-1077 | after any sequence of updates of a canonical policy the trust check finds every grant of the run |
| `RoleNames.Base36EncodeName` | src/sparkpilot/aws_clients.py:51-59 | repeated division ends with a canonical base-36 text that reads back as the name's big-endian integer |
| `RoleNames.EncodedCollision` | src/sparkpilot/aws_clients.py:51-59 | two names share an encoding if and only if they are equal up to leading zero bytes |
| `RoleNames.EncodedInjective` | src/sparkpilot/aws_clients.py:51-59 | names whose first byte is not zero share an encoding only if they are equal |
| `RoleNames.LeadingZeroCollides` | src/sparkpilot/aws_clients.py:51-59 | a zero byte in front of a name is lost |
| `RoleNames.SaPatternIsRecognised` | src/sparkpilot/aws_clients.py:62-64 | every pattern carries the marker by which SparkPilot recognises its statements |
| `RoleNames.OwnSubjectIsMatched` | src/sparkpilot/aws_clients.py:62-64 | the service account of a job, whatever EMR puts in the two free places, is matched by the pattern of its role |
| `RoleNames.PatternsAreDisjoint` | src/sparkpilot/aws_clients.py:62-64 | a subject matched by two patterns shows that namespace, account and role are the same |
| `RoleNames.PatternCollision` | src/sparkpilot/aws_clients.py:62-64 | within one account and namespace two roles have the same pattern if and only if their encodings collide |
| `RefreshThrottle.Prune` | src/sparkpilot/oidc.py:124-127 | what is kept is the timestamps after the cutoff |
| `RefreshThrottle.PrunedAnswer` | src/sparkpilot/oidc.py:113-130 | a list pruned at an earlier cutoff answers at a later one as the full history would |
| `RefreshThrottle.AdmissionKeepsThrottled` | src/sparkpilot/oidc.py:113-136 | admitting at one clock reading and recording at a later one keeps both bounds |
| `RefreshThrottle.RefusedOnlyWhenNeeded` | src/sparkpilot/oidc.py:113-130 | and a reading is refused only if one more refresh would break a bound |
| `RefreshThrottle.WindowHoldsAtMostLimit` | src/sparkpilot/oidc.py:113-136 | every window of the throttle's length without its end, wherever it starts, holds at most the configured maximum |
| `RefreshThrottle.ClosedWindowHoldsOneMore` | src/sparkpilot/oidc.py:113-136 | with its end it holds at most one more |
| `RefreshThrottle.ClosedWindowOverflows` | src/sparkpilot/oidc.py:124-129 | for every limit, it holds one more if and only if two refreshes that many places apart lie on its ends: the cutoff is strict |
| `RefreshThrottle.ClosedWindowIsTight` | src/sparkpilot/oidc.py:124-129 | a lawful history on which that happens |
| `KeySets.ParseKeys` | src/sparkpilot/oidc.py:163-178 | the parsing loop: non-objects skipped, unnamed keys numbered, the first unreadable key or no usable key an error |
| `KeySets.FiledIsLastOfName` | src/sparkpilot/oidc.py:167-176 | a name holds a key if and only if that is the last key of the set filed under it |
| `KeySets.UsableExactly` | src/sparkpilot/oidc.py:154-178 | a fetch gives keys if and only if it brings a list with a readable key and no unreadable one; each failure has its exact cause |
| `KeySets.NamesOfKeys` | src/sparkpilot/oidc.py:167-176 | a key with a kid is filed under it, and no two keys without one share a name |
| `JwksVerifier.LatestIsTheLastUsable` | src/sparkpilot/oidc.py:138-189 | the simple source: no keys while no fetch was usable, then the keys of the last usable one |
| `JwksVerifier.ForAudienceExactly` | src/sparkpilot/oidc.py:219-239 | the audience check in terms of the claims: an item of the audience claim is the audience once stripped, or all are blank and the client id is |
| `JwksVerifier.SupportedExactly` | src/sparkpilot/oidc.py:19 | the supported algorithms are the RS and ES families of three sizes, and no others |
| `JwksVerifier.OIDCTokenVerifier.constructor` | src/sparkpilot/oidc.py:75-106 | settings are clamped, and the verifier starts empty and valid |
| `JwksVerifier.OIDCTokenVerifier.RefreshRateIsBounded` | src/sparkpilot/oidc.py:113-157 | in every reachable state any window holds at most the maximum of forced refreshes without its end and one more with it, and any two are an interval apart |
| `JwksVerifier.OIDCTokenVerifier.JwksStale` | src/sparkpilot/oidc.py:108-111 | stale if and only if empty or past its time to live at the reading made |
| `JwksVerifier.OIDCTokenVerifier.IsForcedRefreshAllowed` | src/sparkpilot/oidc.py:113-130 | answers on the full history, if and only if interval and window allow |
| `JwksVerifier.OIDCTokenVerifier.RefusedExactlyWhenNeeded` | src/sparkpilot/oidc.py:113-130 | in every reachable state a forced refresh is allowed if and only if it keeps both bounds |
| `JwksVerifier.OIDCTokenVerifier.RecordForcedRefresh` | src/sparkpilot/oidc.py:132-136 | the history grows by the clock's own reading |
| `JwksVerifier.OIDCTokenVerifier.RefreshJwks` | src/sparkpilot/oidc.py:138-189 | a forced refresh is throttled if and only if its first clock reading does not allow one, and then fetches nothing; a failed one leaves keys and cache time alone, a successful one makes the cache exactly the fetched keys and renews its time |
| `JwksVerifier.OIDCTokenVerifier.ResolveSigningKey` | src/sparkpilot/oidc.py:191-217 | at most two fetches, one forced; a key is missed, or given without a kid, only after a forced refresh was asked for, which happens if the throttle has room as the call starts; a kid in the last key set fetched is found; a stale cache is renewed first; the key found is the cache's current one, and a failure has its reason |
| `JwksVerifier.OIDCTokenVerifier.ResolveForced` | src/sparkpilot/oidc.py:207-217 | if the first clock reading allows it there is one forced fetch, which is the answer when it fails and is looked at when it does not; otherwise the refresh is throttled and the cache as it was is looked at |
| `JwksVerifier.OIDCTokenVerifier.JudgeExactly` | src/sparkpilot/oidc.py:283-292 | after the decoding a wrong audience is refused first, then a subject that is missing or blank, and the identity has the subject stripped |
| `JwksVerifier.OIDCTokenVerifier.VerifyAccessToken` | src/sparkpilot/oidc.py:241-292 | at most five fetches, three forced; an accepted token has issuer, audience, expiry, subject and a signature under the resolved key; every rejection has its reason; no kid and no signature is given up before a forced refresh was asked for, which happens if the throttle has room as the call starts; when the last key set fetched holds the kid, the verdict is the one under its key |
| `JwksVerifier.OIDCTokenVerifier.VerifyAfterRotation` | src/sparkpilot/oidc.py:254-280 | the second attempt is refused if and only if its first clock reading allows no forced refresh; otherwise one fetch is made, a failure of which is the answer, and the token is looked at again; at most three more fetches, two forced |
| `Idempotency.StepKeepsInv` | src/sparkpilot/idempotency.py:49-93 | every step of every client keeps the protocol's invariant |
| `Idempotency.ExactlyOnce` | src/sparkpilot/idempotency.py:49-93 | in every interleaving at most one execution per (scope, key) commits, exactly when there is a row, which shows its result and never the placeholder |
| `Idempotency.OneAnswer` | src/sparkpilot/idempotency.py:36-46 | all clients of one key that get an answer get the same status and body |
| `Idempotency.CommittedIsFinal` | src/sparkpilot/idempotency.py:49-93 | committed rows and effects are never changed, and nobody executes against a committed key |
| `Idempotency.ReloadFindsTheWinner` | src/sparkpilot/idempotency.py:75-80 | after a lost race the reload always finds a row, so the re-raise is never taken: the client gets the row's status and body if the fingerprint is its own, and a conflict otherwise |
| `Idempotency.LoserIsAnswered` | src/sparkpilot/idempotency.py:73-80 | a client that meets the winner's row only at its flush is answered from it in the same way, whatever others do meanwhile, and leaves no row of its own |
| `Idempotency.FailedOnlyByFailure` | src/sparkpilot/idempotency.py:49-93 | in every interleaving a request fails only if its own execution raised, its commit failed or it was cut off |
| `Idempotency.FailureLeavesNoTrace` | src/sparkpilot/idempotency.py:89-92 | a failed execution or commit leaves rows and effects as they were and frees the key |
| `Idempotency.RetrySucceeds` | src/sparkpilot/idempotency.py:49-93 | on a free key a new client runs through, and its result is what is stored |
| `Idempotency.RepeatReplays` | src/sparkpilot/idempotency.py:36-60 | in any reachable state, with any steps of others between arrival and lookup, a request whose row was committed when it arrived gets the row's status and body if the fingerprint is its own, and a conflict otherwise |
| `Idempotency.Database.WithIdempotency` | src/sparkpilot/idempotency.py:49-93 | the procedure, with any steps of others in between: its outcome is justified by the state it ends in; a row there at the start is what it answers from; it fails only when its execution raises, its commit fails or another's row outlasts its wait |
| `Quota.EnforceQuotaForRun` | src/sparkpilot/quota.py:27-50 | admits if and only if the quota still holds with the new run; refuses a request for d and n times e vCPU if and only if a limit is reached or d + e * n does not fit |
| `Quota.AskedIsNeeded` | src/sparkpilot/quota.py:9-13 | a request for a driver of d and n executors of e vCPU needs d + e * n, where a missing field or a null request counts as zero |
| `Quota.EachExecutorAdds` | src/sparkpilot/quota.py:9-13 | without executors the driver's vCPU is all, and one more instance raises the need by exactly its own |
| `Quota.UsageIsSummed` | src/sparkpilot/quota.py:27-46 | usage is nothing for no runs, and one more run adds one and its d + e * n if it is the environment's and has not ended, and nothing otherwise |
| `Quota.SumRunVcpu` | src/sparkpilot/quota.py:45-46 | the quota check's own sum is the total over the active runs |
| `Quota.ComputeActiveVcpu` | src/sparkpilot/api.py:2956-2963 | the utilization endpoint's loop computes the same total |
| `Quota.MovingOnFrees` | src/sparkpilot/quota.py:9-13 | an active run that moves to another state never raises count or vCPU |
| `Quota.AfterKeepsInv` | src/sparkpilot/quota.py:16-50 | every interleaving of lock, count, sum, insert and moving runs keeps the invariant |
| `Quota.QuotaIsNeverExceeded` | src/sparkpilot/quota.py:16-50 | in every interleaving active runs and their vCPU stay within the limits |
| `Quota.ApprovalStaysJustified` | src/sparkpilot/quota.py:16-24 | while a client holds the lock nothing others do invalidates its check |
| `Quota.AdmittedExactlyWhenItFits` | src/sparkpilot/quota.py:16-50 | from any state in which the environment is not locked, a request that goes through its steps adds exactly its own run if it fits and none otherwise, and leaves the lock free |
| `Base64Url.RoundTrip` | src/sparkpilot/api.py:816-822 | Python's decoder undoes its encoder at every length; the text is unpadded URL text of the shortest length |
| `Base64Url.EncodeOfGroup` | src/sparkpilot/api.py:816-817 | three bytes are written as the four base-64 digits of their 24-bit number, before the encoding of the rest |
| `Base64Url.EncodeOfEnd` | src/sparkpilot/api.py:816-817 | one or two last bytes as the digits of their number with zero bits after it, without padding |
| `Base64Url.PyDecodeOfSymbols` | src/sparkpilot/api.py:820-822 | on texts of symbols the character-by-character decoder accepts exactly those that split into groups, and gives their bytes |
| `Base64Url.PyDecodeIsLenient` | src/sparkpilot/api.py:820-822 | on every text without pads of its own other characters are passed over, and the symbols decode if and only if the pads for the whole text's length complete their last group |
| `BrowserBase64.EncodeText` | ui/lib/oidc-client.ts:94-101 | from the text's bytes, the byte loop, `btoa` and three replacements give the server's encoding |
| `BrowserBase64.DecodeText` | ui/lib/oidc-client.ts:105-110 | the array loop yields the bytes of what `atob` returns, or throws |
| `BrowserBase64.JsDecodeIsStrict` | ui/lib/oidc-client.ts:104-112 | without blanks and pads the browser accepts exactly the texts of symbols that split into groups |
| `BrowserBase64.DecodersAgree` | ui/lib/oidc-client.ts:104-112 | on every text of symbols, valid or not, browser and server decode alike |
| `BrowserBase64.DecodersDiffer` | ui/lib/oidc-client.ts:104-112 | on every other ASCII text without blanks and pads the browser throws, and exactly when the server accepts |
| `BrowserBase64.ExclamationDiffers` | ui/lib/oidc-client.ts:104-112 | one exclamation mark: no bytes to the server, an error to the browser |
| `InviteState.DecodeOfEncode` | src/sparkpilot/api.py:825-891 | decoding an encoded payload strips its identifiers, and refuses exactly blank ones or a past expiry |
| `InviteState.ComesBackExactly` | src/sparkpilot/api.py:825-891 | the payload comes back unchanged if and only if its identifiers are non-empty and trimmed and its expiry is in the future |
| `InviteState.ReadExactly` | src/sparkpilot/api.py:866-891 | a body is accepted if and only if it is an invitation whose expiry lies ahead and whose stripped identifiers are not empty, and as exactly those |
| `InviteState.AcceptedIffSigned` | src/sparkpilot/api.py:845-891 | a payload is accepted if and only if the state frames a body naming it with the keyed hash of that body |
| `InviteState.SignatureFixesPayload` | src/sparkpilot/api.py:845-891 | on the signature of an issued state only the issued payload is accepted, unless the hash collides |
| `InviteState.RaisesExactly` | src/sparkpilot/api.py:848-878 | decoding raises if and only if the frame's body is not ASCII, or is signed and has an expiry that overflows |
| `InviteState.AccentedBodyRaises` | src/sparkpilot/api.py:854-858 | the prefix, a body of one accented letter and any signature |
| `OidcState.ParseOfBuild` | ui/lib/oidc-client.ts:148-185 | build and parse give back the trimmed pair if and only if a wrapped CSRF state is not blank and a plain one does not look wrapped |
| `OidcState.BuildTrims` | ui/lib/oidc-client.ts:148-160 | blanks around a CSRF state or an invite state are not built in, and an invite state of nothing else is no invite state |
| `OidcState.WrappedTrims` | ui/lib/oidc-client.ts:163-185 | nor are blanks kept around what is read from a wrapped state, which is refused when nothing else is left of one |
| `OidcState.BuildIsInjective` | ui/lib/oidc-client.ts:148-185 | equal states were built from pairs that mean the same |
| `OidcState.LookalikeIsRefused` | ui/lib/oidc-client.ts:151-163 | the plain state "sp_oidc_v1.x" is built unchanged and refused by the parser |
| `OidcState.BlankIsRefused` | ui/lib/oidc-client.ts:174-176 | a blank CSRF state is wrapped with an invite state and refused by the parser |
| `ContactIntake.RateIsBounded` | src/sparkpilot/api.py:3270-3301 | any closed window of the configured length holds at most the configured number of accepted submissions of a known source |
| `ContactIntake.DuplicatesAreApart` | src/sparkpilot/api.py:3303-3327 | accepted submissions with the same email and source are more than the duplicate window apart |
| `ContactIntake.RefusalWasNeeded` | src/sparkpilot/api.py:3270-3327 | a submission is refused for its rate if and only if accepting it would break the bound |
| `ContactIntake.ContactDesk.PostPublicContact` | src/sparkpilot/api.py:3335-3367 | inserts exactly what the controls accept, each field normalised on its own, which keeps the table lawful; a duplicate is refused if and only if one with its email and source lies in the window, and an unknown source never for its rate |
| `ContactReview.AfterKeepsInv` | src/sparkpilot/api.py:3434-3542 | every interleaving of approvals, rejections and failures keeps the invariant |
| `ContactReview.ApprovedExactlyWithItsTenant` | src/sparkpilot/api.py:3434-3476 | at most one committed tenant per submission, linked exactly when it is approved |
| `ContactReview.DecisionsAreFinal` | src/sparkpilot/api.py:3528-3542 | a decided submission keeps its decision, tenant and approver whatever follows |
| `ContactReview.FailureKeepsPending` | src/sparkpilot/api.py:3468-3476 | a failed approval leaves rows and tenants as they were, unlocked |
| `ContactReview.OneReviewAtATime` | src/sparkpilot/api.py:3434-3439 | the lock lets at most one review of a submission decide at a time |
| `ContactReview.ApprovalSucceeds` | src/sparkpilot/api.py:3434-3467 | a pending, unlocked submission can be approved, which creates its tenant |
| `ContactReview.RejectionSucceeds` | src/sparkpilot/api.py:3528-3542 | or rejected, which sets its status and changes no other row, tenant or lock |
| `ContactReview.OutcomesAreSo` | src/sparkpilot/api.py:3434-3542 | in every run a successful rejection left its submission rejected, a successful approval left it approved by that administrator, and a refusal names the decision there was |
| `ContactReview.DecidedByOneReview` | src/sparkpilot/api.py:3434-3542 | a submission is decided if and only if one review of it succeeded, and only one did |
| `ContactReview.LateReviewIsRefused` | src/sparkpilot/api.py:3440-3446 | a later review is not kept waiting: it is told the decision, or that there is no such submission, and changes nothing |
| `ReleaseLabels.ParseOfSpelled` | src/sparkpilot/services/emr_releases.py:19-23 | a label spelled from three numbers and an optional suffix is read as those numbers |
| `ReleaseLabels.ParsedIsSpelled` | src/sparkpilot/services/emr_releases.py:19-23 | and no other label has a version |
| `ReleaseLabels.OutranksLaws` | src/sparkpilot/services/emr_releases.py:62-68 | the newer version ranks higher, and within one version the label that is later in label order, such as the longer of two spellings |
| `ReleaseLabels.SortedByVersionLaws` | src/sparkpilot/services/emr_releases.py:66-68 | the stable version sort of the descending labels is the strict rank order of the same labels |
| `ReleaseSync.ReleaseTable.SyncEmrReleasesOnce` | src/sparkpilot/services/emr_releases.py:59-123 | writes for every listed label the facts read off the set, leaves other rows alone, and counts exactly the rows that were missing or different |
| `ReleaseSync.Classify` | src/sparkpilot/services/emr_releases.py:75-102 | the status decided from the top three of the sorted list is the one defined by how many labels rank above |
| `ReleaseSync.SupportThresholds` | src/sparkpilot/services/emr_releases.py:30-41 | Graviton from version 6.9 and Lake Formation from 7.7 on, and neither without a version |
| `ReleaseSync.StatusSpelledOut` | src/sparkpilot/services/emr_releases.py:75-82 | deprecated without a version; out of life when a newer major version is listed; deprecated when three listed labels rank above; otherwise current |
| `ReleaseSync.NewerIsNoWorse` | src/sparkpilot/services/emr_releases.py:71-82 | a strictly newer version never has a worse status |
| `ReleaseSync.AtMostThreeCurrent` | src/sparkpilot/services/emr_releases.py:71-78 | at most three of the listed labels are current |
| `ReleaseSync.CurrentInTheTable` | src/sparkpilot/services/emr_releases.py:71-98 | after a sync the table has as many current rows as current labels and unlisted rows that were current before; at most three if every row that was current is still listed |
| `ReleaseSync.BothStayCurrent` | src/sparkpilot/services/emr_releases.py:74-98 | two syncs of disjoint label sets leave the current labels of both |
| `ReleaseSync.UpToSixCurrent` | src/sparkpilot/services/emr_releases.py:71-98 | two syncs of up to three labels of one major version each, the sets disjoint: as many current rows as labels |
| `ReleaseSync.FourCurrent` | src/sparkpilot/services/emr_releases.py:71-98 | two labels of version 7 and then two of version 8: four rows are current |
| `ReleaseSync.LatestIsTheTarget` | src/sparkpilot/services/emr_releases.py:69-99 | the latest label is unique, current if any label has a version, and the target of every label that is not current |
| `ReleaseSync.SecondSyncIsQuiet` | src/sparkpilot/services/emr_releases.py:59-123 | a second sync of the same set, in any order, reports no change and keeps all facts |
| `LogTail.CollectLogEvents` | src/sparkpilot/aws_clients.py:2085-2120 | stops within 25 pages, at the first without a usable new token, with the pages' events in order |
| `LogTail.CollectedConversation` | src/sparkpilot/aws_clients.py:2092-2119 | collection is one conversation: no token first, then each reply's token; it ends with the first reply without a token, with an empty one or with the one just sent, or with the 25th; the events are the replies' in order |
| `LogTail.CollectsTheLog` | src/sparkpilot/aws_clients.py:2085-2120 | from a service paging through a fixed log everything is collected, or the first 25 pages |
| `LogTail.SortedLaws` | src/sparkpilot/aws_clients.py:2122-2129 | the sort orders, keeps every event, and keeps the order within a key |
| `LogTail.OrderMeans` | src/sparkpilot/aws_clients.py:2122-2129 | the order is by timestamp, then ingestion time, then id |
| `LogTail.StableSortIsUnique` | src/sparkpilot/aws_clients.py:2122-2129 | no other list does |
| `LogTail.NormalizeLogEvents` | src/sparkpilot/aws_clients.py:2122-2132 | sorts the given events in place and returns the message of each event of the tail |
| `LogTail.TailIsExact` | src/sparkpilot/aws_clients.py:2122-2132 | for a limit of at least one: as many events as the limit allows, in order, and nothing dropped comes after anything kept |
| `LogTail.TailCount` | src/sparkpilot/aws_clients.py:2130-2131 | the cut leaves as many events as the limit allows if and only if the limit is positive or there are no more events than its size |
| `LogTail.NotCut` | src/sparkpilot/aws_clients.py:2130-2131 | one event and a limit of zero, two and a limit of minus one: one is kept |
| `Names.ComponentLaws` | src/sparkpilot/aws_clients.py:279-283 | name components are legal, and unchanged by sanitizing if and only if they already were |
| `Names.DashedRun` | src/sparkpilot/aws_clients.py:44-47 | a substitution keeps the characters of the class and makes one dash of a whole run of others |
| `Names.ComponentKeepsLetters` | src/sparkpilot/aws_clients.py:279-283 | sanitizing keeps every ASCII letter and digit in order; only a text without any becomes "run" |
| `Names.RunNameLaws` | src/sparkpilot/aws_clients.py:286-300 | run names are legal, at most 64 characters, and made of as much of the job's component as there is room for, less edges at the cut, and the last twelve characters of the run's |
| `Names.SafeK8sLabelValue` | src/sparkpilot/aws_clients.py:303-313 | the two trimming loops end with a legal label value of 1 to 63 characters |
| `Names.SafeLabelLaws` | src/sparkpilot/aws_clients.py:303-313 | sanitizing leaves a value alone if and only if it is legal |
| `Names.LabelKeepsLetters` | src/sparkpilot/aws_clients.py:303-313 | a label keeps the letters and digits of the first 63 characters; only without any is it "unknown" |
| `Names.SuggestionIsLabel` | src/sparkpilot/api.py:1025-1040 | suggested namespaces are DNS labels (section 2.1 of RFC 1123, length of section 2.3.4 of RFC 1035) made of the first twenty characters of both fragments, less dashes at the end; the last cut and the fallback are never taken |
| `Names.FragmentKeepsLetters` | src/sparkpilot/api.py:1025-1029 | a fragment keeps every lower-case letter and digit in order; only a text without any becomes "sparkpilot" |
| `Matrix.RunScenario` | src/sparkpilot/e2e_matrix.py:990-1013 | the inner loop runs the scenario's iterations up to a failure under fail-fast, with matching counts |
| `Matrix.RunMatrix` | src/sparkpilot/e2e_matrix.py:945-1038 | refused if and only if the matrix estimate is over its cap and not overridden, stopped only by the first scenario over its own; otherwise the plan in order, all of it or up to the first failure under fail-fast |
| `Matrix.PlanHolds` | src/sparkpilot/e2e_matrix.py:981-990 | the plan holds iterations one to the repeat of every scenario and nothing else |
| `Matrix.PlanIsInOrder` | src/sparkpilot/e2e_matrix.py:981-990 | in scenario order and then in order of iteration, none twice |
| `Matrix.RunCostIsRounded` | src/sparkpilot/e2e_matrix.py:380-405 | the estimate of a run is the price of its driver and executors for the timeout, less the discount of its architecture, rounded down to millionths of a dollar |
| `Matrix.CountsAreConserved` | src/sparkpilot/e2e_matrix.py:1007-1033 | executed is passed plus failed, expected blocks are passes, and without fail-fast executed is the sum of the repeats |
| `Matrix.FailFastStopsAtFailure` | src/sparkpilot/e2e_matrix.py:1011-1014 | under fail-fast there is at most one failure and it is last |
| `Matrix.SpendingIsBounded` | src/sparkpilot/e2e_matrix.py:388-438 | under constant prices the estimates of the scenarios reached, and of the iterations executed, stay within the matrix estimate, and that within the cap unless overridden |

## Left out

- Policy documents: JSON scalars other than strings stand for their text; IAM policy variables and principals other than federated ones have no meaning of their own; operators other than `StringLike` and `StringEquals` are opaque, with any meaning.
- The namespaces and providers of the requested grants are arguments; reading cluster and role details from AWS and writing the policy back are not part of the model.
- JwksVerifier.OIDCTokenVerifier.VerifyAccessToken: calls run one after another; the source guards only the refresh with a lock, so reads of the cache that overlap a refresh in another thread are not covered. Whether a token's times (`exp`, `nbf`, `iat`) are in order is constant during a call, and claims of unexpected types other than these are left out. JWT signatures and key material are abstract, and list items of the audience claim are strings.
- JwksVerifier.World: clock and key-set endpoint are a monotone clock and arbitrary replies; time-outs and logging are left out.
- Idempotency.FailureLeavesNoTrace: a failed commit is one that was not applied; a commit that the database applies but reports as failed is not modelled.
- Idempotency.ExactlyOnce: the database is read-committed with a unique constraint on (scope, key), a conflicting flush waits for the other transaction; lock time-outs are failures. The executed function commits nothing itself and returns an HTTP status. Hashing the payload is abstract, so two payloads with one fingerprint are one.
- Quota.QuotaIsNeverExceeded: limits are fixed during the run; runs are inserted only by the locked admission; workers only move active runs to other states; stored resource sizes are not negative, as the request schema demands.
- InviteState.DecodeOfEncode: JSON printing and reading and the keyed hash are parameters, of which it is assumed that the printed body is read back.
- OidcState.ParseOfBuild: likewise `JSON.stringify`, `JSON.parse` and UTF-8.
- BrowserBase64.EncodeText: starts from the UTF-8 bytes of the text, whose computation by the browser is not modelled.
- BrowserBase64.DecodeText: ends with the bytes, before the browser reads them as UTF-8.
- BrowserBase64.JsDecodeIsStrict: texts with white space or pads of their own are decoded by the model of `atob` but not characterised further.
- ContactIntake.ContactDesk.PostPublicContact: requests are handled one after another; the source has no lock here, and two submissions that check before either commits are not covered. Python's lower-casing is any function; the status, which starts as pending, is part of the review instead.
- ContactReview.ApprovedExactlyWithItsTenant: the invitation email after the commit, and audit records.
- ReleaseLabels.ParsedIsSpelled: decimal digits are the ASCII ones; Python also accepts those of other scripts.
- ReleaseSync.ReleaseTable.SyncEmrReleasesOnce: the audit event, and the listing endpoint, which sorts the rows by version and label and cuts out a page.
- LogTail.CollectLogEvents: event fields that are not of their documented types; log group names and start times, which every request carries unchanged.
- Names.SuggestionIsLabel: Python's lower-casing is any function.
- Matrix.RunMatrix: writing artifacts, creating tenant and environment, and waiting for it; a result is only whether the iteration passed.
- Matrix.SpendingIsBounded: rates are real numbers, not floating point.
- AWS calls, HTTP routing, authentication of administrators, Terraform orchestration, migrations, settings validation, the command line and the user interface apart from its state codec.
- Policy evaluators, cost centres, role checks, retry loops, diagnostics and KPI percentiles, which are mostly single branches.
- The size of a policy in bytes against the AWS quota, which the code does not bound.
