# Payment gateway: verified model

This project models the parts of the payment gateway that hold state or do arithmetic, and proves what they keep over every input and every run.

- **Resilience** (`CircuitBreaking`, `Retry`, `Gateway`, `GatewayOutcomes`). A circuit breaker guards any number of concurrent calls. A run is an interleaving of its critical sections. The breaker is proved to refuse a call exactly when the history of completed calls says so, and an execute to reach the provider exactly when the outcomes of earlier ones say so.
- **Ledger** (`Enums`, `StateMachine`, `Model`, `Ledger`, `LedgerInvariants`, `LedgerEffects`, `RefundBatches`). Payments and refunds are requests on a session that is committed or rolled back. The provider's reply is an arbitrary input.
- **Idempotency** (`Runs`, `Idempotency`, `ReplayErasure`, `KeyedCreates`, `KeyedAnswers`). Keyed requests are modelled twice: in serial runs, and as interleaved database transactions. Every interleaving is proved to commit the rows of a serial run in commit order, and every answer is placed in that run between the start of its transaction and the answer.
- **Rate limiter** (`RateLimit`). The fixed-window counter, with an exact bound and erasure results.
- **Codecs and money** (`Text`, `Signatures`, `Crypto`, `Money`).

Code that updates objects in place is a class or a method. Each such method is tied to a function on values, and the results are proved about that function. What a function does is also stated without it: in terms of the request, the provider's outcomes and replies, or the bytes that are sent (`RequestsAreAnsweredExactly`, `AdmittedExecute`, `CreateStoresTheReply`, `SignatureBinds`, `TokenCarries`). Times and delays are `real`.

## How the model reads the source

- A call that ends in a `BaseException` outside `Exception` (a cancellation) reaches no breaker handler and leaves the metrics label at `success`. The model follows this.
- A breaker threshold below one behaves like one, so no result about the breaker needs a positive threshold. Runs are required to have a monotone clock.
- The source documents "a single trial call" for HALF_OPEN. The code admits every call that begins before a probe ends (`HalfOpenAdmitsAnyNumberOfProbes`). It is a single trial exactly when no caller begins while a probe is in flight (`SingleTrialExactly`).
- The idempotency service documents "at-most-once semantics". This holds for rows. Two overlapping requests under one key can both be accepted by the provider, after which one is rolled back (`OverlappingRetriesBothCharge`). When the provider can still be charged under a key is exact: a started create can reach it exactly while its key is not committed (`ChargeableExactlyWhileKeyIsFree`), so a retry that starts after the commit never does (`LateRetryNeverCharges`).
- Not every concurrent answer is a serial one: a create whose key is committed by another before its own flush is told of a broken constraint, where a serial retry gets the stored response or a conflict (`LoserHasNoSerialAnswer`). `AnswersLineariseExactly` shows that this is the only exception.
- Refunds and captures read a payment without locking it, so ledger runs are serial. Only creates interleave in `KeyedCreates`.
- A create whose reply has a status that is no first transition, or a reference that is already stored for the provider, raises after the provider accepted it, and its row is rolled back (`CommitsExactlyWhenAccepted`).
- `captured <= amount` is not enforced by the code. `CapturedWithinAmountExactly` says when it holds, and `OvercaptureIsPossible` shows a run where it fails.
- A flush waits while another open transaction has written the same unique value, as PostgreSQL does.
- The limiter allows more than `limit` hits in a stretch of time one window long when the stretch straddles two buckets. The exact maximum is `2 * limit - 1` (`RateBound`, `RateBoundIsTight`).
- A hit reads the clock before it takes the lock (app/core/rate_limit.py:47-48). Hits are ordered by the lock, so a monotone clock along a run, which the limiter's results require where they say so, is certain only when threads do not compete. `RateErasure` and `RemainingIsExact` hold for every clock.
- `int()` does not skip U+001C to U+001F, although `strip()` removes them, so a timestamp that starts with one is malformed (`StrayStartIsNoInt`).
- AES-GCM authenticates the bytes of the additional data, so absent and empty data are the same to it. `SealBindsAad` says so, and `LawsHoldTogether` shows that the laws asked of the primitives, those that bind the key and detect tampering included, do not contradict each other or such a cipher.
- `from_decimal` first rounds to the 28 digits of the default decimal context. For longer amounts this can change the result (`LongAmountMisrounds`). `FromDecimalIsCorrectExactly` says when it does not.

## Model

| member | source | states |
|---|---|---|
| CircuitBreaking.CircuitBreaker.Enter | app/core/resilience.py:106-116 | entering admits or refuses as the breaker value says, and a refusal changes nothing |
| CircuitBreaking.CircuitBreaker.Leave | app/core/resilience.py:118-144 | success resets, a counted failure may open, an ignored error or a cancellation changes nothing |
| CircuitBreaking.BreakerTracksHistory | app/core/resilience.py:106-144 | after any interleaving: CLOSED iff failures since the last success stay below the threshold, otherwise `_opened_at` is the last counted failure's time, and HALF_OPEN only after the cool-off |
| CircuitBreaking.RefusalIsOutage | app/core/resilience.py:106-144 | a call is refused exactly when the last threshold-many counted calls all failed, the latest less than the reset timeout ago |
| CircuitBreaking.DeclineErasure | app/core/resilience.py:92-144 | removing or inserting calls that never count changes no other admit-or-refuse decision |
| CircuitBreaking.ErasedRunIsLegal | app/core/resilience.py:130-144 | the erased history is itself a legal interleaving, with exactly the surviving calls in flight |
| CircuitBreaking.ErasureChangesInternalState | app/core/resilience.py:108-138 | under every configuration some erasure leaves OPEN where the original run is HALF_OPEN, so the erasure result is not equality of states |
| CircuitBreaking.HalfOpenAdmitsAnyNumberOfProbes | app/core/resilience.py:75-116 | for every configuration and every n some legal run has n + 1 probes in flight in HALF_OPEN |
| CircuitBreaking.SingleTrialExactly | app/core/resilience.py:75-116 | while HALF_OPEN lasts every call that begins is admitted, so at most one probe is in flight throughout iff no caller begins while one is |
| Retry.RetryAsync | app/core/resilience.py:46-69 | between 1 and max_attempts invocations, ending at the first value or non-retryable error or with the last error; each sleep is the jittered delay of its attempt; no attempts means a failed assertion |
| Retry.Stop | app/core/resilience.py:60-67 | the invocation count: every earlier attempt was retryable, and the last one settles or exhausts the attempts |
| Retry.TotalSleepBound | app/core/resilience.py:40-67 | whatever is drawn, total sleep lies between zero and the sum of the delay ceilings of all attempts but the last |
| Retry.BudgetClosedBounds | app/core/resilience.py:42-43 | that sum is at most n times the cap and at most the base delay times the geometric sum of the multiplier, which has its closed form for every multiplier |
| Retry.CeilingGrows | app/core/resilience.py:40-43 | the delay ceiling starts at the base delay and is multiplied with every attempt until it meets the cap |
| Retry.DelaysFillTheRange | app/core/resilience.py:40-43 | the delays that can be drawn are exactly those between zero and the ceiling |
| Gateway.GuardedCall | app/services/gateway_manager.py:96-119 | breaker around retry around the normalised operation: one breaker step, the retried reply or CircuitOpen without invocation, and one jittered sleep between invocations |
| Gateway.GatewayManager.BreakerFor | app/services/gateway_manager.py:83-94 | one breaker per provider, created closed on first use, other entries kept |
| Gateway.GatewayManager.Run | app/services/gateway_manager.py:96-130 | only the provider's breaker moves; the metrics label is `declined` exactly for a ProviderError, `error` exactly for any other Exception |
| Gateway.ProvidersAreIsolated | app/services/gateway_manager.py:83-94 | a provider's breaker is where its own executes alone would have left it |
| Gateway.ExecutesAreARun | app/services/gateway_manager.py:115-119 | executes one at a time are a legal breaker interleaving with the same final state |
| Gateway.DownUsesAllAttempts | app/services/gateway_manager.py:99-113 | while every invocation fails transiently, an admitted execute spends all attempts and counts as one failure |
| Gateway.NoneDuringCoolOff | app/core/resilience.py:106-128 | in an outage, past the threshold, each admitted execute starts a full cool-off after the previous one ended |
| Gateway.OutageOfExecutes | app/services/gateway_manager.py:96-130 | while every invocation of a provider fails transiently, serial executes invoke it exactly max attempts times per admitted execute, and by any time at most max attempts times (threshold plus cool-offs elapsed since the first opening); until that opening exactly threshold executes are admitted |
| GatewayOutcomes.AdmittedExecute | app/services/gateway_manager.py:83-130 | by the outcome of the last invocation, in any breaker state: a value closes the breaker, a ProviderError or a cancellation counts for nothing, any other error is a failure that opens it from HALF_OPEN or at the threshold; the caller gets that outcome, transport faults normalised |
| GatewayOutcomes.RefusedExecute | app/core/resilience.py:106-116 | during the cool-off the operation is not invoked, the caller gets CircuitOpen and the breaker stays as it is |
| GatewayOutcomes.DeclineIsInvokedOnce | app/services/gateway_manager.py:90-113 | a declined operation is invoked once, the caller is told, and a CLOSED breaker does not change |
| GatewayOutcomes.ExecutesFollowHistory | app/services/gateway_manager.py:96-130 | in any serial run an execute reaches the provider iff the outcomes of earlier executes, read without a breaker, are not an outage |
| GatewayOutcomes.DeclinedExecutesErase | app/services/gateway_manager.py:90-91 | declined and cancelled executes can be left out of any serial run, or put into it, without changing whether any other execute reaches the provider |
| GatewayOutcomes.DefaultCeilings | app/services/gateway_manager.py:108-113 | an execute's delays are drawn below 0.2 seconds first, then below twice as much each time, and never above 5 |
| RateLimit.InMemoryRateLimiter.Hit | app/core/rate_limit.py:46-58 | one hit: the key's bucket is reset or counted up, other keys kept, verdict from the new bucket, its numbers in range |
| RateLimit.RateBound | app/core/rate_limit.py:46-58 | any half-open interval one window long lets at most `2 * limit - 1` hits of a key through (none without a positive limit) |
| RateLimit.RateBoundIsTight | app/core/rate_limit.py:46-58 | for every positive limit and window some run reaches that bound |
| RateLimit.BucketsAreSpaced | app/core/rate_limit.py:49-58 | two hits share a bucket with growing counts or their buckets start at least a window apart; a bucket allows exactly its first `limit` hits |
| RateLimit.RemainingIsExact | app/core/rate_limit.py:54-58 | after an allowed hit exactly `remaining` more hits of the key pass inside the window |
| RateLimit.RateErasure | app/core/rate_limit.py:46-58 | erasing any denied hits of a key and any hits of other keys changes no remaining result of the key |
| RateLimit.ErasureIsCleanExactly | app/core/rate_limit.py:46-58 | under a monotone clock, erasure of denied and foreign hits changes no remaining result in any run iff the limit is positive or there is no window |
| RateLimit.WaitIsLeast | app/core/rate_limit.py:55-57 | the key's next hit passes iff it comes no earlier than some moment after the denied one, and `retry_after` is the least whole number of seconds above that, between 1 and window + 1 |
| RateLimit.WaitingIsEnough | app/core/rate_limit.py:55-57 | the key's next hit after `retry_after` passes |
| RateLimit.TruncateDropsTheFraction | app/core/rate_limit.py:56-56 | `int()` of a float drops the fraction toward zero |
| StateMachine.TransitionsDescend | app/domain/state_machine.py:14-41 | terminal states are exactly those without an outgoing edge; every other edge but one self-loop lowers the rank |
| StateMachine.SourcesExactly | app/domain/state_machine.py:14-45 | which states each target can be reached from: authorization from unconfirmed; capture, cancellation and failure before settlement; refunds after a capture |
| Ledger.PaymentService.Create | app/services/payments.py:63-115 | session rows and outcome of a create, rows left behind by a raising create included |
| Ledger.PaymentService.Capture | app/services/payments.py:118-152 | session rows and outcome of a capture |
| Ledger.PaymentService.Cancel | app/services/payments.py:155-174 | session rows and outcome of a cancel |
| Ledger.RefundService.Create | app/services/refunds.py:53-113 | session rows and outcome of a refund: row added, refunded amount raised, status moved |
| LedgerInvariants.EveryRunKeepsTheLedger | app/services/refunds.py:53-101 | in every reachable store, for any replies: refunded is the sum of the payment's refund rows and lies in [0, max(0, captured)]; REFUNDED iff refunded = captured > 0, PARTIALLY_REFUNDED iff 0 < refunded < captured; captured is 0 in AUTHORIZED, CANCELED and FAILED; no REQUIRES_CONFIRMATION; references unique |
| LedgerInvariants.RowsAdvance | app/services/payments.py:118-174 | over every run a payment keeps its identity, its captured amount once it left AUTHORIZED, and everything once terminal |
| LedgerInvariants.OwnersAreIsolated | app/repositories/payments.py:18-22 | requests of other owners never change a payment |
| LedgerInvariants.CapturedWithinAmountExactly | app/services/payments.py:94-142 | every payment has 0 <= captured <= amount iff every committed reply captured between zero and the amount |
| LedgerInvariants.ContractBoundsTheLedger | app/schemas/payment.py:38-57 | with providers that capture between zero and the requested amount, 0 <= refunded <= captured <= amount in every reachable store |
| LedgerInvariants.OvercaptureIsPossible | app/services/payments.py:97-98 | a reply above the amount is stored and can be refunded in full |
| LedgerInvariants.CommitsExactlyWhenAccepted | app/services/payments.py:92-142 | capture, cancel and refund commit iff they reach the provider and it replies; a create iff also the status is a first transition and the reference is free |
| LedgerInvariants.RefundRowsMatchAcceptances | app/services/refunds.py:76-103 | committed refund rows are, one for one and in order, the refunds the provider accepted, settled iff it said so |
| LedgerInvariants.EverySuccessMakesProgress | app/domain/state_machine.py:14-50 | every successful capture, cancel or refund lowers (rank, captured - refunded) lexicographically, never from a terminal state |
| LedgerInvariants.RefundsAreBounded | app/services/refunds.py:68-101 | a payment that captured c units has at most c refund rows |
| LedgerInvariants.LifetimeIsBounded | app/domain/state_machine.py:14-50 | over any run a payment sees at most one successful capture or cancel plus one refund per captured unit |
| LedgerEffects.CreateStoresTheReply | app/services/payments.py:66-115 | a committed create adds exactly the requested row with the reply's reference and status, the captured amount only for a capture, the failure reason only for a charge that did not succeed; the row is the answer |
| LedgerEffects.CreateDecidesWhatFollows | app/services/payments.py:94-157 | after a create, capture and cancel are accepted iff the reply was AUTHORIZED, a capture in the payment's currency and up to its amount, and a refund iff the reply was CAPTURED and covers it |
| LedgerEffects.CaptureStoresTheAmount | app/services/payments.py:127-152 | a committed capture stores the amount the provider reports, or the requested one when it reports none, in that row only |
| LedgerEffects.CaptureDecidesWhatFollows | app/services/payments.py:118-157 | after a capture, a refund without amount is accepted iff something was captured and is for exactly that; another capture or a cancel is refused |
| LedgerEffects.CancelStoresTheStatus | app/services/payments.py:155-174 | a committed cancel changes the status of one row to CANCELED and nothing else |
| LedgerEffects.CancelIsFinal | app/domain/state_machine.py:31-41 | over any later run a canceled payment stays as it is and no request on it succeeds |
| LedgerEffects.RefundStoresTheRow | app/services/refunds.py:62-113 | a committed refund adds exactly the row requested, settled iff the provider says so, and raises the refunded amount by it |
| LedgerEffects.CreateRefusedExactly | app/services/payments.py:63-95 | each error of a create has its exact condition, and a refused create leaves no trace |
| LedgerEffects.OthersRefusedExactly | app/services/refunds.py:53-82 | each error of a capture, cancel or refund has its exact condition, in the order of the checks; somebody else's payment is as good as missing |
| RefundBatches.BatchAcceptedExactly | app/services/refunds.py:56-101 | a batch of positive refunds, with any reasons and replies, is accepted in full iff its sum fits the refundable balance; the payment then depends on the sum alone |
| RefundBatches.BatchOrderDoesNotMatter | app/services/refunds.py:56-101 | a permuted batch, with any reasons and replies, is accepted alike and leaves the same payment |
| RefundBatches.FullRefundSettles | app/services/refunds.py:62-101 | a refund without amount on a positive balance ends REFUNDED with nothing left |
| Idempotency.IdempotencyService.Lookup | app/services/idempotency.py:37-48 | nothing for a free key, the stored response for the same hash, a conflict otherwise |
| Idempotency.IdempotencyService.Save | app/services/idempotency.py:50-68 | inserts the key row unless the key exists |
| Idempotency.Api.Serve | app/api/v1/payments.py:46-80 | lookup, execute and store in one session, committed as a whole or dropped |
| Idempotency.Api.Dispatch | app/api/v1/refunds.py:49-54 | the service call of each endpoint on the request's session |
| Idempotency.KeysCoincideExactly | app/db/models/idempotency.py:26-26 | two requests share a key iff they share owner, endpoint and a header that is present |
| Idempotency.BodiesCoincideExactly | app/services/idempotency.py:28-30 | under an injective hash two requests share a body hash iff provider, amount, capture method and details, or payment, amount and reason, are the same |
| ReplayErasure.KeyRowsExactly | app/services/idempotency.py:37-68 | after any run a key row exists iff an earlier request of the same owner, endpoint and header succeeded |
| ReplayErasure.RequestsAreAnsweredExactly | app/api/v1/payments.py:46-80 | after any run, a request whose key an earlier success claimed gets that answer, or a conflict for another body, and changes nothing; every other request, another owner's or another endpoint's included, is performed |
| ReplayErasure.RepeatReturnsFirst | app/services/idempotency.py:37-48 | a repeat of an answered keyed request returns the first answer and changes nothing, whatever came between |
| ReplayErasure.RepeatsAndFailuresCanBeErased | app/api/v1/payments.py:56-80 | deleting any repeats and any failed requests from a serial run leaves all rows and all other answers unchanged, so a failed first attempt leaves its key free |
| ReplayErasure.AtMostOneExecution | app/services/idempotency.py:40-48 | after a success under a key, no request with that key changes the store |
| ReplayErasure.ConflictExactly | app/services/idempotency.py:43-47 | with an injective hash a used key conflicts iff the body differs, and changes nothing |
| ReplayErasure.RequestsRefineTheLedger | app/api/v1/refunds.py:42-61 | keyed runs move the rows exactly as the executed operations do, so the ledger invariant holds |
| KeyedCreates.InterleavingsAreSerialisable | app/api/v1/payments.py:54-80 | every interleaving commits exactly the rows of handling the committed requests one at a time in commit order |
| KeyedCreates.AtMostOnePaymentPerKey | app/db/models/idempotency.py:26-26 | at most one payment is ever committed per owner, endpoint and key |
| KeyedCreates.LosersLeaveNoRow | app/api/deps.py:59-69 | a payment row exists iff its transaction was told it created it |
| KeyedCreates.SuccessfulAnswersAgree | app/services/idempotency.py:37-68 | all successful answers under one key are the same answer, for bodies of one hash |
| KeyedCreates.FlushedCannotLose | app/services/idempotency.py:67-68 | a flushed transaction can always commit |
| KeyedCreates.FlushDependsOnRivalsExactly | app/services/idempotency.py:67-68 | on any schedule a flush waits iff another open transaction has flushed the same key or reference, and fails iff a committed one has it; requests with other keys and references never hinder it |
| KeyedCreates.EveryRequestCanBeAnswered | app/api/v1/payments.py:54-80 | no deadlock: from any point of any schedule every transaction that was not given up can still be answered, with none given up for it |
| KeyedCreates.GivingUpLeavesNoTrace | app/api/deps.py:59-69 | a transaction that is rolled back changes no committed row, then or later |
| KeyedCreates.GivingUpFreesItsClaims | app/api/deps.py:59-69 | after a rollback another flush waits iff a third transaction holds what it claims |
| KeyedCreates.CapturesDoNotWait | app/services/payments.py:118-152 | a committed payment can be captured whatever creates are open, and neither it nor they hinder each other |
| KeyedCreates.ChargeableExactlyWhileKeyIsFree | app/api/v1/payments.py:56-79 | in every world, a started create that its service accepts can still be charged iff its key is not committed |
| KeyedCreates.LateRetryNeverCharges | app/api/v1/payments.py:56-59 | a retry whose lookup follows the first commit never reaches the provider, on any schedule |
| KeyedCreates.OverlappingRetriesBothCharge | app/api/v1/payments.py:56-79 | any two acceptable creates under one key can overlap so that both are charged and one is lost |
| KeyedAnswers.AnswersLineariseExactly | app/api/v1/payments.py:54-80 | every answer of a create is that of handling it in one piece at some moment between its start and the answer, on the rows committed by then, iff it did not lose to a commit that took its key before its reference; a loser's retry is answered from the key's row |
| KeyedAnswers.LoserHasNoSerialAnswer | app/services/idempotency.py:67-68 | any two acceptable creates under one key can overlap so that the loser's answer is that of no serial moment |
| Text.IntRoundTrip | app/security/signatures.py:30-40 | every integer is read back from its decimal form, with any blanks `int()` skips around it |
| Text.ParseIntExactly | app/security/signatures.py:38-41 | a text is read as an integer iff it is blanks, at most one sign, digits with single underscores between them, and blanks, and then has their decimal value |
| Text.PrintIsCanonical | app/security/signatures.py:22-30 | an integer prints as base-ten digits without leading zeros, with a minus iff negative |
| Text.StrayStartIsNoInt | app/security/signatures.py:38-41 | text that starts with an ASCII character other than a blank `int()` skips, a sign or a digit is no timestamp |
| Text.AsciiStartExactly | app/security/signatures.py:38-41 | in front of a printed number exactly the ASCII blanks but U+001C to U+001F, the digits and the signs give an integer |
| Signatures.ParseHeader | app/security/signatures.py:33-47 | the loop computes the scan of the header's parts |
| Signatures.HeaderParsesToEntries | app/security/signatures.py:33-47 | a header of any entries, parts without an equals sign included, parses to its last timestamp and all v1 values in order; it is invalid when either is missing or a timestamp is no integer |
| Signatures.EveryHeaderHasEntries | app/security/signatures.py:36-44 | every string is the header of some list of entries, so the result above covers all input |
| Signatures.SignedHeaderRoundTrip | app/security/signatures.py:26-47 | a signed header parses to exactly its timestamp and its one digest |
| Signatures.SignedVerifiesWithinTolerance | app/security/signatures.py:50-75 | a signed body verifies iff the clock is within the tolerance, and is a replay otherwise |
| Signatures.VerifyAcceptsExactly | app/security/signatures.py:64-75 | acceptance iff complete header, timestamp in tolerance, and a v1 value reached that is the keyed hash of timestamp, dot and body |
| Signatures.VerifyRefusesExactly | app/security/signatures.py:64-75 | a replay iff the header is complete and its timestamp outside the tolerance; a failed comparison iff a v1 value outside ASCII is reached; an incomplete header is invalid |
| Signatures.DigestIsAcceptedExactly | app/security/signatures.py:64-75 | a digest made for one secret, timestamp and body is accepted for others iff the clock is in tolerance and the keyed hash of both is the same |
| Signatures.SignatureBinds | app/security/signatures.py:21-75 | without a collision a signature is accepted for exactly the secret, timestamp and body it was made for |
| Signatures.PayloadIsInjective | app/security/signatures.py:21-23 | different timestamps or bodies are never signed as the same bytes |
| Signatures.PayloadReadsBack | app/security/signatures.py:22-22 | the signed bytes are the timestamp in decimal up to the first dot, then the body |
| Crypto.CheckBox | app/security/crypto.py:43-48 | the box is accepted iff the active key exists and every key has 32 bytes |
| Crypto.DecryptToken | app/security/crypto.py:70-89 | the offset walk computes the parse-and-open of the token, and DecryptionError is the only error |
| Crypto.FrameRoundTrip | app/security/crypto.py:65-81 | parsing a frame recovers key id, nonce and ciphertext |
| Crypto.FramingIsInjective | app/security/crypto.py:65-67 | different contents never share a frame |
| Crypto.ParsesExactly | app/security/crypto.py:73-81 | a blob parses iff it has a length byte after version 1, and is the frame of what it parses to if it holds a whole nonce |
| Crypto.TokenCarries | app/security/crypto.py:61-68 | a token decodes to version, length, active key id, the fresh nonce and a ciphertext that opens under the active key with that nonce; encryption fails iff the key id is longer than its length byte allows |
| Crypto.EqualTokensExactly | app/security/crypto.py:54-68 | two tokens are equal iff key id, nonce, text and additional data are |
| Crypto.OpensExactly | app/security/crypto.py:70-89 | a token opens to a text iff it has the bytes one of the box's keys makes of that text and additional data with some nonce |
| Crypto.TokenInAnotherBox | app/security/crypto.py:82-89 | in any box that holds its key under its id a token opens with the same additional data and, if the cipher authenticates the additional bytes, with no other; without the id, or with another key under it, it fails |
| Crypto.AadIsBound | app/security/crypto.py:54-64 | a token opens iff the additional data is the same, none and empty being the same |
| Crypto.RotationKeepsTokens | app/security/crypto.py:8-12 | a token made at any point still opens after any key additions and active-key changes |
| Crypto.ActivatedKeySeals | app/security/crypto.py:8-12 | a key that is added and activated seals new tokens: its holder alone opens them, the box from before does not |
| Money.RoundingIsNearestEven | app/core/money.py:75-75 | the rounding is the only one within a half with ties to even |
| Money.FromDecimalRoundsToNearest | app/core/money.py:70-76 | up to 28 digits and under any spelling of the code: success iff the result has at most 28 digits, and then the nearest number of minor units, ties to even |
| Money.FromDecimalIsMonotone | app/core/money.py:70-76 | at any length, a larger amount never becomes fewer minor units |
| Money.FromDecimalIsOdd | app/core/money.py:70-76 | at any length, the opposite amount becomes the opposite number or fails alike |
| Money.FromDecimalIsCorrectExactly | app/core/money.py:73-76 | for amounts of any length: correctly rounded iff the context does not first round onto a half beside the amount |
| Money.FromDecimalAcceptsExactly | app/core/money.py:73-76 | at any length: success iff the correctly rounded number of minor units has at most 28 digits |
| Money.ContextFacts | app/core/money.py:75-75 | the 28-digit context keeps a short value and rounds a long one, ties to even, to the grid on which it has 28 digits |
| Money.CurrencyIgnoresCaseExactly | app/core/money.py:45-60 | an amount is unsupported iff its currency spells no registered code in any case; otherwise it carries that code |
| Money.OneMajorUnit | app/core/money.py:18-32 | minor units in one major unit of every registered code |
| Money.LongAmountMisrounds | app/core/money.py:75-75 | a 29-digit amount just below 1.5 yen becomes 2 yen |
| Money.DecimalRoundTrip | app/core/money.py:70-83 | exactly the amounts of at most 28 digits have a decimal form, and they survive `to_decimal` and `from_decimal` under any spelling of the code |
| Money.ToDecimalIsExact | app/core/money.py:79-83 | the decimal form is the number of minor units with the currency's decimal places |

## Left out

- Interleaved refunds and captures of one payment: the source takes no lock and keeps no version, so ledger results are stated for serial runs.
- Provider adapters: a provider is an arbitrary reply, or one bound by a stated contract.
- SHA-256, HMAC, AES-GCM, UTF-8 and base64 internals: parameters with the laws each result names; `SealBindsAad` and `SealBindsKey` idealise authentication as certain failure under other additional bytes or another key.
- Audit rows and metric counters, except the outcome label of `execute`.
- Routing, schemas, authentication, scopes, webhook deduplication, listing and pagination: these parts hold no further property of their own.
- Object identity of rows: a row is a value in the session's tables, so aliasing of mapped objects is not captured; the update order inside a service is.
- Floating point: times and delays are `real`, so rounding of clock differences is not captured.
- Text.ParseInt: does not model digits outside ASCII nor the interpreter's limit on the number of digits.
- Money addition, subtraction and comparison: integer operations behind one comparison of currency codes.
- Money.Upper: does not model `upper()` outside ASCII.
- Money.FromDecimal: does not model the exponent limits of the decimal context.
- Answers are given at the end of the unit of work; whether the framework sends the response before or after the commit is not modelled.
- Crypto.Rotate: does not model replacing the key stored under an existing id; such a change is not made.
