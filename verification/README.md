# Verification of the text-to-speech platform

The platform turns text into audio, delivers it over HTTP or a WebSocket against a prepaid wallet,
and settles the bill behind the delivery. This project models the parts of it that keep promises
across many steps, and proves those promises for every input, every run or every reachable state.

| File | What it models |
|---|---|
| `Billing`, `Delivery`, `Metering` | the per-request coalescer, the chunk callbacks of the HTTP handlers, the metering consumer |
| `MoneyPipeline` | requests, bus, any number of consumers and wallets as one transition system; each step is one callback, one bus event or one database statement, and each may fail |
| `MoneyConservation`, `MoneySafety`, `MoneyBudget`, `MoneyOpening`, `MoneyWallet` | invariants and theorems of every run of that system |
| `MoneyFlush` | the flush of the consumer object, as a run of that system |
| `MoneyOlderRow` | one run of it, in which a refresh returns a wallet row from before the admission's |
| `Wallet`, `Redelivery`, `FlushOrder` | the wallet column under debits; what repeated delivery and the order of a flush change |
| `WalletCache` | the two-tier balance cache of any number of gateways |
| `RateLimiter`, `LimitStore` | the three nested windows and the cached overrides |
| `PyText`, `TokenText`, `Snac`, `HandOff` | token strings, codes, frames and windows, and the bounded queue between decoder and response |
| `LongText`, `Batching`, `Crossfade`, `Decoder`, `Pcm16` | sentences, batches, crossfades and the chunked stream |
| `PcmRing` | the playback ring of the web client |
| `LiveFraming` | live utterances on both sides of the connection |
| `Sums`, `Seqs`, `Arithmetic`, `Decimal`, `Wrappers` | sums over sequences, parts of sequences, quotients, numerals, options |

Methods carry the source's loops and updates; each is proved equal to a specification function, the
transition systems are built from the same functions, and the theorems are about those.

Conventions. Seconds and USD are exact reals, clock readings are integers. A statement or Redis
command that reports an error may still have been applied, and one that reports success may have
done nothing where the caller ignores its result; both are parameters of the step. Prices are fixed
per user and not negative, and the bus delivers a message at most once (README.md:193).

## What is proved, in short

* **Conservation.** In every run, whatever fails, each delivered second is in exactly one place, and
  each published event in exactly one too. Without lost events the ledger ends up complete.
* **Never overcharge.** Transactions, settled debits, usage rows and delivered audio bound each other
  in that order. This needs at-most-once delivery: the ledger ignores a repeated event but the wallet
  debit does not, and `Redelivery` proves that a debit that goes through asks for exactly what it
  records if and only if every event's key is new. A debit with a failing statement charges nothing.
* **Over-delivery.** Refreshes may return any row there has been. A stream stays strictly below the
  balance of the oldest row it was ever given plus the largest cost that was delivered but not in the
  row a refresh returned. With the opening balance in place of that row's, the bound fails at some
  moment of a run if and only if, after a refresh that returned a row older than the admission's and
  before the next refresh, chunks that cost at least the opening balance were delivered
  (`EverPastIff`); chunks sent after an older row get there if and only if the sum of some first of
  them is at least the opening balance and below that row's (`PastOpeningIff`). `MoneyOlderRow` and
  `RefreshGoesBack` are runs in which it happens. An async job stays within its opening balance.
  Between refreshes a request delivers the longest first part of its chunks that its budget affords.
* **Wallets** are their opening balance less what was settled, cut at zero, however debits are grouped
  or ordered. For an isolated wallet this holds if and only if it opens at zero or above or is debited
  at least once.
* **Keys** are distinct for all request ids, also for ids containing ':', since the last ':' is the
  separator's.
* **Caches** are as stale as their lifetimes add up to and no staler. Over every sequence of calls,
  all answers of the limits store are the current row or the defaults if and only if every call that
  changes a row also changes its cache entry, or meets no live entry, or one that already holds the
  new limits; a working Redis whose statements report what they did is enough, and not needed
  (`UncertainStatementGoesStale`, `UncertainStatementOnNoEntry`).
* **Rate limits** hold in every bucket and, at twice the limit, in every interval of a window's length;
  a request is allowed if and only if all attempts of its buckets, also rejected ones, are within limits.
* **Codec.** Frames, tokens and chunks round-trip for all positive codes; a printed stream survives if
  and only if no code is 0. The streaming decoder hands on exactly the aligned windows of the offline
  codebooks, and its output is the offline audio, each sample once. A window is skipped if and only
  if a code exceeds 4096 and none is 2^31 or more; the stream ends by an error if and only if it
  fills a window and some code is, or the neural decoder raises on a window. Tokens survive being cut
  into chunks if and only if no boundary runs through a token's text. The queue neither loses nor
  reorders, no reachable state is stuck, and every run ends.
* **Long text.** The cut into sentences is the only one of its kind, no visible character is lost,
  greedy batching is optimal. Decoded batches are always stitched, to no less than any of them;
  stitching does not depend on the bracketing when inner segments hold two fades and outer ones one.
* **Ring and framing.** Play-out is first in, first out; it is complete if and only if no message
  overflowed the ring. Live output parses in one way, and every final message gets one `utterance_done`.

## Model

| member | source | states |
|---|---|---|
| Billing.KeyIsInjective | api/internal/billing/coalescer.go:72 | two idempotency keys are equal exactly when request and number are, for every request id |
| Billing.KeysAreDistinct | api/internal/billing/coalescer.go:38-74 | events of any two coalescer runs share a key only if they are the same event of the same request |
| Billing.PublishRate | api/internal/billing/coalescer.go:38-65 | AddPCM publishes at most once per interval since the first AddPCM, and a run at most once more per Flush call |
| Billing.AddPublishesIff | api/internal/billing/coalescer.go:38-55 | AddPCM publishes exactly when audio has come in for an interval since the last publication, or else since the first audio; the event is stamped then and leaves nothing in the window |
| Billing.WindowIsYoung | api/internal/billing/coalescer.go:44-53 | audio still in the window came in less than an interval after the window was started |
| Billing.SecondsArePublished | api/internal/billing/coalescer.go:38-74 | over every run of calls, events and open window hold the added seconds; after a Flush the events alone do |
| Billing.OneSecond | api/internal/billing/event.go:62-68 | twice the rate in bytes is one second, and a rate that is not given is 24 kHz |
| Billing.SecondsAddUp | api/internal/billing/event.go:62-68 | seconds add up over samples, and an odd last byte is none |
| Billing.OneMinute | api/internal/billing/event.go:55-60 | a minute costs the price of a minute |
| Billing.AddAccounts | api/internal/billing/coalescer.go:38-55 | seconds are kept between window and event; an event is positive and carries the next key |
| Billing.FlushAccounts | api/internal/billing/coalescer.go:57-74 | the same for Flush, which leaves the window empty |
| Billing.Coalescer.AddPCM | api/internal/billing/coalescer.go:38-55 | the windows map and counter change as the accounted value does |
| Billing.Coalescer.Flush | api/internal/billing/coalescer.go:57-65 | the same for the final flush |
| Billing.Coalescer.FlushLocked | api/internal/billing/coalescer.go:67-74 | empties the window, restarts its clock and publishes its seconds under the next number |
| Delivery.HttpDelivery.OnChunk | api/internal/handler/server.go:445-471 | charge, write, bill, then refresh when due, with the early returns of both handlers (the async callback is lines 328-343) |
| Delivery.HttpDelivery.Finish | api/internal/handler/server.go:472 | the flush after the copy loop |
| Delivery.DeliversWhatItAffords | api/internal/handler/server.go:328-343 | an admitted request delivers the longest first part of its chunks that its balance affords, and is open exactly while it affords all: a job to the last cent, a stream staying below it |
| Delivery.RefusedIsNotBilled | api/internal/handler/server.go:445-461 | a chunk that is refused or cannot be written is neither delivered nor billed, any other one is both |
| Delivery.FailedRefreshEnds | api/internal/handler/server.go:464-467 | after a refresh that fails the next chunk ends the stream undelivered |
| Metering.FixedPrice | metering/internal/consumer/consumer.go:138-159 | while the price is fixed a lookup yields it, and it fails exactly when the query does and no usable snapshot is cached |
| Metering.FailedDebitChargesNothing | metering/internal/consumer/consumer.go:103-120 | a debit with a failing lookup or insert leaves wallets, transactions and settled rows alone and reports it |
| Metering.DebitCharges | metering/internal/consumer/consumer.go:103-136 | one that gets through charges one row per event at the price found: the wallet once, cut at zero, and one transaction, if the total is positive; it fails exactly when the update does |
| Metering.OfUserConcat | metering/internal/consumer/consumer.go:61-70 | sorting events by user keeps the order of each user's |
| Metering.Consumer.OnMessage | metering/internal/consumer/consumer.go:61-70 | the pending map holds each user's events in order of arrival |
| Metering.Consumer.Flush | metering/internal/consumer/consumer.go:87-101 | swaps the map out and debits every user in it once, in some order |
| Metering.Consumer.DebitUser | metering/internal/consumer/consumer.go:103-136 | rows, wallet, transaction and error result under every pattern of failures |
| Metering.Consumer.SettleUser | metering/internal/consumer/consumer.go:121-135 | the wallet update and the transaction, each of which may fail |
| FlushOrder.FlushIsPerUser | metering/internal/consumer/consumer.go:93-100 | after a flush a wallet is what debiting its user alone would have left |
| FlushOrder.WalletsIgnoreOrder | metering/internal/consumer/consumer.go:93-100 | the order of the map does not matter to any wallet |
| MoneyFlush.FlushIsSteps | metering/internal/consumer/consumer.go:87-136 | in every reachable state, the pipeline's swap, begin, insert and settle steps leave the ledger that Consumer.Flush leaves, and the consumer empty-handed |
| MoneyConservation.NoConflict | metering/internal/consumer/consumer.go:112-116 | under at-most-once delivery an insert never meets its own key |
| MoneyConservation.AlwaysTraced | metering/internal/consumer/consumer.go:61-101 | in every run each published event is in exactly one place, and keys are distinct |
| MoneyConservation.Conservation | api/internal/billing/coalescer.go:38-74 | delivered seconds = window + bus + pending maps + batches + debits under way + usage rows + dropped, in every run, for any number of consumers |
| MoneyConservation.NothingDropped | metering/internal/consumer/consumer.go:94-99 | a run in which no step loses an event drops none |
| MoneyConservation.LedgerIsComplete | api/internal/handler/server.go:445-472 | after the final flush and with drained consumers the usage rows hold every written chunk |
| MoneySafety.AlwaysCharged | metering/internal/consumer/consumer.go:103-136 | in every run rows carry the user's price and no row is settled twice or without being in the ledger |
| MoneySafety.NeverOvercharge | metering/internal/consumer/consumer.go:103-136 | transactions <= settled debits <= usage rows <= price of delivered audio, per user, in every run |
| MoneySafety.RecordedWithinDelivered | metering/internal/consumer/consumer.go:112-116 | the ledger holds no more of a request than was delivered to it |
| MoneyBudget.AlwaysBounded | api/internal/handler/server.go:438-471 | the invariant that ties budget, delivered cost, oldest row given, slack and every wallet version, whatever rows refreshes return |
| MoneyBudget.OverDeliveryBound | api/internal/handler/server.go:445-471 | delivered cost is below the balance of the oldest row given plus slack for a stream, within the opening balance for an async job |
| MoneyOpening.OldestIffOlderRow | api/internal/cache/wallet.go:119-123 | the oldest row given is older than the admission's exactly when some refresh returned such a row |
| MoneyOpening.OpeningBound | api/internal/handler/server.go:445-471 | without such a refresh, delivered cost is below opening balance plus slack |
| MoneyOpening.EverPastIff | api/internal/handler/server.go:445-471 | a run finds a stream at or past opening balance plus slack exactly when, between a refresh with such a row and the next refresh, chunks of at least the opening balance were delivered |
| MoneyOpening.PastOpeningIff | api/internal/handler/server.go:447-467 | after an older row, any sequence of chunks passes opening balance plus slack exactly when the sum of some first of them is at least the opening balance and below that row's balance |
| MoneyOlderRow.OlderRowGoesPast | api/internal/handler/server.go:438-471 | a run admitted on one dollar, given an older row of ten, delivers five |
| MoneyOlderRow.SmallChunksGoPast | api/internal/handler/server.go:438-471 | with two chunks of sixty cents it passes the dollar as well |
| MoneyWallet.UndebitedIsUnsettled | api/internal/handler/server.go:464-467 | what a refresh on the current row adds to the slack is the audio in flight or dropped plus unsettled rows |
| MoneyWallet.WalletIsExact | metering/internal/consumer/consumer.go:124-126 | in every run a wallet is its opening balance less what was settled, cut at zero |
| Wallet.ClampedOnce | metering/internal/consumer/consumer.go:124-126 | clamping each debit is clamping once, exactly when the wallet opens nonnegative or is debited at all |
| Wallet.OrderDoesNotMatter | metering/internal/consumer/consumer.go:124-126 | reordering debits leaves the same balance |
| Wallet.BatchingDoesNotMatter | metering/internal/consumer/consumer.go:121-126 | grouping costs into batches, with free batches skipped, leaves the same balance |
| Wallet.RoundingDrift | api/internal/db/migrations/001_initial.up.sql:25 | stored at six decimals, m debits are off by at most m half-micros |
| Redelivery.ChargedOnceIffFresh | metering/internal/consumer/consumer.go:103-126 | whatever fails, a debit never asks for less than it adds to the ledger; one that goes through asks for exactly that if and only if all its keys are new |
| Redelivery.RedeliveryChargesTwice | metering/internal/consumer/consumer.go:103-136 | one event delivered twice: one row, two charges |
| WalletCache.WalletCache.LoadL2OrDB | api/internal/cache/wallet.go:57-74 | the second tier or the row; what it returns is at most 45 seconds old |
| WalletCache.WalletCache.Get | api/internal/cache/wallet.go:94-104 | result and both tiers; a balance and price that were the row in the last 90 seconds, at every gateway and whatever Redis does |
| WalletCache.WalletCache.HasBalance | api/internal/cache/wallet.go:111-117 | admission on such a balance, if positive, with the tiers it leaves |
| WalletCache.WalletCache.Invalidate | api/internal/cache/wallet.go:106-109 | removes the asking gateway's first-tier entry, and the second's if the delete works |
| WalletCache.WalletCache.Refresh | api/internal/cache/wallet.go:119-123 | the current row unless the delete failed and its entry survives, and then one of the last 45 seconds |
| WalletCache.WalletCache.DropByConsumer | metering/internal/consumer/consumer.go:134 | the consumer's delete keeps the cache dated |
| WalletCache.StalenessIsReached | api/internal/cache/wallet.go:17-74 | a run over two gateways in which Get returns a row 89.999 seconds old |
| WalletCache.RefreshGoesBack | api/internal/cache/wallet.go:57-123 | a run in which a refresh returns a row older than the one admission was given |
| RateLimiter.Limiter.Allow | api/internal/ratelimit/ratelimit.go:26-67 | counters and verdict, also when the pipeline stops half-way |
| RateLimiter.CountersAreFaithful | api/internal/ratelimit/ratelimit.go:42-49 | until its bucket ends, a counter holds exactly the increments made, so none expires inside its bucket |
| RateLimiter.AllowedIffWithinLimits | api/internal/ratelimit/ratelimit.go:53-66 | a request is allowed exactly when every window's attempts, this one included, are within its limits |
| RateLimiter.RejectedIffOverLimit | api/internal/ratelimit/ratelimit.go:53-66 | a rejection names the first window over its limit, with that window's waiting time, exactly when there is one; a call fails exactly when a reply is missing |
| RateLimiter.WindowSafety | api/internal/ratelimit/ratelimit.go:53-66 | allowed requests of a bucket never exceed the limit in force at the last one allowed |
| RateLimiter.IntervalSafety | api/internal/ratelimit/ratelimit.go:32-45 | any interval of a window's length admits at most twice a fixed limit |
| RateLimiter.RetryLandsInFreshBucket | api/internal/ratelimit/ratelimit.go:58-63 | waiting the returned time lands in a later bucket of the window that rejected, and for minutes in the next |
| LimitStore.AnswersAgreeIff | api/internal/ratelimit/store.go:45-117 | over every sequence of calls, all answers at all times are the current row or the defaults exactly when every call keeps agreement |
| LimitStore.CoherentIffKeeps | api/internal/ratelimit/store.go:74-106 | a call leaves a coherent cache coherent exactly when the row does not change, the entry changes with it, or no live entry holds other limits |
| LimitStore.CertainCallsKeep | api/internal/ratelimit/store.go:74-117 | calls whose Redis commands work and whose statements report what they did keep agreement |
| LimitStore.ErrorIff | api/internal/ratelimit/store.go:45-72 | an error is answered exactly when Redis cannot be asked, or the table must be and cannot |
| LimitStore.DefaultsWithoutOverride | api/internal/ratelimit/store.go:67-71 | a user without an override is answered the defaults after every run that keeps agreement |
| LimitStore.SetIsAnswered | api/internal/ratelimit/store.go:74-93 | an override set without an error is answered from then on |
| LimitStore.ClearIsForgotten | api/internal/ratelimit/store.go:95-106 | a cleared one is not |
| LimitStore.ReadFillsCache | api/internal/ratelimit/store.go:59-66 | an override read from the table is answered from Redis for five minutes |
| LimitStore.LimitStore.Effective | api/internal/ratelimit/store.go:45-72 | the answer and the cache afterwards; agrees with the table under a coherent cache, and otherwise answers an override of the last five minutes |
| LimitStore.LimitStore.SetOverride | api/internal/ratelimit/store.go:74-93 | row, cache entry and result; the exact condition under which the cache stays coherent |
| LimitStore.LimitStore.ClearOverride | api/internal/ratelimit/store.go:95-106 | the same for removal |
| LimitStore.LimitStore.Cache | api/internal/ratelimit/store.go:108-117 | stores a positive entry dated by the moment it was effective |
| LimitStore.UncertainStatementGoesStale | api/internal/ratelimit/store.go:81-92 | with Redis working and a live entry, an override applied with an error is not answered |
| LimitStore.UncertainStatementOnNoEntry | api/internal/ratelimit/store.go:45-92 | with no entry, it is |
| TokenText.CutChunk | inference/backends/llamacpp.py:135-138 | the tokens of one chunk |
| TokenText.TokenGenerator | inference/backends/llamacpp.py:122-140 | the tokens of the chunks up to the end marker |
| TokenText.OtherLinesDoNotMatter | inference/backends/llamacpp.py:122-140 | the output is that of the text lines before the end marker, whatever stands between or after them |
| TokenText.SplitInvertsJoin | inference/backends/llamacpp.py:135-138 | a chunk of whole tokens is cut back into those tokens |
| TokenText.GroupingDoesNotMatter | inference/backends/llamacpp.py:122-140 | whole tokens come out one by one however they are grouped into chunks |
| TokenText.TokensSurviveIff | inference/backends/llamacpp.py:122-140 | however their text is cut into chunks, whole tokens come out one by one exactly when every boundary falls at the end of a token or right before its '>' |
| TokenText.CutsCost | inference/backends/llamacpp.py:135-138 | cutting any text into chunks never gives fewer tokens, and the same ones exactly when all cuts are clean |
| TokenText.ParseInvertsPrint | inference/pipeline/speechpipe.py:107-127 | parsing inverts printing for every code and position |
| TokenText.ParseIgnoresAround | inference/pipeline/speechpipe.py:113-123 | also with any text before the token and white space after it |
| TokenText.NoPrefixNoCode | inference/pipeline/speechpipe.py:111-112 | a string in which the prefix does not occur is no token |
| TokenText.UnclosedNoCode | inference/pipeline/speechpipe.py:113-119 | nor is one that does not end with '>' |
| TokenText.TokenIds.TurnTokenIntoId | inference/pipeline/speechpipe.py:107-127 | the cache never shows in a result, holds what was parsed while there is room, is only added to and keeps to its size |
| Snac.DeinterleaveInvertsInterleave | inference/pipeline/speechpipe.py:65-75 | three codebooks survive interleaving |
| Snac.InterleaveInvertsDeinterleave | inference/pipeline/speechpipe.py:65-75 | whole frames survive de-interleaving |
| Snac.RangeOfCodebooks | inference/pipeline/speechpipe.py:77-86 | the range check on codebooks is a check of every code |
| Snac.TokensDecoder | inference/pipeline/speechpipe.py:130-153 | the decoder loop yields the streamed audio of the accepted codes, and raises when that ends by an error |
| Snac.StreamedIsWindows | inference/pipeline/speechpipe.py:138-153 | that audio is the aligned windows in order, then the unaligned tail, up to one that raises |
| Snac.SkippedIffTooLarge | inference/pipeline/speechpipe.py:69-95 | a window raises exactly when a code is 2^31 or more or the neural decoder raises on it, and is silent exactly when no code is but one exceeds 4096 |
| Snac.FirstRaiseEnds | inference/pipeline/speechpipe.py:143-147 | the first window that raises ends the output with what came before it |
| Snac.LoopRaisesIff | inference/pipeline/speechpipe.py:138-147 | the loop raises exactly when a whole frame of a stream that fills a window holds a code of 2^31 or more, or the neural decoder raises on a window |
| Snac.StreamRaisesIff | inference/pipeline/speechpipe.py:138-153 | with the flush, exactly when any kept code of such a stream is 2^31 or more, or the neural decoder raises on a window |
| Snac.WindowIsOffline | inference/pipeline/speechpipe.py:143-145 | window k is frames k to k+3 of the codebooks of the whole stream |
| Snac.SamplesOnce | inference/pipeline/speechpipe.py:94-96 | each decoded sample of frames 1 to n-3 of the offline audio is in the yielded chunk of exactly one window, at its place, and no other sample in any |
| Snac.StreamIsOfflineAudio | inference/pipeline/speechpipe.py:94-147 | for a decoder whose second frame of four depends on the four, the in-loop output end to end is the offline audio without its first frame and its last two |
| Snac.SurvivesIffPositive | inference/pipeline/speechpipe.py:139-142 | printed codes are accepted back exactly when none is 0 |
| Snac.CodecRoundTrip | inference/pipeline/speechpipe.py:65-147 | interleave, print, chunk, cut, parse and de-interleave returns the codebooks |
| Snac.CodecSurvivesCleanCuts | inference/pipeline/speechpipe.py:65-147 | the same for chunks cut in any way that does not run through a token's text |
| HandOff.BatchTokens | inference/pipeline/speechpipe.py:163-172 | token batching passes every token on in order; a raising source loses only the batch being collected |
| HandOff.HandOffIsFaithful | inference/pipeline/speechpipe.py:174-194 | the consumer gets a prefix of the non-empty chunks, at the end all but those a raise kept the producer from being given, within the queue's bound |
| HandOff.NoDeadlock | inference/pipeline/speechpipe.py:174-194 | before the end some step other than raising is possible |
| HandOff.EveryRunEnds | inference/pipeline/speechpipe.py:174-194 | runs are bounded, and one that cannot go on except by raising has finished, with every chunk if nothing raised |
| HandOff.RaisedIsPrefix | inference/pipeline/speechpipe.py:138-147 | what a cut-off source yields is a prefix of what the whole one yields |
| LongText.CutIsCut | inference/pipeline/long_text.py:12-19 | pieces cover the text, end sentences, and none ends one earlier |
| LongText.CutIsUnique | inference/pipeline/long_text.py:12-19 | there is one way of being cut so |
| LongText.SentenceIsCutOff | inference/pipeline/long_text.py:12-19 | a sentence with a mark and a gap behind it is cut off, and the rest is cut by itself |
| LongText.InitialIsNotCutOff | inference/pipeline/long_text.py:14-18 | nothing is cut off after an initial, an ellipsis or a lone mark |
| LongText.PartsKeepText | inference/pipeline/long_text.py:12-21 | stripping keeps every visible character |
| LongText.PartsAreStripped | inference/pipeline/long_text.py:18-21 | parts begin and end visibly |
| LongText.GroupsAreTight | inference/pipeline/long_text.py:23-33 | sentences are joined in order, to twenty characters and no further |
| LongText.SentencesKeepText | inference/pipeline/long_text.py:9-33 | cutting, stripping and joining lose no visible character and keep their order |
| LongText.SentencesAreLong | inference/pipeline/long_text.py:23-33 | no sentence is empty and all but the last have twenty characters |
| LongText.SplitTextIntoSentences | inference/pipeline/long_text.py:9-33 | the two loops compute those sentences |
| LongText.Absorb | inference/pipeline/long_text.py:28-30 | the inner loop stops, on the index the outer loop goes on from |
| LongText.JoinShort | inference/pipeline/long_text.py:26-32 | the joining loops compute the groups |
| Batching.MakeBatches | inference/pipeline/long_text.py:36-52 | the loop computes the greedy batches |
| Batching.BatchesKeepText | inference/pipeline/long_text.py:36-52 | batching keeps every visible character in order |
| Batching.GreedyFits | inference/pipeline/long_text.py:42-49 | every batch is one sentence or at most max_batch_chars + 1 long |
| Batching.GreedyIsOptimal | inference/pipeline/long_text.py:36-52 | the batches returned are the sentences in consecutive groups that fit, and no such grouping has fewer groups |
| Batching.EveryBatchFits | inference/pipeline/long_text.py:36-52 | a short text is one batch; every batch of another is one sentence or at most max_batch_chars + 1 long |
| Batching.BudgetIff | inference/pipeline/decoder.py:22-28 | the lengths a multi-sentence batch may have are within the token budget exactly from 1307 tokens on |
| Batching.BatchWithinBudget | inference/pipeline/decoder.py:22-28 | so every batch but a single sentence is within the budget |
| Batching.DefaultSize | inference/pipeline/decoder.py:26-28 | the default size is seven tenths of the budget at 6.5 tokens a character, rounded down, between 200 and 1000 |
| Batching.AskedSize | inference/pipeline/decoder.py:23-25 | a size that is asked for is taken, but not below 80 |
| Crossfade.MixIsBetween | inference/pipeline/long_text.py:76-79 | a mixed sample lies between its two inputs and is a 16-bit sample |
| Crossfade.CrossAt | inference/pipeline/long_text.py:73-80 | what each sample of a crossfade is, and its length |
| Crossfade.SeamEnds | inference/pipeline/long_text.py:73-80 | a seam starts on the first segment's sample and ends on the second's |
| Crossfade.SeamIsWeighted | inference/pipeline/long_text.py:76-79 | each sample of it is the mean of the two it replaces, weighted by how far along it is, without its fraction |
| Crossfade.SeamMoves | inference/pipeline/long_text.py:76-79 | between fixed samples it moves one way, from the first to the second |
| Crossfade.CrossfadeIsCross | inference/pipeline/long_text.py:55-81 | on the bytes of samples, with an overlap of the given milliseconds or the shorter segment |
| Crossfade.CrossfadePcm | inference/pipeline/long_text.py:55-81 | bytes in, bytes out, with the early returns and the refusal of odd lengths |
| Crossfade.MixEnds | inference/pipeline/long_text.py:76-79 | the mixing loop |
| Crossfade.StitchPcmSegments | inference/pipeline/long_text.py:84-91 | the left fold |
| Crossfade.StitchOnSamples | inference/pipeline/long_text.py:84-91 | on whole samples the fold of bytes is the fold of samples |
| Crossfade.StitchIsNoShorter | inference/pipeline/long_text.py:84-91 | the result is never shorter than any segment |
| Crossfade.StitchLength | inference/pipeline/long_text.py:84-91 | each seam takes one fade |
| Crossfade.WholeIsStitched | inference/pipeline/long_text.py:71-91 | segments of whole samples are never refused |
| Crossfade.StitchedIsNoShorter | inference/pipeline/long_text.py:84-91 | in bytes, the result is no shorter than any segment |
| Crossfade.StitchedLength | inference/pipeline/long_text.py:84-91 | in bytes, each seam takes one fade |
| Crossfade.AnyBracketing | inference/pipeline/long_text.py:84-91 | the left fold equals every other bracketing when inner segments hold two fades and outer ones one |
| Decoder.StreamPcmForText | inference/pipeline/decoder.py:39-60 | short texts stream directly, long ones as full chunks of the stitched batches, without an error if every chunk is whole samples |
| Decoder.DecodedIsStitched | inference/pipeline/decoder.py:49-60 | what the streaming decoder gives for the batches always is, and no batch comes out shortened |
| Decoder.SeamsTakeFiftyMs | inference/pipeline/decoder.py:49-60 | at 24 kHz each seam takes 1200 samples |
| PcmRing.PCMRingPlayer.Push | web/src/audio/pcmPlayer.ts:35-44 | one sample in, the oldest out if the ring is full |
| PcmRing.PCMRingPlayer.OnData | web/src/audio/pcmPlayer.ts:32-45 | the ring holds the newest samples that fit |
| PcmRing.PCMRingPlayer.OnStart | web/src/audio/pcmPlayer.ts:21-24 | starts playing what is queued |
| PcmRing.PCMRingPlayer.OnStop | web/src/audio/pcmPlayer.ts:25-31 | empties the ring and stops |
| PcmRing.PCMRingPlayer.Process | web/src/audio/pcmPlayer.ts:47-63 | a block is the oldest samples and then silence, or silence until started |
| PcmRing.DecodedAreSamples | web/src/audio/pcmPlayer.ts:32-36 | the ring gets the samples of a message as fractions of 32768 |
| PcmRing.BlockIsFull | web/src/audio/pcmPlayer.ts:53-61 | a block is as many of the oldest samples as there are, then silence, and what it does not play stays |
| PcmRing.DataFills | web/src/audio/pcmPlayer.ts:35-44 | a message fills the ring as far as it goes |
| PcmRing.QueueIsNewest | web/src/audio/pcmPlayer.ts:32-64 | in every run the queue is the newest part of the input, within capacity |
| PcmRing.PlayOutIsFifo | web/src/audio/pcmPlayer.ts:32-64 | played and queued samples are the input in order, with nothing left out exactly when no message overflowed |
| PcmRing.PlayOutIsPrefix | web/src/audio/pcmPlayer.ts:47-63 | without overflow the play-out is a prefix of the input |
| PcmRing.PlayOutAdvances | web/src/audio/pcmPlayer.ts:47-63 | once started and without overflow, a block plays exactly the next samples of the input, as many as there are |
| PcmRing.SilentUntilStarted | web/src/audio/pcmPlayer.ts:49-52 | until started it plays nothing |
| LiveFraming.Synthesize | inference/server.py:68-88 | non-empty chunks are numbered from 0 |
| LiveFraming.SynthesizeLive | inference/server.py:90-113 | a session's output and what stays buffered |
| LiveFraming.ParseInvertsFrames | inference/server.py:103-113 | framing can be read back, in one way |
| LiveFraming.NoTextIsLost | inference/server.py:94-102 | spoken text followed by the buffer is all text sent |
| LiveFraming.MessageSpeaks | inference/server.py:90-113 | a final message speaks everything not yet spoken, if there is anything, in the voice and under the id given last; any other message speaks nothing |
| LiveFraming.FramingIsFaithful | inference/server.py:90-113 | unique parsing, one sentinel per final message with buffered text, no text lost |
| LiveFraming.ForwardInbound | api/internal/ws/live.go:203-229 | which inbound messages are sent on, and with which voice |
| LiveFraming.MessageIsForwarded | api/internal/ws/live.go:203-229 | a text message with a visible character is sent on as it is, in the voice asked for last; nothing else is |
| LiveFraming.EveryForwardedFinalEnds | api/internal/ws/live.go:215-217 | behind the gateway's filter every final message ends an utterance |
| LiveFraming.ReceiveLoop | api/internal/ws/live.go:141-201 | what the receive loop sends to the client |
| LiveFraming.HandleAudio | api/internal/ws/live.go:167-199 | metadata, counters, budget and the binary message of one chunk |
| LiveFraming.GatewayIsOneForOne | api/internal/ws/live.go:152-163 | each sentinel becomes one utterance_done and each chunk one binary message, until the loop stops |
| LiveFraming.StopsIff | api/internal/ws/live.go:184-199 | the loop stops at a chunk exactly when the audio since the budget was last set costs all of it, or the socket fails; in the first case the client is told the seconds it was sent |
| LiveFraming.FirstAudioIsAnnounced | api/internal/ws/live.go:170-176 | metadata announces exactly the first audio after an utterance was started |
| LiveFraming.OneDonePerFinal | api/internal/ws/live.go:142-163 | end to end, one utterance_done per final message the gateway sent on |

## Left out

- Rounding of floating-point seconds, costs and crossfade weights: arithmetic is exact, and only the six-decimal store of a balance is rounded.
- A changing price, top-ups and negative prices: no code shown changes a balance except the debit, and the bounds are stated at a fixed price that is not negative.
- Delivery.HttpDelivery.OnChunk: the bytes written are observed as seconds; partial writes, response headers and the job table are not modelled.
- The live gateway's budget takes part in no accounting theorem: two goroutines write it without a lock, so its values are arbitrary inputs of the receive loop, and the coalescer calls there are not modelled.
- WalletCache.WalletCache.Get: calls, of all gateways, follow one another; peers of the in-process cache, single flight and eviction are not modelled, and a call's latency is a parameter added to the bound.
- RateLimiter.Limiter.Allow: one call is one moment on one clock; the commands of two calls are not interleaved, and counters are keyed by tuples instead of strings.
- LimitStore.LimitStore.Effective: calls are atomic steps, so a write racing between the query and the cache write is not covered.
- TokenText.ParseInvertsPrint: int() is modelled for ASCII digits, signs, underscores and white space, without Python's limit on the number of digits.
- TokenText.TokenGenerator: HTTP, UTF-8 and JSON decoding of a line are inputs.
- Snac.TokensDecoder: the neural decoder and its scaling to 16-bit samples are an arbitrary function of the codebooks, which may raise; devices and CUDA streams are not modelled. The audio of the final flush is not claimed to be aligned.
- HandOff.NoDeadlock: the consumer keeps pulling; a response that is abandoned leaves the producer blocked, as in the source.
- Batching.GreedyIsOptimal: the length test compares UTF-32 characters, as Python does.
- PcmRing.PlayOutIsFifo: runs between two stops; a stop starts over from the empty ring. Resampling and the Web Audio graph are not modelled.
- LiveFraming.ReceiveLoop: metrics and the seconds reported in utterance_done are computed but not claimed to match one utterance, since the inbound loop may reset the record at any time.
- The boundary crossfade generator in inference/pipeline/long_text.py, which nothing calls.
- Routing, authentication, cookies, OpenAPI and protobuf code, configuration, metrics, the synthesis semaphore, WAV headers, usage listings, the vLLM backend, the React pages and the scripts: they would add only easy members.
