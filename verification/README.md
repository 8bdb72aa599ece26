# Golang_Examples: the sequential core, in Dafny

This project models the parts of the Go teaching snippets that have real
sequential behaviour, each as pure transition functions over explicit state:

- **Two-phase payment commit** (`TwoPhaseCommit`). A payment service asks an
  account service and a receipt service to vote, then debits the account if
  both vote yes. The model has no decision log, no abort message, no timeout
  and no retry, because the code has none of them.
- **Cashback budget guard** (`CashbackBudget`). One `processCashback` request
  runs against an abstract Redis store holding the total spend (a missing key
  reads as 0), the campaign status and the lock key. The request takes the
  lock, checks the 10000 budget, adds the cashback and closes the campaign
  when the limit is reached.
- **Web crawler bookkeeping** (`WebCrawler`). This covers the visited set,
  `href` extraction from a token stream, the rewriting of site-relative links,
  and the depth and visited guard of `crawl`.
- **CAP demos** (`CapTheorem`). These are the CA, CP and AP reads and writes
  over the package's `(data, isPartition)` pair, plus the three scenario
  drivers.
- **Sentinel errors** (`ErrorHandling`). This is `getUser`, Go error wrapping
  with `%w`, and `errors.Is`.

Go's `int` is taken to be 64 bits wide. `GoInt.Wrap` gives the
two's-complement result of any arithmetic that can overflow. In the cashback
guard, the Redis `INCRBY` command refuses an increment whose result would
overflow a 64-bit integer; the model follows that documented Redis behaviour.

Abstractions:
- The Redis client calls become functions over the `Store` record. A transport
  error of `SETNX`, `GET` or `INCRBY` is an input, `Fault`.
- The HTML tokenizer's output is an input `seq<Token>`. When the sequence runs
  out, that counts as the end-of-input error token.
- `url.Parse` is replaced by a parameter `parse: string -> BaseURL` giving a
  URL's scheme and host. Links are rewritten against `parse` of the URL that
  was fetched.
- `http.Get` and the tokenizer are replaced by a parameter
  `web: string -> Option<seq<Token>>`, where `None` means the request failed.
- The goroutines of `crawl` and `ProcessWithRedis` are served one after another
  in source order.

## Model

| member | source | states |
|---|---|---|
| GoInt.Wrap | consistency/twoPhaseCommit.go:86 | the Go result of an int operation is the unique 64-bit value congruent to the exact result modulo 2^64, and it is the exact result when that fits |
| TwoPhaseCommit.PreparePayment | consistency/twoPhaseCommit.go:53-61 | the account votes yes exactly when its balance is at least the amount |
| TwoPhaseCommit.PrepareReceipt | consistency/twoPhaseCommit.go:63-67 | the receipt service always votes yes |
| TwoPhaseCommit.PrepareTransaction | consistency/twoPhaseCommit.go:70-81 | phase one is ready iff the balance covers the amount; the account is always asked first; the receipt service is asked (with the amount as transaction id) iff the account voted yes |
| TwoPhaseCommit.CommitTransaction | consistency/twoPhaseCommit.go:84-89 | the commit always reports success, leaves the receipt service alone, and the new balance is the old one minus the amount modulo 2^64 (exactly that when it fits) |
| TwoPhaseCommit.ProcessTransaction | consistency/twoPhaseCommit.go:92-110 | the roll-back branch is never reached; phase one aborts iff balance < amount, and then nothing changes and only the account was asked; otherwise the account is debited and both services were asked |
| TwoPhaseCommit.DebitKeepsBalanceNonNegative | consistency/twoPhaseCommit.go:55-86 | for a non-negative amount, a completed payment leaves exactly old balance minus amount, which lies between 0 and the old balance |
| TwoPhaseCommit.TwoPhaseCommitScenario | consistency/twoPhaseCommit.go:14-36 | balance 1000, payment 500: the payment completes and the final balance is 500, under the original and the corrected vote alike |
| TwoPhaseCommit.NegativeAmountWrapsBalance | consistency/twoPhaseCommit.go:55-86 | as written, a payment of -1 against a balance of MaxInt64 completes and leaves MinInt64 |
| TwoPhaseCommit.PreparePaymentChecked | consistency/twoPhaseCommit.go:53-61 | corrected vote: yes exactly when 0 <= amount <= balance, and only when the original vote is yes |
| TwoPhaseCommit.ProcessTransactionChecked | consistency/twoPhaseCommit.go:92-110 | with the corrected vote, the payment completes iff 0 <= amount <= balance; a completed payment leaves exactly old balance minus amount, never negative and never above the old balance; an aborted one changes nothing |
| TwoPhaseCommit.CheckedAgreesOnDebits | consistency/twoPhaseCommit.go:92-110 | for every non-negative amount the corrected and original protocols give identical results |
| CashbackBudget.Spend | consistency/withRedis.go:88-92 | the spend reads as the stored value, or 0 when the key is missing |
| CashbackBudget.SetNX | consistency/withRedis.go:75-84 | the lock is acquired exactly when it was free; afterwards it is held and the spend and status are untouched |
| CashbackBudget.IncrBy | consistency/withRedis.go:101-105 | the increment fails exactly when the new spend would leave the 64-bit range; otherwise the spend becomes old spend plus delta |
| CashbackBudget.Locked | consistency/withRedis.go:88-113 | the locked part of a request does not touch the lock itself |
| CashbackBudget.ProcessCashback | consistency/withRedis.go:70-114 | a SETNX error ends the request with the lock, spend and status untouched; otherwise a held lock means skip with no change; once acquired, the lock is released on every exit; the cashback is applied iff there is no fault, the lock is free and spend + amount <= 10000 (no 64-bit overflow), and then the spend grows by exactly the amount; otherwise the spend and status stay; an applied request that brings the spend to exactly 10000 sets the status to "finished"; the status changes only to "finished", only when the spend is exactly 10000, and never back |
| CashbackBudget.BudgetInvariant | consistency/withRedis.go:95-101 | a request never takes a spend within the budget past 10000 |
| CashbackBudget.MissingSpendReadsAsZero | consistency/withRedis.go:88-92 | a missing spend key gives the same outcome, status, lock and read spend as a stored 0 |
| CashbackBudget.WrappedSumStoppedByIncrBy | consistency/withRedis.go:95-105 | spend 1 plus cashback MaxInt64 wraps negative and passes the budget check; INCRBY then fails and the store is unchanged |
| CashbackBudget.ProcessAll | consistency/withRedis.go:48-50 | serving the requests one after another yields one outcome per request, and the final spend is the initial spend plus the sum of the applied cashbacks |
| CashbackBudget.ProcessAllKeepsBudget | consistency/withRedis.go:48-50 | any sequence of requests keeps the spend within 10000, never reopens a finished campaign, and leaves a free lock free |
| CashbackBudget.UncontendedRequestsApplied | consistency/withRedis.go:48-50 | requests that meet no transport error and a free lock, with non-negative cashbacks that together fit the budget, are all applied; the spend grows by their sum, the lock ends free, and the status becomes "finished" exactly when the sum reaches 10000 |
| CashbackBudget.ProcessWithRedis | consistency/withRedis.go:30-50 | from spend 0 and "active", the five requests 1000, 1500, 2000, 3000 and 1500 are all applied and end with spend 9000, status "active" and the lock free |
| WebCrawler.NewCrawlQueue | pratices/webCrawler.go:22-24 | a new queue has visited nothing |
| WebCrawler.Add | pratices/webCrawler.go:27-37 | reports new iff the URL was not visited; afterwards the URL is visited and no other URL's membership has changed |
| WebCrawler.AddTwice | pratices/webCrawler.go:31-32 | a second Add of the same URL reports not-new and changes nothing |
| WebCrawler.Absolutize | pratices/webCrawler.go:89-94 | a link starting with "/" becomes scheme + "://" + host + link; any other link is unchanged |
| WebCrawler.AbsolutizeIdempotent | pratices/webCrawler.go:89-94 | rewriting a rewritten link changes nothing when the scheme does not start with "/" |
| WebCrawler.LinksAppend | pratices/webCrawler.go:67-101 | links come in document order: the links of a concatenation are the first part's links, then the second's |
| WebCrawler.LinksStopAtError | pratices/webCrawler.go:74-75 | no token after the first error token contributes a link |
| WebCrawler.HrefsAppend | pratices/webCrawler.go:83-98 | the href values of an attribute list are collected in attribute order |
| WebCrawler.HrefsMembership | pratices/webCrawler.go:83-98 | a link comes from an attribute list iff some attribute keyed "href" rewrites to it |
| WebCrawler.AnchorHrefs | pratices/webCrawler.go:83-98 | the attribute loop returns exactly the href values of the tag, rewritten, in attribute order |
| WebCrawler.FetchLinks | pratices/webCrawler.go:61-102 | the token loop returns exactly the reference link list |
| WebCrawler.LinkHasSource | pratices/webCrawler.go:77-98 | every extracted link is the rewritten href of an `a` start tag before the first error token |
| WebCrawler.SourceHasLink | pratices/webCrawler.go:77-98 | every href of an `a` start tag before the first error token is extracted |
| WebCrawler.LinksProvenance | pratices/webCrawler.go:67-101 | a string is extracted iff it is the rewritten href of an `a` start tag before the first error token |
| WebCrawler.Crawl | pratices/webCrawler.go:106-123 | depth <= 0 or an already visited URL changes nothing; otherwise the URL is visited and crawled first, at the given depth; the visited set grows by exactly the crawled URLs; no URL is crawled twice or re-crawled after being visited |
| WebCrawler.CrawlShape | pratices/webCrawler.go:106-123 | every crawled URL after the first was linked from an earlier fetched page crawled exactly one level higher, so each link is followed with depth - 1; every depth lies between 1 and the start depth; every fetched page crawled with depth >= 2 has all its links visited |
| WebCrawler.CrawlEachShape | pratices/webCrawler.go:119-122 | every URL crawled for a page's links is either one of those links at the given depth or linked from an earlier visit one level up; depths stay between 1 and the given depth; fetched pages with depth to spare have all their links visited |
| WebCrawler.CrawlEach | pratices/webCrawler.go:119-122 | crawling a page's links keeps the same bookkeeping, and with depth > 0 every link ends up visited |
| WebCrawler.LinksOfCrawledPageVisited | pratices/webCrawler.go:119-122 | every link of a newly crawled, fetched page at depth >= 2 ends up visited |
| WebCrawler.DepthOneCrawlsOnlyStart | pratices/webCrawler.go:108-122 | at depth 1 only the start URL is crawled, because its links get depth 0 |
| WebCrawler.ZeroDepthCrawlsNothing | pratices/webCrawler.go:108-110 | crawling any list of links at depth 0 changes nothing |
| WebCrawler.RunWebCrawler | pratices/webCrawler.go:127-153 | from a fresh queue the start URL is crawled first at depth 3, no URL twice, the visited set is exactly the crawled URLs, every other URL was linked from a page one level up, and no URL is more than two links from the start |
| CapTheorem.SetPartition | capTheorem/ca.go:20-26 | toggling the partition flag keeps the data |
| CapTheorem.WriteData | capTheorem/ca.go:33-41 | under partition the write changes nothing; otherwise the data becomes the new data |
| CapTheorem.ReadData | capTheorem/ca.go:43-50 | under partition the read returns ""; otherwise it returns the data |
| CapTheorem.CaReadAfterWrite | capTheorem/ca.go:33-50 | without a partition a read returns what was just written; with one it returns "" |
| CapTheorem.WriteDataCP | capTheorem/cp.go:33-40 | under partition the write changes nothing; otherwise the data becomes the new data |
| CapTheorem.ReadDataCP | capTheorem/cp.go:42-48 | under partition the read returns ""; otherwise it returns the data |
| CapTheorem.CaAndCpAgree | capTheorem/cp.go:33-48 | the CP write and read have the same effect as the CA ones on every node |
| CapTheorem.WriteDataAP | capTheorem/ap.go:33-42 | the write always stores the new data and keeps the partition flag |
| CapTheorem.ReadDataAP | capTheorem/ap.go:44-46 | the read always returns the data |
| CapTheorem.ApIgnoresPartition | capTheorem/ap.go:33-46 | AP writes and reads do not depend on the partition flag, and a read returns the last write |
| CapTheorem.SimulateNetworkPartitionCA | capTheorem/ca.go:14-31 | from any start: the partition-time read is "", the final read and data are "SimulateNetworkPartitionCA: Data after Partition", the partition ends cleared, and the first read is the initial data when the start is not partitioned |
| CapTheorem.SimulateNetworkPartitionCP | capTheorem/cp.go:14-31 | from any start the reads are "" and then "SimulateNetworkPartitionCP: New Data After Partition - ", and the partition ends cleared |
| CapTheorem.SimulateNetworkPartitionAP | capTheorem/ap.go:14-31 | from any start the partition-time read is "" and the final read is "SimulateNetworkPartitionAP: Data after Partition", with the partition cleared |
| CapTheorem.ApPartitionReadHidesWrite | capTheorem/ap.go:16-22 | the partition-time AP write did store its data, yet the scenario's read (a CP read) returns "" rather than stale data |
| ErrorHandling.Is | pratices/errorHandling.go:15 | `errors.Is` holds exactly when the target occurs in the error's unwrap chain |
| ErrorHandling.FormatInt | pratices/errorHandling.go:22 | `%d` prints a minus sign exactly for negative values, followed by digits whose value is the magnitude, with no leading zero except in "0" itself |
| ErrorHandling.NatToDecimal | pratices/errorHandling.go:22 | the decimal form is non-empty and all digits, and has a leading zero only for 0 |
| ErrorHandling.DecimalRoundTrip | pratices/errorHandling.go:22 | reading back the decimal form of n gives n |
| ErrorHandling.FormatRoundTrip | pratices/errorHandling.go:22 | parsing the `%d` form of any int gives it back |
| ErrorHandling.FormatIntInjective | pratices/errorHandling.go:22 | two ints with the same `%d` form are equal |
| ErrorHandling.GetUser | pratices/errorHandling.go:20-25 | the error is nil iff id == 1, and then the name is "Alice"; otherwise the name is "" and the error wraps ErrNotFound with message "user <id>: not found" |
| ErrorHandling.NotFoundIsSentinel | pratices/errorHandling.go:11-22 | the not-found error matches ErrNotFound under errors.Is, and matches no other sentinel, even one with the same text |
| ErrorHandling.NotFoundMessagesDistinct | pratices/errorHandling.go:22 | different missing ids give different error messages |
| ErrorHandling.GetUserTwoMessage | pratices/errorHandling.go:13-22 | the lookup of id 2 fails with message "user 2: not found" |
| ErrorHandling.ErrorHandling | pratices/errorHandling.go:13-18 | the not-found branch is always taken |

## Left out

- Printing (`fmt`, `log`) and `time.Sleep`: these only produce output or wait.
- The goroutines, the `WaitGroup`s and the mutex in `crawlQueue`: requests and crawl steps are served sequentially in source order. The concurrent runs of `ProcessWithRedis` skip requests that find the lock taken; the sequential run is the interleaving in which none do.
- The 10-second expiry of the Redis lock, errors from the deferred `DEL`, and errors from the `SET` that marks the campaign finished: the code ignores the last two, and all three are timing or transport behaviour of the Redis server. The model takes that `SET` as always succeeding.
- The non-integer contents of the spend key (a failing `.Int()` conversion): the store holds the spend as an integer.
- `http.Get`, closing the response body (and the `log.Fatal` on a failed close), the HTML tokenizer and `url.Parse`: these are I/O or foreign libraries, so they appear only as the inputs described above. A failed parse of the base URL cannot happen for a URL that was just fetched.
- `ProcessWithRedis`'s final reads of the store: these only print the state that `CashbackBudget.ProcessWithRedis` returns.
- The package file that declares `data` and `isPartition` is not part of this model, so the CAP scenarios are proved for every starting state.
- ErrorHandling.Is: compares errors by value. Go compares the wrapping errors by pointer, but this only matters when the target of `errors.Is` is not a sentinel, and the code never does that.
- Everything under `concurrency/`, `pratices/channel.go`, `pratices/goRoutine.go`, `pratices/context.go`, `pratices/performance.go`, `pratices/benchmarking*.go`, `pratices/interfaces.go`, `resilience/gobreaker.go` and `main.go`: their point is concurrency, timing, a third-party library, or wiring with no logic.
- WebCrawler.Crawl: the `crawled` order is the depth-first order of one schedule. The concurrent program may crawl in another order. Under another schedule it may reach a URL first by a different path, and so with a different remaining depth. Each URL is still crawled at most once, because every goroutine claims its URL through the same `Add`.

## Findings

| source | as written | input that shows it | evidently intended | confidence | as-written member | corrected member |
|---|---|---|---|---|---|---|
| consistency/twoPhaseCommit.go:55-86 | the vote checks only `balance >= amount`, and the commit subtracts with 64-bit wrap-around | balance 9223372036854775807, amount -1: the vote is yes, and the balance after commit is -9223372036854775808 | a payment never leaves the balance negative, so a negative amount is refused | medium, not executed | TwoPhaseCommit.NegativeAmountWrapsBalance | TwoPhaseCommit.ProcessTransactionChecked |
