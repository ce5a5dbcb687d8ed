# A verified model of the dealer-exposure system

The system watches option chains through a TWS edge process, keeps one book per ticker in a Go
core, prices dealer exposures on it and stores what it saw.  This project models the parts of it
with the most state, branching or arithmetic and proves what they promise, over all inputs, all
runs and all reachable states.

| part | modules | main results |
|---|---|---|
| edge ingest core | `Skeleton`, `Ingest`, `IngestRuns`, `RowHistory`, `Sessions`, `Holds`, `Replay`, `Refreshes`, `Journal`, `IngestCases`, `TickerIngests` | the index invariant in every reachable state, and exactly when it is exact; what every row holds, as the last thing said of it; placeholder ids never reused; exactly when replay reproduces the books; published arrays never change |
| root finder and gamma flip | `Brent`, `Flip` | nested brackets, accuracy at return, Brent's iteration bound; an interpolation is the zero of the inverse parabola; a flip exactly when the profile changes sign, in the nearest change |
| selection and its summary | `Market`, `Selection`, `SubSet` | which contracts are kept, by their dates and strikes; selection by class commutes with projection; the summary sent to the edge is lossless, row for row |
| store and exporter | `Store`, `Exporter`, `ExportRuns` | durable state is the committed batches in order, exactly when each task gets its one result and who is blamed; the exported file skips nothing, over crashes, and without them is exactly the table up to the cursor |
| sweep roster and pacing | `SweepPolicy`, `SweepProtocol`, `SweepActors`, `Pacer` | the edge follows the core's roster and catches up with it; no pass without a click; both gates agree; a message goes out if and only if the token-bucket law allows it |
| numeric folds | `Exposure`, `Snapshots`, `Conservation`, `Positions`, `VolBlend`, `Surface`, `Engine`, `Hedge`, `Garch` | every number of a snapshot and of the flip profile as a sum over its contracts; conservation over four groupings; the flat smile; least squares and Cauchy-Schwarz; the GARCH closed form |

`Common` holds the shared vocabulary and `Ordering` the sorting of keys.  `dafny verify dfyconfig.toml` checks everything.

Conventions.  Floats are `real`: rounding, infinities and NaN are not modelled, except that the
root finder's objective may be non-finite and then is reported.  An expiry is the day its text
stands for, or text that does not parse.  Square roots are avoided by stating squares, and `exp`,
`pow`, `sqrt`, option pricing, and which days are Fridays and their days of the month are parameters; what is assumed of the
first three is `VolBlend.Lawful` and `Hedge.IsRoot`.  The clock is a parameter of each event.

## Where the code does less than is said of it

- **Replay.**  The project README says a recorded session replays with identical books
  (README.md:31).  There are three ways it does not.  The book refuses a chain with a row or a spot
  it does not accept and keeps the old one, and what it then holds can depend on when flushes fell:
  after a quote with a positive bid and a negative ask (`IngestCases.NegativeAskBreaksReplay`), and
  after a discovery at a spot of 1e9 or more, which `onChain` does not check
  (`IngestCases.HugeSpotBreaksReplay`).  And a vendor refresh is not a line of the wire, so the
  journal does not hold it (`IngestCases.RefreshLostInReplay`).  `Replay.ReplayExact` gives the
  exact condition for the flushes of one ticker, `Refreshes.RefreshExact` for its refreshes, and
  `Journal.JournalExact` for a whole live run and its journal; `Replay.Clean` is a condition on
  single wire events that is enough for the first.  All this is for a replay that starts from the
  same books and handles each discovery on the day it was recorded on.  core/cmd/gexctl/edge.go
  moves its clock only after a line is dispatched, so a discovery just after midnight UTC is
  replayed with the day of the record before it, and one on the first line with the day of the
  replay; that can select other expiries.
- **Index and placeholder ids.**  Placeholders are never issued twice, but a negative id from the
  wire can be one the allocator has yet to issue, and if that row survives the discovery that
  issues it, two rows share it (`IngestCases.NegativeWireIdCollides`).  `Ingest.AdoptExactIff` and
  `IngestRuns.IndexExactIff` give the exact condition.
- **One result per task.**  A task that passes the closed test before `Close` and lands when the
  last batch has been taken is accepted and gets no result, and whoever waits for it waits for
  ever (`Store.LateSubmitUnanswered`).  `Store.Store.Close` gives the exact condition.
- **`NextOpen`** says it returns the next instant a ticker is allowed; inside an open window it
  returns a later opening.  `SweepPolicy.NextOpenIsFirstAllowed`: the promise holds if and only if
  the ticker is blocked.
- **Vendor open interest** is said never to win over a TWS value; it does
  (`IngestCases.VendorOverridesTws`).  `IngestRuns.VendorKeepsInterestIff` gives the exact
  condition, and what survives is that a positive value stays positive
  (`IngestRuns.KnownForever`).

## Model

| member | source | states |
|---|---|---|
| Skeleton.BuildSkeleton | core/internal/edge/ingest.go:482-511 | the loops with their duplicate check build `Universe` |
| Skeleton.UniverseIsProduct | core/internal/edge/ingest.go:482-511 | the rows are exactly the product of listings, strikes and rights, each identity once, all unresolved; by listing, then strike, in order of first appearance, call before put; each with the settlement of the first listing of its class and expiry |
| Ingest.PlaceholderInSlot | core/internal/market/synthetic.go:280-304 | the k-th placeholder of a ticker passes `ConIdMatchesTicker` if and only if k is at most 200,000 |
| Ingest.SlotsDisjoint | core/internal/market/synthetic.go:280-304 | placeholders of tickers in different slots never collide |
| Ingest.StampFresh | core/internal/edge/ingest.go:547-562 | a stamped id is below every id issued before |
| Ingest.StampsInOrder | core/internal/edge/ingest.go:547-562 | the m-th row without an id gets the m-th id below the last one issued, so ids fall down the rows; rows with an id are left alone |
| Ingest.AllocatorTight | core/internal/edge/ingest.go:547-562 | a re-discovery issues no id in vain: the last one it counts is on a row |
| Ingest.AdoptSound | core/internal/edge/ingest.go:516-588 | a re-discovery keeps identities distinct, ids non-zero and every index entry on a row with that id, whatever the ids |
| Ingest.AdoptExactIff | core/internal/edge/ingest.go:551-585 | after a re-discovery the index is exact if and only if no carried id is one of those it is about to issue |
| Ingest.AdoptValid | core/internal/edge/ingest.go:516-588 | a re-discovery keeps the index the exact inverse of the id column as long as every id in the chain has been issued or is not negative |
| Ingest.PatchSound | core/internal/edge/ingest.go:726-847 | an accepted optcomp keeps the index sound, and exact if it was, also when it re-points it to a new id, whatever that id |
| Ingest.PatchKeepsIds | core/internal/edge/ingest.go:746-766 | an accepted optcomp never changes which contract any row is |
| Ingest.VendorSound | core/internal/edge/vendoroi.go:37-76 | a vendor refresh keeps the index sound, and exact if it was |
| Ingest.MatchIs | core/internal/edge/vendoroi.go:27-64 | a vendor entry matches a row that agrees in class, right, strike and date, and none that differs in the first two or the date or by a ten-thousandth in strike; strikes are rounded to the nearest ten-thousandth, halves away from zero |
| IngestRuns.RunSound | core/internal/edge/ingest.go:305-359 | in every reachable state identities are distinct, no id is zero and every index entry points to a row with that id |
| IngestRuns.IndexExactIff | core/internal/edge/ingest.go:551-585 | the index is exact all through a session if and only if no discovery of it carries over an id which it is about to issue |
| IngestRuns.RunValid | core/internal/edge/ingest.go:746-766 | without negative ids on the wire it is, in every reachable state |
| RowHistory.RowIs | core/internal/edge/ingest.go:726-847 | over every session, for every row: bid and ask are those of the last accepted optcomp with a positive one, volatility the last positive one, id the last delivered, all since the row entered the chain; settlement, exchange and multiplier are the last of an accepted optcomp with a known id since the last discovery, or the discovery's |
| RowHistory.QuotesAre | core/internal/edge/ingest.go:523-541 | the first half, through any number of re-discoveries the row survives; before anything is said, no quote, no volatility and the placeholder |
| RowHistory.TermsAre | core/internal/edge/ingest.go:767-786 | the second half: what a re-discovery does not carry over |
| RowHistory.SpotIs | core/internal/edge/ingest.go:804-809 | the working spot is the last given by a kept discovery, an accepted optcomp or a tick, the last two only between 0 and 1e9 |
| IngestRuns.FlushesInvisible | core/internal/edge/ingest.go:205-220 | the working chain, index and allocator after a run do not depend on where flushes fell |
| Replay.ReplayExact | core/internal/edge/ingest.go:851-876 | from any book the ticker starts with, every placement of flushes in a session ends with its working chain as the book if and only if all rows are acceptable and either the last kept discovery, or a patch since, was at a spot the book accepts, or the spot is sane again and the events before that discovery leave these very rows in the book |
| Replay.SettledReplay | core/internal/edge/ingest.go:851-876 | in the first of these cases each single placement ends with the working chain if and only if all rows are acceptable |
| Replay.SettledRefused | core/internal/market/feed.go:130-155 | what is not acceptable, row by row: in the first case the book misses the chain if and only if some row has a strike that is not positive, an unknown right or settlement, or a negative open interest, bid or ask |
| Replay.BookHolds | core/internal/market/feed.go:60-82 | in every reachable state the book holds no such row, no id of zero and no spot outside 0 to 1e9 |
| Replay.FirstDiscoveryExact | core/internal/edge/ingest.go:395-444 | in a session with one kept discovery and no book before, the last case cannot occur |
| Sessions.HeldExact | core/internal/edge/ingest.go:844-866 | the book holds given rows in every placement of flushes of a session if and only if they stay, which is decided by the events alone: discoveries and refreshes that publish at once, patches that wait for a flush or the threshold |
| Holds.StaysExact | core/internal/edge/ingest.go:844-866 | the same for any slot that is handed values at once, or after a flush or enough patches |
| Replay.CleanSession | core/internal/market/feed.go:60-82 | a session of events that are clean one by one has acceptable rows only and is settled |
| IngestCases.NegativeAskBreaksReplay | core/internal/edge/ingest.go:798-800 | from the start: a discovery, an optcomp, a quote with positive bid and negative ask; the final book depends on a flush before the last |
| IngestCases.HugeSpotBreaksReplay | core/internal/edge/ingest.go:395-437 | from the start: a discovery at spot 1e9 or more, an optcomp, a sane tick; the book never gets the chain if a flush falls before the tick |
| IngestCases.SameChainReplays | core/internal/edge/ingest.go:395-437 | from the start: a second discovery at such a spot that finds what the book has, then a sane tick; not settled, yet replay holds |
| Journal.TickersIndependent | core/internal/edge/ingest.go:305-359 | the working chain and all ingest state of a ticker depend only on its own events and the flushes |
| Journal.SameAdmission | core/internal/app/edge.go:30-58 | which ticker takes the free slot, and so which tickers have a book, is decided by the wire alone |
| Journal.CustomIs | core/internal/app/edge.go:30-58 | an occupied free slot stays with its ticker; a free one goes to the first ticker without a book of its own whose discovery is kept |
| Journal.RecordingsExact | core/internal/edge/ingest.go:205-220 | in every recording of a run all books end as their tickers' working chains if and only if each ticker's session meets the condition of `Replay.ReplayExact` |
| Refreshes.RefreshesTouchInterestOnly | core/internal/edge/vendoroi.go:37-76 | without its vendor refreshes a session has the same working chain, index and allocator but for open interest |
| Refreshes.InterestIs | core/internal/edge/vendoroi.go:55-68 | a row's open interest is the last value a refresh offered since the last positive one of an optcomp, else that one, else none, since it entered the chain |
| Refreshes.RefreshExact | core/internal/edge/vendoroi.go:37-76 | without its refreshes a session ends with the same chain if and only if, for every row, none offered a value after the last positive open interest of an optcomp, or the last that did offered just that |
| IngestCases.RefreshLostInReplay | core/internal/edge/vendoroi.go:37-76 | from the start: discovery, optcomp, refresh; all clean and replayable, yet the replay of the journal ends with another book |
| Journal.JournalExact | core/internal/edge/server.go:419-424 | live run and replay of its journal, wherever flushes fell in either, end with up-to-date and equal books if and only if every ticker with a book has a replayable session, with its vendor refreshes and without, and no refresh left a trace |
| Journal.CleanJournal | README.md:31 | of a run whose wire events are clean one by one, replay reproduces the books if and only if no refresh left a trace |
| IngestRuns.AdoptCarries | core/internal/edge/ingest.go:523-541 | a re-discovery keeps id, open interest, volatility and quotes of every surviving identity, and stamps every other row from the unused ids |
| IngestRuns.KnownForever | core/internal/edge/ingest.go:788-803 | over every run, positive open interest or volatility of an identity stays positive while it stays selected |
| IngestRuns.VendorKeepsInterestIff | core/internal/edge/vendoroi.go:37-95 | vendor data leaves a row's open interest alone if and only if it offers none for it, or the same |
| IngestCases.VendorOverridesTws | core/internal/edge/vendoroi.go:57-70 | from the start: a discovery, an optcomp with open interest, vendor data; the vendor's value replaces the one TWS delivered |
| IngestRuns.AllocatorMonotone | core/internal/edge/ingest.go:547-562 | over every run the allocator only moves on |
| IngestRuns.PlaceholdersNeverReused | core/internal/edge/ingest.go:547-562 | ids stamped by two discoveries of one session are different, whatever happens in between |
| IngestRuns.PlaceholderBootCheck | core/internal/market/synthetic.go:291-304 | a stamped id passes its ticker's boot check exactly while it is among the first 200,000 |
| IngestCases.NegativeWireIdCollides | core/internal/edge/ingest.go:551-562 | from the start: a discovery, an optcomp with the negative id next in line, a discovery of one more strike; two rows share the id |
| TickerIngests.TickerIngest.OnChain | core/internal/edge/ingest.go:395-444 | the new state is the adopted selection; a reply is sent exactly when the book accepts it, and what the edge's filter under that reply leaves of the universe is the kept chain, row for row; no published array changes |
| TickerIngests.TickerIngest.AdoptChain | core/internal/edge/ingest.go:516-588 | carry-over, stamping and indexing in place give `Adopt`; published arrays stay as they were |
| TickerIngests.TickerIngest.CarryInto | core/internal/edge/ingest.go:523-541 | the in-place carry-over loop gives `Carry` of the old array |
| TickerIngests.TickerIngest.StampInto | core/internal/edge/ingest.go:547-562 | the in-place stamping loop gives `Stamp` of the old array and moves the allocator on by its count |
| TickerIngests.TickerIngest.Resolve | core/internal/edge/ingest.go:732-766 | an optcomp is dropped exactly when it has no id, its id belongs to another contract, or its id is new and its contract not in the chain; else it goes to the row of its contract |
| TickerIngests.TickerIngest.OptComputed | core/internal/edge/ingest.go:726-847 | patching the array in place gives `OnOptComp` for every wire id; published arrays stay as they were |
| TickerIngests.TickerIngest.SpotTicked | core/internal/edge/ingest.go:680-718 | working chain and book move to a sane spot together |
| TickerIngests.TickerIngest.ApplyVendorOI | core/internal/edge/vendoroi.go:37-95 | exactly the rows with a positive match change, and then the chain is published |
| TickerIngests.TickerIngest.PublishCopy | core/internal/edge/ingest.go:871-876 | the book gets a fresh copy, or keeps its own when it refuses |
| TickerIngests.TickerIngest.FlushTicker | core/internal/edge/ingest.go:851-866 | a flush clears what is pending and publishes it |
| Brent.FindRoot | core/internal/rootfind/brent.go:45-130 | for every tolerance: no bracket exactly when the product is positive; an error only where f is not finite; the result is inside the interval; at every pass a sign change with the better end first, each bracket following from the last by one step inside it; a return before the limit is a root, or the better of two points of different sign within tol + 4e-15 times its size; the limit is not reached when it exceeds Brent's bound |
| Brent.SameRoot | core/internal/rootfind/brent.go:45-130 | the answer depends on nothing of the objective but its values |
| Brent.AcceptedQuotient | core/internal/rootfind/brent.go:94-108 | an accepted interpolation is less than three quarters of the way to the far end and towards it, and less than half the step before last; its divisor is not zero |
| Brent.AcceptedIff | core/internal/rootfind/brent.go:94-108 | the acceptance test of p and q, said of the step: it leads towards the far end, by less than three quarters of the way less half the tolerance, and by less than half the step before last |
| Brent.SecantStep | core/internal/rootfind/brent.go:82-88 | with two points the interpolation leads to the zero of the line through them |
| Brent.InverseQuadraticStep | core/internal/rootfind/brent.go:88-93 | with three points of different values it leads to the zero of the parabola through them, x as a function of the value |
| Brent.ChosenIs | core/internal/rootfind/brent.go:81-112 | the interpolation is followed if and only if the step before last was long enough, the values shrink and the step fits; else the bracket is halved |
| Brent.ChooseStep | core/internal/rootfind/brent.go:81-112 | the step is a bisection, or an interpolation that shrinks |
| Brent.TraceNested | core/internal/rootfind/brent.go:60-130 | brackets are nested over the whole run, strictly for a tolerance above zero |
| Brent.IterationBound | core/internal/rootfind/brent.go:60-130 | if L halvings take the interval to tol/2 and J cuts to three quarters take it to tol, the width is down to tol within J(2L + 3) passes |
| Flip.TotalGexAt | core/internal/exposure/aggregate.go:350-374 | the loop gives the sum over the items priced at that spot, and an error exactly when one cannot be priced |
| Flip.NearestChange | core/internal/exposure/aggregate.go:309-323 | none exactly when the profile never changes sign; else the change nearest to spot, the lowest on a tie |
| Flip.FindFlip | core/internal/exposure/aggregate.go:297-339 | a flip exactly when the 81-point profile changes sign, inside the change nearest to spot and the answer of the root search there; it fails exactly when a grid point or a point the search tries cannot be priced, never for want of a bracket |
| Flip.FlipUnique | core/internal/exposure/aggregate.go:297-339 | the objective determines profile and flip |
| Flip.MiddleIsSnapshot | core/internal/exposure/aggregate.go:297-308 | the middle grid point is spot and its profile value is the snapshot's total GEX |
| Flip.NoFlipOneRegime | core/internal/exposure/aggregate.go:309-326 | no flip exactly when the regime at spot holds over the whole grid |
| Flip.NearestIsCentral | core/internal/exposure/aggregate.go:310-323 | for a positive spot, nearest means the fewest grid steps from the centre, ties to the lower interval |
| Positions.ProfileIs | core/internal/exposure/aggregate.go:297-308 | each of the 81 points is 0.8 to 1.2 times spot in equal steps, and its value is the sum over the contracts at that spot, Greeks and dollars alike |
| Positions.RepricedIsSnapshot | core/internal/exposure/aggregate.go:350-374 | at any spot, repricing gives the total of the snapshot that the book has with that spot |
| Selection.SelectExpiries | core/internal/market/select.go:27-105 | an error exactly when a date does not parse or none is live; else, strictly ascending, exactly the earliest live day, the live Fridays with at most one before them, and the first live Friday with a day of the month of 15 to 21 |
| Selection.PickIs | core/internal/market/select.go:52-105 | the same of the set of dates |
| Selection.PickFacts | core/internal/market/select.go:52-105 | the pick is of live dates and holds the earliest, the first Friday and the first listed third Friday |
| Selection.PickSize | core/internal/market/select.go:52-105 | the pick has one to four dates |
| Selection.SelectionIgnoresOrder | core/internal/market/select.go:27-105 | the pick does not change when its input is permuted or repeated |
| Selection.SelectedExpiries | core/internal/market/select.go:154-182 | the rows on the picked dates, in order, as a filter of the chain |
| Selection.SelectedExpiriesByClass | core/internal/market/select.go:197-252 | the rows on their own class's picks, a fully expired class dropped |
| Selection.NothingSelected | core/internal/market/select.go:202-239 | selection by class fails exactly when every class lists a date that does not parse or only dates that are over; else it keeps something |
| Selection.ClassProjection | core/internal/market/select.go:197-252 | restricted to one class it is the selection of that class's rows alone, and nothing if that class is fully expired |
| Selection.FilterChain | core/internal/market/select.go:119-150 | an error exactly when the volatility is not positive, a date does not parse or nothing is left; else the rows within two standard deviations |
| Selection.TwoSdByRoot | core/internal/market/select.go:134-140 | the squared test is the source's test with a square root |
| Selection.WindowConvex | core/internal/market/select.go:134-140 | a strike between two kept strikes of one expiry is kept |
| SubSet.KeptListings | core/internal/edge/ingest.go:891-907 | each (class, expiry) pair of the kept rows once |
| SubSet.StrikeRange | core/internal/edge/ingest.go:909-933 | the least and greatest strike, both attained |
| SubSet.StrikeWindows | core/internal/edge/ingest.go:446-472 | one window per pair, from its least to its greatest strike |
| SubSet.WithinWindows | edge/src/GexEdge/Budget.cs:23-39 | in order, exactly the rows inside the first window listed for their pair, or inside the global range if none is |
| SubSet.EdgeFilter | edge/src/GexEdge/TwsCallbacks.cs:244-247 | the edge's two stages keep, in order, exactly the rows of a kept pair inside the global range and their own window |
| SubSet.Lossless | edge/src/GexEdge/TwsCallbacks.cs:244-247 | for every contract of the discovered universe the edge's two tests admit it if and only if the core kept it |
| SubSet.LosslessRows | core/internal/edge/ingest.go:417-472 | what those stages leave of the universe is the chain the core kept, row for row |
| SubSet.KeptIs | core/internal/market/select.go:119-150 | a contract of the universe is kept if and only if all dates of its class parse, its day is one of the picks of its class, and its strike is within two standard deviations of spot, a day's time at least |
| Store.Store.Enqueue | core/internal/store/store.go:215-242 | refused when closed or full, else accepted at the end of the order |
| Store.Store.Execute | core/internal/store/store.go:142-157 | a batch runs as one transaction, all or nothing, blaming the write that failed |
| Store.Store.Flush | core/internal/store/store.go:126-159 | for every pattern of faults: the whole queue is one batch; durable state is the committed batches in order of acceptance; a failure changes nothing durable and leaves the queue empty with every task notified |
| Store.Store.CompleteBatch | core/internal/store/store.go:166-211 | a commit notifies its batch; a failure notifies batch and queue, naming the failed write |
| Store.FlushExact | core/internal/store/store.go:141-211 | a batch commits exactly when it can begin and commit and no task fails; else only the first task that fails is told its own error, or the last if the commit failed, or none if the transaction did not begin; the others that they were aborted or drained |
| Store.Store.Close | core/internal/store/store.go:363-378 | every accepted task has its outcome if and only if none landed after the last flush, and none during it unless that flush failed and drained them as they came |
| Store.LateSubmitUnanswered | core/internal/store/store.go:229-242 | a submit that passed the closed test before and lands during the last flush of an idle store is accepted and never answered |
| Store.ExactlyOneNotice | core/internal/store/store.go:166-211 | a settled task that wants a result gets exactly one, and it is success exactly when its effects are durable |
| Exporter.StepKeeps | core/internal/store/masterlog.go:118-185 | every step, crashes included, keeps the invariant and never moves the cursor back |
| Exporter.NeverSkips | core/internal/store/masterlog.go:118-185 | in every run each row up to the cursor is in the file and each row of the file is a committed row |
| Exporter.CursorMonotone | core/internal/store/masterlog.go:222-242 | the cursor never moves back over any run, through `touchCursor` too |
| ExportRuns.FileExact | core/internal/store/masterlog.go:118-185 | in every run without a crash, write failure or failed batch the file is at every moment exactly the committed rows up to the cursor, in order, and besides at most what an unfinished export has written |
| ExportRuns.FileAscends | core/internal/store/masterlog.go:118-185 | in such a run its ids strictly ascend, so no row is there twice |
| ExportRuns.CursorFollows | core/internal/store/masterlog.go:174-184 | after a finished write the commit of the query it waits for, whatever came between, sets the cursor to the id of the last row written |
| ExportRuns.ExportComplete | core/internal/store/masterlog.go:118-185 | an export that ends with nothing failed has put into the file every row that was committed before it read, whatever crashed earlier |
| ExportRuns.ExportPossible | core/internal/store/masterlog.go:118-185 | from every idle state of every run, crashes included, an export can complete: all that was queued is committed, the cursor is at the last row and every row is in the file |
| ExportRuns.FailureRetried | core/internal/store/masterlog.go:118-185 | a crash, a failed write or a failed query leaves table, cursor and file as they were, and the next export can put every row into the file |
| ExportRuns.PointsAppended | core/internal/store/masterlog.go:76-99 | a batch of points becomes as many rows, in order, with consecutive ids above all others |
| ExportRuns.CommitAppends | core/internal/store/store.go:126-159 | a submit goes to the end of the queue; a commit appends to the table, in order, exactly the points of the tasks it takes from its front; no other step touches the table |
| SweepPolicy.NormalizeRoster | core/internal/edge/sweep_policy.go:203-218 | trimmed, upper-cased, without blanks or repeats, at most two |
| SweepPolicy.CanonIs | core/internal/edge/sweep_policy.go:207 | a canonical ticker is what is left between leading and trailing blanks, in capitals |
| SweepPolicy.DistinctIs | core/internal/edge/sweep_policy.go:203-218 | the tickers named are exactly the canonical forms of the entries that are not blank |
| SweepPolicy.DistinctInOrder | core/internal/edge/sweep_policy.go:203-218 | they come in the order in which they are first named |
| SweepPolicy.ValidateRoster | core/internal/edge/sweep_policy.go:230-246 | refused exactly when more than two different tickers are named |
| SweepPolicy.NormalizeKeepsFirst | core/internal/edge/sweep_policy.go:203-218 | a ticker is kept exactly when it is named where at most one other ticker was named before |
| SweepPolicy.Clamp | edge/src/GexEdge/SweepPolicy.cs:38-51 | the edge's loop computes the same normal form as the core's |
| SweepPolicy.ClampFixedPoint | edge/src/GexEdge/SweepPolicy.cs:38-51 | the edge leaves a roster alone exactly when it is normal, and every roster the core accepts is |
| SweepPolicy.GatesAgree | edge/src/GexEdge/SweepPolicy.cs:57-77 | the edge blocks a ticker exactly when the core does not allow it, at every instant |
| SweepPolicy.AllowedIs | core/internal/edge/sweep_policy.go:145-155 | allowed exactly on weekdays from 09:20 up to 16:10 for SPX and NDX, from 08:15 up to 18:30 for the others, to the nanosecond |
| SweepPolicy.NextOpen | core/internal/edge/sweep_policy.go:180-198 | the first later opening on a weekday; the search of eight days always finds it |
| SweepPolicy.NextOpenIsFirstAllowed | core/internal/edge/sweep_policy.go:180-198 | that is the first instant from now on at which the ticker is allowed if and only if it is blocked now |
| SweepProtocol.StepKeeps | core/internal/edge/server.go:126-189 | every step of core, edge or network, restarts of either process included, keeps the protocol invariant |
| SweepProtocol.EdgeFollowsCore | core/internal/edge/server.go:223-285 | in every run the roster is normal, at most two passes are registered, all on the last delivered roster, and once the channel is drained that is the core's |
| SweepProtocol.RosterGrowsOnlyByClick | core/internal/edge/server.go:126-189 | only `SetSweeps` adds to the roster, only inside its window; the shutoff drops exactly the tickers outside theirs |
| SweepProtocol.RosterExact | core/internal/edge/server.go:126-244 | what each step makes of the roster, and that every change is pushed: a click the tickers named, unless over the cap or outside a window; a report the rest without its ticker; the shutoff those inside their window; nothing else anything |
| SweepProtocol.PushStartsExactly | edge/src/GexEdge/TwsFeed.cs:590-607 | after a push exactly the listed tickers have a pass, and running ones keep theirs |
| SweepProtocol.PushStartsAnew | edge/src/GexEdge/TwsFeed.cs:590-621 | a listed ticker without a pass gets a new one, no running pass is forgotten, and each pass not listed reports once that it was aborted |
| SweepProtocol.LateFinishHarmless | edge/src/GexEdge/TwsFeed.cs:697-703 | an aborted pass that finishes late never removes a newer registration |
| SweepProtocol.FinishExact | edge/src/GexEdge/TwsFeed.cs:690-703 | the end of a pass takes down its own registration and no other, and puts its report on its way |
| SweepProtocol.NoPassWithoutClick | edge/src/GexEdge/TwsFeed.cs:590-607 | in every run each pass is for a ticker clicked earlier inside its window |
| SweepProtocol.HelloConverges | core/internal/edge/server.go:433-441 | from any state of any run, once the edge has said hello and the pushes have arrived, it holds the core's roster and runs exactly one pass for each of its tickers |
| SweepProtocol.RestartStopsEverything | core/internal/edge/server.go:436-441 | after a core restart without a click, an edge that has caught up runs nothing |
| SweepProtocol.RestartArms | core/internal/edge/server.go:433-441 | after a restart of the edge nothing runs and only the core's roster can lead to a pass; after one of the core only what is still with the edge; a connection that ends or is replaced loses what was on its way |
| SweepActors.RosterServer.SetSweeps | core/internal/edge/server.go:126-151 | the server's method is the protocol step, and refuses exactly over the cap or outside a window |
| SweepActors.RosterServer.SweepDone | core/internal/edge/server.go:158-189 | the filtering loop and the push are the protocol step for every world the server agrees with |
| SweepActors.RosterServer.EnforceWindows | core/internal/edge/server.go:223-244 | the shutoff loop and the push are the protocol step for every world the server agrees with |
| SweepActors.RosterServer.Hello | core/internal/edge/server.go:433-441 | every hello pushes the whole current roster |
| SweepActors.EdgeFeed.OnCoreSweepSet | edge/src/GexEdge/TwsFeed.cs:590-621 | the edge's two loops over its registrations are the protocol step |
| SweepActors.EdgeFeed.FinishPass | edge/src/GexEdge/TwsFeed.cs:697-703 | a finished pass takes down its own registration only: the protocol step |
| Pacer.MsgPacer.TryAcquire | edge/src/GexEdge/Throttling.cs:37-69 | one attempt refills, then sends exactly when a token is there |
| Pacer.MsgPacer.Paced | edge/src/GexEdge/Throttling.cs:37-69 | the object's own sends obey the law |
| Pacer.PacingLaw | edge/src/GexEdge/Throttling.cs:37-69 | in every run sends i to j number at most burst + rate times the time between them, refused attempts included |
| Pacer.GrantedExactly | edge/src/GexEdge/Throttling.cs:37-69 | in every run a message is let through if and only if the law allows one more: none is held back without need |
| Pacer.RefusedWaitIsExact | edge/src/GexEdge/Throttling.cs:51-53 | the wait computed on refusal is exactly long enough |
| Snapshots.FindWalls | core/internal/exposure/aggregate.go:272-288 | largest call and smallest put exposure, ties to the lowest strike; none for a side without contracts |
| Snapshots.Accumulate | core/internal/exposure/aggregate.go:88-208 | the pass fails exactly when a row cannot be priced, and else folds exactly the priced rows |
| Snapshots.TallyExact | core/internal/exposure/aggregate.go:116-196 | after any rows the book, every expiry and every class hold exactly their own sums, counts and points |
| Snapshots.Aggregate | core/internal/exposure/aggregate.go:88-253 | an error exactly when a row fails or none is left; else ascending curves of exact points, one row per pair by date and class, one per class by name, the walls |
| Snapshots.SnapshotUnique | core/internal/exposure/aggregate.go:210-253 | the priced rows of a chain determine its snapshot: curves, tables, walls |
| Snapshots.TablesInOrder | core/internal/exposure/aggregate.go:218-254 | expiries are in order of day and then of class, classes in order of name, both lexicographic |
| Positions.SnapshotIs | core/internal/exposure/aggregate.go:88-208 | every total, every point of every curve and every count is the sum over its own contracts with a day or more to go of what each is worth, calls counted long and puts short |
| Positions.WorthIs | core/internal/exposure/exposure.go:13-38 | what a contract is worth: open interest times gamma by spot squared, delta by spot, vanna by spot, charm by spot, each with its multiplier and hundredth |
| Positions.FailsIs | core/internal/exposure/aggregate.go:88-206 | a row makes the snapshot fail exactly if its date does not parse, or the solver refuses it, or refuses it at the volatility it quotes |
| Positions.WallsAre | core/internal/exposure/aggregate.go:256 | there is a call wall exactly if a call is priced, and a put wall exactly if a put is |
| Engine.OneSidedRegime | core/internal/exposure/aggregate.go:257 | a book of calls alone is in the positive regime, a book of puts alone is not |
| Conservation.GroupSum | core/internal/exposure/aggregate.go:116-196 | sums over distinct keys that cover the rows add up to the whole |
| Conservation.SnapshotBalanced | core/internal/exposure/aggregate.go:116-196 | in the book, every expiry and every class: strikes strictly ascend, net is call plus put, nets sum to the total |
| Conservation.SlicesConserveTotals | core/internal/exposure/aggregate.go:116-181 | GEX, DEX, VEX and CHEX each sum to the book's over expiries and, on a multi-class chain, over classes |
| Conservation.SlicesConserveCurve | core/internal/exposure/aggregate.go:121-196 | at every strike the curves of the expiries, and of the classes, add up to the book's in call, put and net |
| Engine.ComputeSnapshot | core/internal/exposure/aggregate.go:45-266 | surface, aggregates and flip together: every number the sum over its own contracts, at spot and at every point of the profile; conserved, with the right regime, a flip scan that agrees with the total, and the flip inside the sign change nearest to spot |
| Engine.FlatEngine | core/internal/exposure/aggregate.go:60-63 | on a flat smile the blended and the unblended engine give the same answer: the same error, or the same snapshot, flip included |
| VolBlend.LiveWeightRange | core/internal/volblend/volblend.go:88-101 | the live weight is in [0, 1]: one on the day of expiry, the term weight without a quote, a tenth of it for a stale or crossed quote, else the term weight times the spread factor |
| VolBlend.LevelBetween | core/internal/volblend/volblend.go:130-141 | the level lies between ATM volatility and anchor |
| VolBlend.LevelTowardsLive | core/internal/volblend/volblend.go:130-141 | no weight gives the anchor, full weight the live volatility, and more weight a level nearer to it |
| VolBlend.TermWeightFalls | core/internal/volblend/volblend.go:61-63 | the term weight falls with time, from one, and is nine tenths a week out |
| VolBlend.WideSpreadWeighsLess | core/internal/volblend/volblend.go:66-75 | at the same middle a wider spread weighs strictly less; 0.05 to 0.35 weighs 1/57.25 |
| VolBlend.WithoutReference | core/internal/volblend/volblend.go:130-136 | without a reference: the anchor, or the strike's own volatility blended with it in variance by the strike's own quote |
| VolBlend.UnquotedSkew | core/internal/volblend/volblend.go:137-147 | a strike without bid or ask gets the level times the ratio of its volatility to that at the money, clamped to a fifth and five times |
| VolBlend.QuotedSkew | core/internal/volblend/volblend.go:137-159 | a quoted strike keeps that ratio to the power 1 / (1 + 25 s²) of its relative spread s; a stale or crossed one keeps nothing of it |
| VolBlend.VarianceBetween | core/internal/volblend/volblend.go:106-110 | the square of the variance blend lies between the squares, above the floor |
| VolBlend.SkewBounded | core/internal/volblend/volblend.go:130-159 | the result is the level bent at most by the clamp; a crossed strike quote bends nothing |
| VolBlend.FlatCarrier | core/internal/volblend/volblend.go:130-159 | with live volatility equal to the anchor the anchor comes back |
| Surface.BlendedVols | core/internal/exposure/aggregate.go:386-485 | each row is blended with its own group's reference: the quoted strike nearest to spot, ties to the lower, its volatilities averaged |
| Surface.SurfaceDetermined | core/internal/exposure/aggregate.go:435-465 | the surface does not depend on the order of map iteration |
| Surface.GroupsNeverMix | core/internal/exposure/aggregate.go:386-433 | a row's group is quoted by the rows of its own expiry alone, and on a multi-class chain of its own class, so classes never blend |
| Surface.CallRepresents | core/internal/exposure/aggregate.go:424-432 | a strike has a quote exactly when one of its rows has: that of its last call with one, or of its first row with one if no call has |
| Surface.StrikeAverage | core/internal/exposure/aggregate.go:397-464 | a strike's volatility is the average over the quoted rows there of the same expiry and class |
| Surface.SurfaceKeepsSmile | core/internal/exposure/aggregate.go:467-484 | end to end, a quoted row without bid or ask gets the level of its own group at its own expiry times its ratio to the average at the money, clamped |
| Surface.UnquotedKeepsAnchor | core/internal/exposure/aggregate.go:467-484 | an expiry without quotes keeps its anchor |
| Surface.FlatSmile | core/internal/exposure/aggregate.go:386-485 | on a flat smile the surface is the anchor for every row with a day or more to go |
| Surface.FlatBook | core/internal/exposure/aggregate.go:60-110 | on a flat smile the blended book is priced, and fails, as the unblended one at every spot |
| Hedge.SampleVariance | core/internal/hedge/hedge.go:90-102 | defined exactly from two returns on; the centred squares over n - 1 |
| Hedge.SampleCovariance | core/internal/hedge/hedge.go:105-117 | defined exactly for series of equal length from two on; the centred products over n - 1 |
| Hedge.CovarianceBounded | core/internal/hedge/hedge.go:105-117 | the square of the covariance is at most the product of the variances |
| Hedge.CovarianceByPairs | core/internal/hedge/hedge.go:105-117 | n(n - 1) times the covariance is the sum, over all pairs of periods, of the products of what the two series moved between them |
| Hedge.Correlation | core/internal/hedge/hedge.go:129-147 | defined exactly when both series vary; it stays in [-1, 1] |
| Hedge.Beta | core/internal/hedge/hedge.go:150-163 | defined exactly when the benchmark varies; it solves the normal equation |
| Hedge.BetaIsLeastSquares | core/internal/hedge/hedge.go:150-163 | no other slope, with any intercept, has a smaller residual, and any other slope a larger one |
| Hedge.ExactLineBeta | core/internal/hedge/hedge.go:150-163 | an asset on a line over the benchmark has that line's slope |
| Garch.SigmaBarSquared | core/internal/garch/recursion.go:29-54 | an error exactly for a horizon below a day or invalid parameters; else the annualised mean of the daily variances |
| Garch.NextDay | core/internal/garch/recursion.go:36-45 | the variance after a rise, from the last one or the long run, and what a fall of the same size adds to it |
| Garch.RecursionIsMean | core/internal/garch/params.go:32-40 | the forward recursion is the mean of a fall and a rise as large as the variance |
| Garch.TotalClosed | core/internal/garch/recursion.go:45-53 | the loop's sum is n long-run variances plus the gap of the first day times the geometric sum |
| Garch.GeometricClosed | core/internal/garch/recursion.go:45-53 | the geometric sum in closed form |
| Garch.TermStructure | core/internal/garch/params.go:32-53 | mean variance is positive, between the first day and the long run, and moves strictly towards the long run |
| Garch.ConvergenceRate | core/internal/garch/recursion.go:45-53 | the remaining gap at every horizon, exactly |

## Left out

- TCP framing, JSON, the journal file, HTTP and SSE handlers, the GUI, TWS and CBOE calls: transport and unseen libraries.
- Option pricing and Greeks, Nelder-Mead fitting, synthetic generators, watchlists, schema and migrations.
- `AlignByDate`, `Returns`, `ComputeStats` and the sizing functions of the hedge package, `OiBatchTarget`: easy members.
- Floating point: rounding, overflow and the `MaxFloat64` sentinels; a first candidate always wins instead.
- Time zones and daylight saving: local time is days and nanoseconds.
- As-of stamps, counters, logs, data points, `lastPass`, the skew tables of the snapshot (only that they can fail is kept), SDTier, chain-level exchange.
- Ticker case: a ticker is one key; its hash is the parameter `slot`, and two tickers in one slot are not told apart.
- A chain event without baseline volatility, where the source asks the host: the event carries the resolved value.
- Ingest concurrency: each event is one step, although the source publishes a chain after releasing its lock.
- Exporter.StepKeeps: the exporter is a machine of values, not a method, because a crash or another client can come between any two of its steps; there is one exporter, as the server runs it, a crash loses no disk, and rows are written one at a time.
- SweepProtocol.StepKeeps: one edge; each core operation is one step with its push, although the source reads the roster and sends it under separate locks; "exactly one pass per click" is not claimed.
- SweepActors.EdgeFeed.FinishPass: what a pass does between start and end, and lines it holds, are not modelled.
- SubSet.EdgeFilter: the contracts the edge resolves are given and keep their order; it asks TWS for them and sorts them by expiry and strike.
- Store.Store.Flush: tasks that arrive during a flush are the parameter `late`; a task is a function of the database.
- Pacer.MsgPacer.TryAcquire: one turn of the waiting loop; the smoothed rate and cancellation are not modelled.
- Journal.JournalExact: live run and replay start from the same books and watchlist and handle a discovery on the same day; the replay's lagging clock, changes of the watchlist in between, and spot-only subscriptions are not modelled.
- Brent.FindRoot: the documented stop at a value below 1e-9 is not in the code, which tests for zero, and neither here.
- Snapshots.Aggregate: the tables are in order of day, which is the order of their eight-digit dates.
