# Bizboard verification models

Dafny models of the parts of Bizboard that carry state, arithmetic or concurrency, with proofs of what those
parts promise. `dafny verify dfyconfig.toml` checks everything.

## What is modelled

**Stock cost layers** (`Amounts`, `StockLedger`, `LedgerLaws`, `LedgerRuns`, `LedgerDrift`, `LedgerValue`). One stock
key (warehouse, product, batch) of a company on FIFO valuation: receipts add a layer, sales peel the oldest layers, a
sales return puts units back on the layers its sale peeled, and a cancelled return takes them out again. Quantities
are counted in thousandths, the smallest unit the stored decimals hold; costs are exact numbers. `StockLedger.Ledger` is the class
whose methods change the layers; its specification functions work on a value of the same state, and the laws are
proved about runs of those: first quantities, then how far layers and stock on hand drift apart once a cancel finds
units gone, then the value of the layers and the cost that a return reverses.

**Load drivers** (`PacedLog`, `LoadRun`, `LoadLimits`, `SetupAndArrivals`). The k6 scripts as a timed machine: each
virtual user begins an iteration, sends a request, and sleeps; writers share one iteration counter and a draft pool;
readers and writers share a table of sessions. A run is any interleaving of these steps with any response times. The
promises in the comments about server limits are theorems over all runs and all windows. `pool_compare.py` signs in
the way `SetupAndArrivals.MixedSetup` does.

**Two-step codes** (`Bits`, `Decimals`, `Base32`, `Base32Value`, `Totp`). The base32 decoder and the time-based code of
`month_end.js`, with JavaScript's 32-bit operators written out on bit lists, against section 6 of RFC 4648, section
5.3 of RFC 4226 and section 4.2 of RFC 6238.

**Register rebuild** (`RegisterRows`, `Readiness`, `Decision`, `Text`, `FlowLinks`, `Register`, `ReviewColumns`,
`RegisterGate`, `Sheets`). The register script reads the file it wrote, restores priorities, checks notes against absent mechanisms,
records decisions, derives readiness columns and links the steps of a flow in place. `ReviewColumns` says what every
column of a rebuilt row holds, from the inputs alone. A separate gate compares claims with product code, and three
sheets count and list open claims.

**Evidence merge** (`EvidenceMerge`, `EvidenceFile`, `Text`). JUnit results merged into the evidence file through the
test map; `EvidenceFile` says cell by cell what the file then holds.
`Sorting` is Python's stable sort, used here, for the steps of a flow, for the listed claims and for percentiles;
`Rounding` is its rounding half to even; `Arithmetic` holds the products and quotients that several proofs need.

**Pool comparison** (`PoolWorkers`, `Percentile`). Worker threads that record timings and errors under a lock, as a
machine whose steps are single reads and writes, and the percentile that is printed afterwards.

## What the proofs found

- A return that is cancelled after units it put back were sold again leaves the cost layers holding more than is on
  hand; the balance survives a cancel exactly when everything the return put back is still on its layers
  (`LedgerLaws.CancelKeepsExactly`, with the smallest such history in `LedgerRuns.ResoldUnits`). In all other
  histories the layers hold exactly what is on hand and, where stock may go negative, what was sold without any.
- After such a cancel the layers can also fall short, because a unit that was put back twice fills a layer that another
  return then finds whole. In `LedgerDrift.ResaleFails` a return within what was sold is accepted without putting a
  unit anywhere, cancelling it at once takes a unit out of a layer, and in the end four units are on hand that cannot
  be sold for want of layers; `LedgerValue.ResaleReverses` shows the cost of a unit reversed with no value put back.
- In every history the difference is exactly the units that cancels could not take out less those that returns could
  not put back (`LedgerDrift.RunDrift`); where stock may not go negative, all that is on hand can be sold exactly when
  the latter are no more than the former (`LedgerDrift.AllSellable`). A sale, a return and a straight cancel do what
  they promise exactly as `LedgerLaws.SaleExactly`, `LedgerLaws.ReturnPuts` and `LedgerRuns.CancelStraightAway` say.
- The reconciliation rule, layers equal to stock on hand or zero, holds without such a cancel exactly when nothing was
  ever sold without stock or the layers are empty (`LedgerRuns.ReconcilesExactly`); two units sold without stock and
  five received already break it (`LedgerRuns.ShortThenReceived`).
- Value on the layers is off by exactly what cancels leave stuck (`LedgerValue.RunValue`), so nothing is lost or made
  up without such a cancel (`LedgerValue.RunConservesValue`). A return reverses the cost of a sale at the sale's stamped
  unit cost; that is the value it puts back, whatever part comes back next, exactly when every unit that finds a place
  again cost just that, and each finds one or the cost is zero (`LedgerValue.RunReversalExactly`).
- `load/README.md` asks for `COMPLETES_PER_MIN` at or under 60. The writers stay within 60 completions in every
  minute exactly up to 56, unless no login signs in or the pool has at most 60 drafts at all; from there to 60 they
  can reach 63 (`LoadLimits.CompleteLimitExact`).
- Each invoice is completed at most once exactly when the pool lists no id twice and an empty pool has no
  single-draft fallback (`LoadRun.OnceExactly`).
- A login stays within 100 requests in 10 seconds exactly when 25 times its readers and its writers' ten-second share
  add up to at most 100 (`LoadLimits.LoginLimitExact`); of readers alone it can serve four
  (`LoadLimits.SharingExact`). The setup timeout is enough for any number of logins exactly when a sign-in takes at
  most two seconds (`SetupAndArrivals.SetupFitsExact`); the login limit needs a gap of at least six seconds
  (`SetupAndArrivals.SignInGapExact`).
- A second rebuild reproduces the twelve stored columns always, but the derived columns of a row exactly when it is
  an added flow row, its stored priority was already the one its phrases or its authored priority give, or both its
  authored and its pre-review priority are on record (`Register.DerivedColumnsAgain`).
- The previous priority is read back from a decision sentence exactly when it has no space and no full stop
  (`Decision.RecoversExactly`); base32 symbols survive decoding and encoding exactly when fewer than five bits are
  left over and they are zero (`Base32.ReencodeExact`).

## Model

| member | source | states |
|---|---|---|
| StockLedger.Ledger.Receive | backend/inventory/services.py:698-732 | a receipt adds one layer of its own quantity and cost and raises stock on hand; a zero quantity is refused and changes nothing |
| StockLedger.Ledger.Issue | backend/inventory/services.py:738-794 | a sale leaves the state that the value-level sale gives: stock and layer refusals change nothing, otherwise the oldest layers are peeled and the peels, the shortfall and the cost are recorded |
| StockLedger.Ledger.TakeBack | backend/inventory/services.py:843-920 | a return leaves the state of the value-level return: refused beyond what was sold, otherwise put back on the peeled layers, the rest on a new layer |
| StockLedger.Ledger.Cancel | backend/inventory/services.py:814-841 | a cancel leaves the state of the value-level cancel: an unknown, repeated or uncovered one is refused, otherwise each layer loses what the return put there as far as it still has it, or without such detail what the estimate says |
| StockLedger.Peel | backend/inventory/services.py:741-763 | the peeling loop takes from each layer what is still needed, leaves the rest, and totals quantity and cost |
| StockLedger.Restore | backend/inventory/services.py:868-910 | the restoring loop puts on each layer the least of what is left, what is owed to it and what makes it whole |
| StockLedger.UndoDetail | backend/inventory/services.py:828-841 | the loop over the recorded detail takes out of each layer the least of what was put there and what is left |
| StockLedger.UndoPeels | backend/inventory/services.py:941-975 | the fallback loop, last peeled layer first, takes of each layer the least of what is left to undo, its peel and what it still holds |
| LedgerLaws.DetailDecides | backend/sales/return_service.py:604-607 | where the laws hold every return has detail, so no cancel falls back on the estimate |
| LedgerLaws.ReceiptKeeps | backend/inventory/services.py:698-732 | a receipt keeps all laws of the ledger |
| LedgerLaws.SaleKeeps | backend/inventory/services.py:738-794 | a sale, with or without enough stock, keeps all laws |
| LedgerLaws.SaleExactly | backend/inventory/services.py:228-236 | in every state: where stock may not go negative a sale passes exactly when stock on hand and layers both cover it, is refused for stock exactly when that is short, and for layers exactly when only they are |
| LedgerLaws.SaleGoesThrough | backend/inventory/services.py:228-236 | where the laws hold and stock may not go negative, a sale passes exactly when enough is on hand, and is never refused for missing layers |
| LedgerLaws.PlaceForAll | backend/sales/cogs_service.py:506-545 | where the laws hold every unit that may still be returned has a place on the layers of its sale or among its shortfall |
| LedgerLaws.ReturnPuts | backend/inventory/services.py:868-911 | in every state a return puts back as many units as find a place, so all it brings if and only if the layers of its sale have room for what is owed to them, up to its shortfall |
| LedgerLaws.ReturnPutsAll | backend/inventory/services.py:868-911 | where the laws hold a return within what was sold puts back exactly the quantity it brings |
| LedgerLaws.RoomForOwed | backend/inventory/services.py:885-891 | where the laws hold a layer has room for everything owed to it, so the cap on the original quantity never bites |
| LedgerLaws.ReturnKeeps | backend/inventory/services.py:843-920 | a return keeps all laws: each received layer lacks exactly what is owed to it |
| LedgerLaws.CancelKeepsExactly | backend/inventory/services.py:814-841 | a cancelled return keeps the laws if and only if everything it put back is still on its layers |
| LedgerRuns.RunKeepsLaws | backend/tests/test_sales_returns_fix.py:635-687 | after every run without such a cancel every layer is exact and the layers hold what is on hand plus what was sold without stock |
| LedgerRuns.FirstBreak | backend/inventory/services.py:814-841 | the laws break at the first cancel of resold units and at no other movement |
| LedgerRuns.NeverAboveOriginal | docs/FREEZE_SCOPE_COVERAGE.md:400 | in every run at all, no layer ever holds more than its original quantity |
| LedgerRuns.RunSound | backend/inventory/services.py:698-975 | in every run, whatever is cancelled, sales add up to what they took and sold without stock, returns name known sales, record no more than they bring and stay within what was sold, and blocked stock is never negative |
| LedgerRuns.SalesKnowTheirLayers | backend/inventory/services.py:741-763 | in every run, whatever is cancelled, a sale lists no layer that does not exist |
| LedgerRuns.ReconcilesExactly | backend/core/invariants/inventory.py:86-116 | after a run without such a cancel the layers hold stock on hand or zero if and only if nothing was ever sold without stock or the layers are empty; so always where stock may not go negative |
| LedgerRuns.ShortThenReceived | backend/core/invariants/inventory.py:111-115 | two units sold without stock and five received leave five in the layers with three on hand, against that rule |
| LedgerRuns.ReturnUndoesSale | backend/inventory/services.py:843-920 | in every run, whatever was cancelled, returning a whole sale at once gives back every layer as it was, and for what was sold without stock a new layer at the cost that shortfall was sold at |
| LedgerRuns.CancelStraightAway | backend/sales/return_service.py:588-635 | in every run cancelling a return straight after it passes, and gives back every layer as it was if and only if the return put something back or the layers of its sale are empty |
| LedgerRuns.CancelUndoesReturn | backend/sales/return_service.py:588-605 | so it always does in a run without a cancel of resold units |
| LedgerRuns.FirstInFirstOut | backend/inventory/services.py:738-794 | seen as one queue of units, a sale takes its front, leaves the rest in order, and is costed unit by unit, oldest first |
| LedgerRuns.ShortIsCosted | backend/inventory/services.py:764-780 | in every state each unit sold without stock is costed at the layer of the last unit served, where one was and its cost is positive, and otherwise at the given price |
| LedgerRuns.ReceiptQueues | backend/inventory/services.py:698-732 | a receipt puts its units at the end of the queue at its own cost and changes nothing else but stock on hand |
| LedgerRuns.ReturnExactly | backend/inventory/services.py:843-867 | in every state a return is refused exactly for a zero quantity, an unknown sale or more than is left of the sale |
| LedgerRuns.ReturnPlaces | backend/inventory/services.py:868-920 | in every state a return fills the rooms of the layers of its sale oldest first, a room being what is owed to the layer or what makes it whole, whichever is less, then a new layer up to the shortfall and at its cost, and records just that |
| LedgerRuns.CancelExactly | backend/inventory/services.py:814-827 | in every state a cancel is refused exactly for an unknown or cancelled return or, where stock may not go negative, for too little on hand; it takes the quantity off hand and the return out of force |
| LedgerRuns.CancelTakes | backend/inventory/services.py:828-975 | in every state a cancel takes of each layer what the return is recorded to have put there, as far as it is still there; without such a record it takes what the return brought beyond the shortfall, as far as the peeled layers still hold their peels, the latest first |
| LedgerRuns.ResoldUnits | backend/inventory/services.py:837-839 | a run in which a cancel leaves four units in the layers with one on hand |
| LedgerDrift.RunDrift | backend/inventory/services.py:698-975 | in every run the layers hold stock on hand and what was sold without any, plus the units cancels could not take out, minus those returns could not put back |
| LedgerDrift.CleanRunsDoNotDrift | backend/inventory/services.py:814-841 | without a cancel of resold units both are zero |
| LedgerDrift.AllSellable | backend/inventory/services.py:228-236 | where stock may not go negative, everything on hand can be sold if and only if returns could not put back no more units than cancels could not take out |
| LedgerDrift.ReconcilesInEveryRun | backend/core/invariants/inventory.py:86-116 | in every run the reconciliation rule holds if and only if, with stock on hand, the shortfall and the stuck units make up for those not put back, and otherwise the layers are empty |
| LedgerDrift.ResaleFails | backend/inventory/services.py:885-891 | a run after which an accepted return puts nothing back, its cancel takes a unit from a layer, and stock on hand cannot be sold for missing layers |
| LedgerValue.RunValue | backend/inventory/services.py:698-975 | over every run, value received, value put back and value left stuck by cancels equal the value on the layers and the cost of the units peeled |
| LedgerValue.RunConservesValue | backend/inventory/services.py:698-920 | over every run without a cancel of resold units nothing is stuck |
| LedgerValue.ReturnValue | backend/inventory/services.py:868-920 | in every run a return puts back the value of the first units of its sale that find a place again, as many as do |
| LedgerValue.RunReversalExactly | backend/sales/cogs_service.py:506-540 | in every run the reversal at the sale's stamped unit cost equals the value put back, for every part that may come back next, if and only if every unit that finds a place cost that, and each finds one or the cost is zero |
| LedgerValue.UnreturnedReversal | backend/sales/cogs_service.py:506-540 | without a cancel of resold units and with nothing of the sale returned, that means one cost in four places for all its units |
| LedgerValue.EveryReturnMatches | backend/sales/cogs_service.py:506-540 | in every run, in a sale of one unit cost in four places, a return puts back its value at the stamped cost if and only if all it brings finds a place, or that cost is zero |
| LedgerValue.ResaleReverses | backend/sales/cogs_service.py:531-540 | a run after which an accepted return reverses the cost of a unit and puts back no value |
| LedgerValue.StampWithin | backend/inventory/services.py:789-792 | in every run the reversal of a whole sale differs from the cost of its units by at most 0.00005 for each |
| LoadRun.RunKeeps | load/k6_mixed.js:129-185 | every state of every interleaving keeps the pacing and the draft accounting: each claimed draft is held by one user or posted once |
| LoadRun.BeginExactly | load/k6_mixed.js:135-176 | an iteration gets ready exactly when there is a session and, for a writer, the pool has its number or there is no pool but a fallback; a writer uses up a number in any case, and an iteration with nothing to do pauses |
| LoadRun.EachDraftOnce | load/k6_slo.js:192-225 | with a pool, each posted draft is the one of its iteration, no iteration is posted twice, none beyond the claimed part, never the fallback, and all claimed ones once users are idle |
| LoadRun.OnceExactly | load/k6_slo.js:199-220 | no run completes an invoice twice if and only if the pool has distinct ids and no fallback backs an empty pool |
| LoadRun.RunPaced | load/k6_mixed.js:162-185 | in every run the requests of one user are at least its pause apart |
| LoadRun.LogRuns | load/k6_mixed.js:129-185 | conversely, any events of which each user's are at least its pause apart are exactly the requests of some run, as long as drafts last |
| LoadRun.RunLimitExact | load/k6_mixed.js:162-185 | users stay within a limit in every window of every run if and only if the sum over them of ceil(width / pause) does, given drafts enough to exceed it |
| PacedLog.WindowBound | load/k6_mixed.js:28-30 | any half-open window of a paced log holds at most ceil(width / pause) events per user |
| LoadLimits.CompletesPerMinute | load/k6_mixed.js:28-30 | for every whole COMPLETES_PER_MIN any 60 seconds of any run hold at most that many completions plus six: 56 for the default of 50 |
| LoadLimits.WritePauseExactly | load/k6_mixed.js:183-184 | the pause is at least two seconds, keeps seven writers at or under the pace, and is the least that does both |
| LoadLimits.CompleteLimitExact | load/k6_mixed.js:28-30 | every run keeps the 60-per-minute promise if and only if the pace is at most 56, no login signs in, or the pool has at most 60 drafts |
| LoadLimits.LoginLoad | load/k6_mixed.js:129-133 | login s serves exactly ceil((users - s) / logins) users, so at most ceil(users / logins) |
| LoadLimits.RequestsPerLogin | load/k6_mixed.js:12-14 | any 10 seconds of any run put at most 25 requests per sharing user on a login |
| LoadLimits.OneLoginEach | load/k6_mixed.js:12-15 | with a login per user every login serves one user and gets at most 25 requests in 10 seconds, below 100 |
| LoadLimits.LoginLimitExact | load/k6_mixed.js:12-15 | a login that serves readers and writers respects the API limit in every run if and only if 25 times its readers and its writers times ceil(10 / pause) is within it, given drafts enough to exceed it |
| LoadLimits.SharingExact | load/k6_mixed.js:12-15 | readers respect the API limit on every login in every run if and only if at most four share a login |
| SetupAndArrivals.MixedSetup | load/k6_mixed.js:119-127 | setup signs in one login after the other with the gap between, returns their sessions in order, and stops at the first failure |
| SetupAndArrivals.MonthEndSetup | load/month_end.js:175-195 | the month-end setup signs in every tenant and then the invoice account at the stated times, or fails when one gives no session |
| SetupAndArrivals.NineSignIns | load/k6_mixed.js:119-127 | with the 7-second gap any minute of setup holds at most nine sign-ins, whatever each takes |
| SetupAndArrivals.SignInGapExact | load/k6_mixed.js:119-127 | setup keeps every minute to ten sign-ins, for any number of logins and whatever each takes, if and only if the gap is at least six seconds |
| SetupAndArrivals.SetupFitsExact | load/k6_mixed.js:34 | setup ends within its timeout for any number of logins if and only if each sign-in takes at most two seconds |
| SetupAndArrivals.TimeoutExactly | load/k6_mixed.js:34 | the timeout is the least whole number of seconds that leaves a minute beyond two seconds and the gap for each login, at least one |
| SetupAndArrivals.MonthEndFits | load/month_end.js:104-106 | the month-end setup fits its timeout with and without the invoice account |
| SetupAndArrivals.SessionsOneToOne | load/month_end.js:205-208 | n consecutive user ids take the n sessions one each, the first n in order |
| SetupAndArrivals.ArrivalsInside | load/month_end.js:209-210 | every arrival falls in the first nine tenths of the window, the i-th of n after i n-ths of them |
| SetupAndArrivals.EvenArrivals | load/month_end.js:209-210 | a window holds at most ceil(width * n / (0.9 * duration)) arrivals, and inside the arrival time at least the floor of that |
| Base32.Base32Bytes | load/month_end.js:59-71 | the decoding loops give the decoded bytes, or the error for a foreign character |
| Base32.RoundTrip | load/month_end.js:59-71 | decoding the RFC 4648 section 6 encoding of any bytes gives the bytes back |
| Base32.DecodeOutcome | load/month_end.js:62-67 | decoding fails exactly on a character that is not ignored and whose upper case leaves the alphabet, and n symbols give floor(5n/8) bytes |
| Base32.DecodeIgnoresLayout | load/month_end.js:62 | for every character, writing its upper case instead, or leaving it out when it is white space or padding, does not change the result |
| Base32Value.DecodedNumber | load/month_end.js:59-71 | a secret of ASCII characters is decoded exactly when each is space, tab, line feed, vertical tab, form feed, carriage return, the padding sign, a letter or a digit from 2 to 7; n symbols give floor(5n/8) bytes that write the number of the symbols, A as 0 to 7 as 31, without its last 5n mod 8 bits |
| Base32Value.BeyondAscii | load/month_end.js:62-66 | of the characters beyond ASCII the white space is left out, ten are spelled out by their upper case, and any other is refused |
| Base32.ReencodeExact | load/month_end.js:59-71 | encoding the decoded bytes gives the symbols back if and only if fewer than five bits are left over, all zero |
| Totp.CounterBytes | load/month_end.js:73-79 | the loop writes the number of whole 30-second steps big-endian in eight bytes |
| Totp.TruncateIsRfc | load/month_end.js:81-82 | the masked, shifted and or'd word is the big-endian four-byte number at the offset with its top bit cleared, as section 5.3 of RFC 4226 asks |
| Totp.SixDigitCode | load/month_end.js:83 | padding writes every value below a million in exactly six digits that denote it |
| Totp.Totp | load/month_end.js:73-84 | the code is six digits that denote the truncated HMAC of the time step modulo a million, and a bad secret is refused |
| Decision.RecoversExactly | scripts/improve_enhanced_task_register.py:305-321 | the previous priority read back from a change sentence is the one written if and only if it has no space and no full stop |
| Decision.DecisionKinds | scripts/improve_enhanced_task_register.py:1073-1080 | a row is listed as changed, counted as kept, or Unchanged exactly by how the three priorities compare |
| Decision.ChangeIsVisible | scripts/improve_enhanced_task_register.py:305-321 | a decision about a change never reads like one about no change |
| FlowLinks.LinkFlowDependencies | scripts/improve_enhanced_task_register.py:432-443 | the in-place pass gives every numbered row without a preset the id of its previous step, and changes nothing else |
| FlowLinks.LinkExactly | scripts/improve_enhanced_task_register.py:432-443 | a row without a preset gets the id of the row just before it among the rows of its flow whose step is one or more digits, ordered by number and then by place; a row with a preset or with none before it is unchanged |
| FlowLinks.DependsOnNextLower | scripts/improve_enhanced_task_register.py:432-443 | with distinct steps a row depends on exactly the next lower step; first steps and unnumbered rows are unchanged |
| FlowLinks.LinkingAgain | scripts/improve_enhanced_task_register.py:432-443 | linking a linked register changes nothing |
| FlowLinks.OrderDoesNotMatter | scripts/improve_enhanced_task_register.py:432-443 | the dependency a row gets does not depend on the order of the rows |
| FlowLinks.WalksGoBack | scripts/improve_enhanced_task_register.py:432-443 | every path of dependencies goes strictly back in its flow, so there is no cycle and the step falls each time |
| FlowLinks.WalkToFirst | scripts/improve_enhanced_task_register.py:432-443 | from every numbered row dependencies visit exactly the earlier steps and end at the first |
| Register.RefreshRows | scripts/improve_enhanced_task_register.py:369-371 | stored rows are replaced by their flow rows and the ids present are collected |
| Register.CurrentRows | scripts/improve_enhanced_task_register.py:369-374 | flow rows that are not stored yet are appended in table order |
| Register.CurrentExactly | scripts/improve_enhanced_task_register.py:369-374 | under review are the stored rows in their places, each replaced by the last flow row of its id if there is one, and then, in table order, the flow rows whose id is not stored |
| Register.LoadRows | scripts/improve_enhanced_task_register.py:324-417 | the loading loop and the in-place linking give the rebuilt register |
| Register.CodeSymbolExactly | scripts/improve_enhanced_task_register.py:221-229 | the reported symbol is in the note and the code and no other such symbol is longer; none is reported exactly when there is none |
| Register.FirstAbsent | scripts/improve_enhanced_task_register.py:286-292 | the audit message is that of the first listed token the text names |
| Register.FindingExactly | scripts/improve_enhanced_task_register.py:266-302 | when a row becomes Partial, Mechanism not found or keeps its status, as conditions on its id and text; a hand-checked row gets the checked note, audit message and category, any other keeps its note and category |
| Register.AuditExactly | scripts/improve_enhanced_task_register.py:286-302 | a row that is not hand-checked gets the message of the first absent mechanism it names, else of the first wrong one, else the sentence about the first of its longest code symbols |
| ReviewColumns.PriorityColumns | scripts/improve_enhanced_task_register.py:385-400 | the authored column is the workbook entry, else the last flow row of the id, else the table entry, else the stored one; the priority is P3 on a polish phrase in any case of letters, else P0 on a statutory one, else authored; the decision is the sentence, with the priorities in their places, for how the three compare |
| ReviewColumns.FindingColumns | scripts/improve_enhanced_task_register.py:396-402 | of the stored columns only category, priority, status and note change, to those of the finding, and a decision other than Unchanged is added to the audit note |
| ReviewColumns.GateExactly | scripts/os_readiness.py:156-162 | the gate is MVP if and only if the priority is P0, and Pilot if and only if it is P1 with a run or control category that is no vertical one and a kind other than D, SaaS, UX and I |
| ReviewColumns.CriticalityExactly | scripts/os_readiness.py:136-153 | which categories, kinds and priorities make a row Critical, High, Medium or Low |
| ReviewColumns.DerivedColumns | scripts/os_readiness.py:61-237 | every derived column of a reviewed row as conditions on its reviewed columns, its outcome and its evidence cells |
| ReviewColumns.PlaceColumns | scripts/improve_enhanced_task_register.py:231-264 | the slice, the scope and the flow placement of a reviewed row, from its id, kind, persona and reviewed category |
| ReviewColumns.RebuiltRow | scripts/improve_enhanced_task_register.py:385-417 | row i of the rebuilt register is the reviewed current row i but for its link, and with a preset it is that row |
| Register.PrioritySheets | scripts/improve_enhanced_task_register.py:1073-1080 | a row counts as kept exactly when a polish or statutory phrase moved it from its authored priority to the very one it had, and is listed as changed exactly when its previous priority is not the one the phrases give |
| Register.ReviewedTaskAgain | scripts/improve_enhanced_task_register.py:384-396 | reviewing a reviewed row gives the same twelve columns and the same finding |
| Register.RebuildIsFixed | scripts/improve_enhanced_task_register.py:324-417 | rebuilding the rebuilt register gives the same twelve columns, row for row |
| Register.DerivedColumnsAgain | scripts/improve_enhanced_task_register.py:380-417 | a second run reproduces every column of a row if and only if the row is settled |
| Register.CurrentIds | scripts/improve_enhanced_task_register.py:369-374 | the ids under review are the stored ones and those of the flow rows |
| Register.IdsStayDistinct | scripts/improve_enhanced_task_register.py:369-374 | distinct ids stay distinct |
| Register.NoDependencyCycle | scripts/improve_enhanced_task_register.py:416-443 | without hand-set dependencies no chain of dependencies in a rebuilt register meets a row twice |
| RegisterGate.TokensInProduct | scripts/check_register_claims.py:48-65 | the nested loops find a word if and only if it is one of the seventeen and a readable file contains it whose suffix is .py, .ts, .tsx, .js or .jsx and none of whose directories is __pycache__, node_modules, migrations, .venv or venv |
| RegisterGate.Check | scripts/check_register_claims.py:68-94 | the gate reports, in order, one problem for each row that says Mechanism not found of a word in the code or is marked supported with a word that is not, naming its id, status and those words; it exits 0 exactly when there is none |
| RegisterGate.CleanExactly | scripts/check_register_claims.py:68-94 | the gate is clean if and only if every row's claim agrees with the tokens found |
| RegisterGate.SupportedNamesNone | scripts/improve_enhanced_task_register.py:286-292 | a rebuilt row with a supported status names no absent mechanism in its action or note |
| RegisterGate.OnlyCartSession | scripts/check_register_claims.py:85-90 | on a rebuilt register the gate can blame a supported row for CartSession alone |
| Sheets.CapabilityEvidence | scripts/os_readiness.py:598-616 | the list holds a line for each open row, sorted by id |
| Sheets.GapDecisions | scripts/os_readiness.py:808-838 | the list holds a line with its next step for each open row, sorted by id |
| Sheets.EvidenceListed | scripts/os_readiness.py:598-616 | the evidence list has one line for each Partial or Mechanism not found row, by id and then place, with its action, status, code evidence and the action for its status |
| Sheets.DecisionsListed | scripts/os_readiness.py:808-838 | the gap list has the same rows in the same order, each with the advice for S-0561, for SEC-0624, or for its status |
| Sheets.ListsAgree | scripts/os_readiness.py:598-838 | both lists hold the same ids in the same ascending order, those of the open rows |
| Sheets.WorkStatusIsOpen | scripts/os_readiness.py:165-172 | on a reviewed row the work status is Gap or Built - partial exactly when the status is Mechanism not found or Partial |
| Sheets.CountsAgree | scripts/os_readiness.py:861-865 | MVP, Pilot and Later add up to all rows, Gap and Built - partial to the open ones |
| Sheets.SheetsAgree | scripts/os_readiness.py:598-865 | on a rebuilt register the gate counts add up to its rows, and both lists have exactly as many lines as rows counted Gap or Built - partial, with the same ids in ascending order |
| EvidenceMerge.LoadMapExactly | scripts/apply_pytest_evidence.py:30-38 | each test is mapped once, to the id on its last line, and blank cells map nothing |
| EvidenceMerge.JunitResults | scripts/apply_pytest_evidence.py:41-58 | the loop gives each name and node the outcome of the last case that answers to it, as `EvidenceMerge.ResultsAreReal` spells it |
| EvidenceMerge.MergeResults | scripts/apply_pytest_evidence.py:69-85 | the merge loop stamps each row with the last mapped test of its id that ran and counts the stamps |
| EvidenceMerge.Apply | scripts/apply_pytest_evidence.py:61-94 | the whole command writes the merged rows, or nothing without a mapped test |
| EvidenceFile.MapExactly | scripts/apply_pytest_evidence.py:30-38 | a test is mapped to a task if and only if the last line whose trimmed cells map it, neither blank, maps it there |
| EvidenceFile.MapOrder | scripts/apply_pytest_evidence.py:30-38 | the mapped tests come in the order of the first lines that map them |
| EvidenceFile.FileExactly | scripts/apply_pytest_evidence.py:61-92 | every line afterwards has just the ten columns; its test, day, CI and result are those of the deciding case, Skipped, Fail or Pass, and where no mapped test ran and in the other columns it is the last line the file had for the task |
| EvidenceFile.FileTasks | scripts/apply_pytest_evidence.py:66-92 | the tasks in the file afterwards are those with a line before and those with a mapped test in the report |
| EvidenceMerge.ResultsAreReal | scripts/apply_pytest_evidence.py:73-85 | a row changes exactly when a mapped test of its id ran, to Skipped if the last case of the last such test was skipped, to Fail if it failed and was not, to Pass if neither, and every other column survives; a case is known by its name and by class::name |
| EvidenceMerge.UpdatedExactly | scripts/apply_pytest_evidence.py:73-85 | the reported count is the number of mapped tests with a case in the report |
| EvidenceMerge.OneRowEach | scripts/apply_pytest_evidence.py:61-92 | where a test is mapped the file has one row for each id, in strictly ascending order, none blank; otherwise the command leaves the file alone |
| EvidenceMerge.RunAgain | scripts/apply_pytest_evidence.py:61-94 | running the command again with the same map, report and day leaves the file as it is |
| Percentile.PctExactly | load/pool_compare.py:55-60 | for q from 0 to 100 the percentile is the only value of the list with at most k values below it and more than k up to it, k being the index nearest to q hundredths of the way, the even one on a tie; of no values there is none |
| Percentile.RankExactly | load/pool_compare.py:59 | for q from 0 to 100 the rank is the only k with 100k within 50 of q times n - 1, even at exactly 50 |
| Percentile.PctMonotone | load/pool_compare.py:55-60 | a higher percentile is never smaller |
| Percentile.PctPermutes | load/pool_compare.py:55-60 | the order of the values does not matter |
| Percentile.PctEnds | load/pool_compare.py:59 | at 0 and below it is the least value, at 100 and above the greatest |
| Rounding.RoundExactly | load/pool_compare.py:59 | the rounded rank is the only integer within a half that is even when exactly a half away |
| Rounding.QuantizedExactly | backend/inventory/services.py:791 | the stamped cost is the only number of four places within half a place, the even one when exactly half a place away |
| PoolWorkers.RunKeeps | load/pool_compare.py:82-111 | every state of every interleaving keeps the lock, the tables, the counts and the turns |
| PoolWorkers.OneAtATime | load/pool_compare.py:101-106 | no two threads are inside the locked section at once |
| PoolWorkers.TablesExactly | load/pool_compare.py:101-106 | at every moment timings and errors hold exactly the records written, none lost to a concurrent update |
| PoolWorkers.TablesAre | load/pool_compare.py:101-106 | an endpoint's times are those of its answered records in the order written, and the count of an error is the number of records refused with that code at that endpoint |
| PoolWorkers.RunExactly | load/pool_compare.py:85-100 | in every interleaving thread t asks endpoints t, t + 1, ... modulo three in turn, and each response received is that of its thread's last request |
| PoolWorkers.AllAccounted | load/pool_compare.py:108-126 | once all threads stopped, every request was recorded once, the printed total is the number asked, and the exit code is 1 exactly when a response was refused |
| PoolWorkers.AttemptsLevel | load/pool_compare.py:88-93 | requests on any two endpoints never differ by more than the number of threads |
| PoolWorkers.NeverStuck | load/pool_compare.py:87-106 | until all threads have stopped some thread can take a step |

## Left out

- LoadRun.RunLimitExact: which users can exceed a limit once the pool has run dry is said only for the completions of the soak, in `LoadLimits.CompleteLimitExact`.
- LoadLimits.LoginLimitExact: the converse is stated for pools of more than 100 drafts.
- Decision.RecoversExactly: stated for final priorities without space and full stop, as P0 to P3 are.
- Register.RebuildIsFixed: stated for a flow table with distinct ids, as the table in the repository has.
- FlowLinks.WalksGoBack: stated for rows without dependencies set by hand, which may form any chain.
- StockLedger.Ledger.TakeBack: one sale movement on one stock key; how a return is split over several sale movements of an invoice is not modelled, and the check of quantity sold stands for the callers' line accounting.
- Stock: reservations, batch expiry and quality holds, weighted-average running cost, retiring the layers of a specific receipt and row locks. The quotient behind a stamped unit cost is exact before it is rounded to four places.
- HMAC-SHA-1 is a parameter; cookies, CSRF, HTTP and JSON are not modelled.
- Times and durations are exact numbers; floating-point rounding is not modelled. In the Python scripts non-ASCII digits, letters and white space are not; the base32 decoder is exact for every character.
- The k6 executors: ramping stages, interrupted iterations and constant-arrival-rate scheduling; users are the ones of the peak and may act in any order. Of `read` only its one request and pause are modelled.
- Reading environment variables and CSV, XML and Excel files; the filled workbook and the product code reach the model as already read values.
- Regular expressions: the identifiers in a note are a parameter, and so are the audit messages listed beside the tokens; so is the register slice of an id, whose number parse can raise an error.
- The readiness columns of persona role and the four constant columns, workbook styling and all other sheets.
- The gate's and the merge's printed messages; a problem carries its row, status and tokens instead.
- Medians, rates and rounding in the printed summary of the pool comparison.
