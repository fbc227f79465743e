# Electricity meter billing: a Dafny model of the billing core

The application records readings of a two-tariff electricity meter. HT is the
high tariff and NT the low tariff. A reading is either open or billed. The
application also keeps price configurations and bills periods between two
readings to another party, who pays a share of the base fee. This project models the billing core:

- `calculatePeriodCost` (lib/billing.js): the cost of the period between two
  readings. The cost is the energy used at the HT and NT prices, plus a share
  of the monthly base fee for every calendar month the period crosses. The
  amounts are rounded the way `toFixed` rounds them. Module `Billing`.
- The billing lifecycle (lib/billing-status.js), in module `BillingStatus`:
  - the open readings;
  - validation of a proposed period;
  - the two suggested periods ("all open", "last 3 months") starting at the
    anchor reading;
  - committing a bill period, which marks the readings it covers as billed;
  - the billing history.
- The one-time migration (prisma/migrations/mark-existing-billed.js). It marks
  every reading but the newest as billed. Module `Migration`.
- The dashboard data (app/page.js `getDashboardData`): one chart entry per pair
  of consecutive readings, priced at the newest tariff. Module `Dashboard`.

The store is a class `Records.Database`:

- The reading table is an `array` that commits and the migration update in
  place.
- The bill-period table is a sequence that a commit appends to.
- The next bill-period id is a counter.

`Records.WellFormed` is the consistency both writers keep:

- reading ids are unique;
- bill-period ids increase;
- a reading carries a `billPeriodId` only if it is billed and that period
  exists.

The store's `where` and `orderBy` are `Queries.Filter` and `Queries.SortBy`, a
stable insertion sort on an integer key.

Dates are integer timestamps (`Records.Date`). A `Calendar` value supplies the
local calendar year and zero-based month of a timestamp, which
`getFullYear`/`getMonth` give in the source. Amounts are exact reals.
`parseFloat(x.toFixed(n))` is `Billing.Round2` or `Billing.Round1`: rounding to
2 or 1 decimals, with ties rounded away from zero.

Behaviour of the code that the model keeps as written:

- **Anchor reading.** The anchor is the billed reading with the latest `date`,
  not the latest `billedAt` (lib/billing-status.js:81-84).
  `BillingStatus.LastBilled` and `BillingStatus.AnchorChoice` state this rule.
- **Two writes.** A commit inserts the bill period and then marks its readings,
  in two sequential writes with no transaction around them
  (lib/billing-status.js:145-181). `BillingStatus.CreateBillPeriod` performs
  them in this order.
- **No validation at commit.** `createBillPeriod` checks neither the order of
  the two readings nor overlap with existing bill periods. Only
  `validateBillingPeriod` checks for overlap.
  `BillingStatus.EmptyRangeMarksNothing` states what a commit with
  out-of-order readings does.
- **Touching periods are refused.** The overlap filter includes both ends
  (lib/billing-status.js:49). A commit marks only readings dated after the
  from reading (lib/billing-status.js:166). So a proposal that starts on the
  to reading of an earlier bill period touches that period and is refused
  (`BillingStatus.TouchingPeriodRejected`). That includes the suggestions,
  whose anchor is exactly that reading: once a bill period ends on the newest
  billed reading, every suggestion fails validation
  (`BillingStatus.SuggestionsRefusedAfterBill`).

## Model

| member | source | states |
|---|---|---|
| Billing.CalculatePeriodCost | lib/billing.js:9-53 | When any argument is missing, the result is all zeros with no details, and only then. Otherwise the details echo the prices, the base fee and the resolved split. `billingMonths` is the clamped calendar-month difference. Every rounded amount lies within half a unit of its exact value: both deltas, the energy cost, the base-fee cost, and the total against energy plus base fee. The exact rounded values are stated by `Billing.RoundedAmounts` and `Billing.TotalRoundedOnce`. |
| Billing.RoundedAmounts | lib/billing.js:25-45 | With all arguments present, each rounded amount is its exact formula rounded once: the deltas to 1 decimal, the energy cost and the base-fee cost (fee × months × split / 100) to 2 decimals. |
| Billing.TotalRoundedOnce | lib/billing.js:36-40 | The total rounds the unrounded sum of energy and base-fee cost once. It is not the sum of the rounded parts. |
| Billing.Round2Error | lib/billing.js:39-45 | Rounding to 2 decimals moves a value by at most 0.005 and keeps its sign. |
| Billing.Round1Error | lib/billing.js:44-45 | Rounding to 1 decimal moves a value by at most 0.05 and keeps its sign. |
| Billing.RoundHalfAwayError | lib/billing.js:39-45 | Rounding to an integer moves a value by at most one half and keeps its sign. |
| Billing.BillingMonthsFromMonthIndex | lib/billing.js:30-31 | The billing months are the difference of the month indices `12·year + month`, or 0 when that difference is not positive. |
| Billing.BillingMonthsCalendarOnly | lib/billing.js:30-31 | Only the calendar year and month of the two dates matter. |
| Billing.SameMonthIsZero | lib/billing.js:30-31 | Two dates in the same calendar month give 0 months. |
| Billing.AdjacentMonthsIsOne | lib/billing.js:30-31 | Dates in adjacent calendar months give 1 month, across a year end as well. |
| Billing.BillingMonthsAdditive | lib/billing.js:30-31 | For dates in calendar order, the months of two consecutive periods add up to the months of their union. |
| Billing.BackwardsPeriodHasNoBaseFee | lib/billing.js:30-34 | A period that ends in an earlier month than it starts is charged 0 months and no base fee. |
| Billing.ZeroMonthsEnergyOnly | lib/billing.js:33-40 | With 0 billing months the base fee is 0 and the total equals the energy cost. |
| Billing.DefaultSplitIsHalf | lib/billing.js:33-34 | Without a configured split, the split is 50 and half the base fee per month is charged. |
| Billing.EnergyCostLinearInPriceHT | lib/billing.js:36 | The energy cost scales linearly in the HT price, and the NT part stays unchanged. |
| Billing.EnergyCostLinearInPriceNT | lib/billing.js:36 | The energy cost scales linearly in the NT price, and the HT part stays unchanged. |
| Billing.NegativeConsumptionFlowsThrough | lib/billing.js:25-41 | A counter that went down is not rejected. At non-negative prices it yields a non-positive HT delta and a non-positive energy cost. |
| Billing.WorkedExample | lib/billing.js:9-53 | Jan 1 to Mar 15 2024, with 150 HT and 100 NT units at 0.30/0.20 and a base fee of 12 split 50/50, gives total 77.00, energy 65.00, base fee 12.00 and 2 months. |
| Records.FindById | lib/billing-status.js:26-27 | The lookup returns a reading of the table with the requested id. It returns nothing exactly when no reading has that id. |
| Records.FindByIdUnique | lib/billing-status.js:26-27 | With unique ids, looking up the id of a reading returns that reading. |
| Queries.Filter | lib/billing-status.js:15-18 | The filter keeps exactly the elements that satisfy the condition, each with its multiplicity. |
| Queries.SortBy | lib/billing-status.js:17 | The result is sorted by the key and is a permutation of the input. |
| Queries.FilterKeepsSorted | lib/billing-status.js:111 | Filtering a sorted sequence keeps it sorted. |
| BillingStatus.GetUnbilledReadings | lib/billing-status.js:14-19 | The result is sorted by date and contains exactly the readings with no `billedAt`. |
| BillingStatus.UnbilledExactly | lib/billing-status.js:14-19 | The open readings keep their multiplicity: the result is a permutation of the unbilled part of the table. |
| BillingStatus.LastBilled | lib/billing-status.js:81-84 | There is no result exactly when no reading is billed. Otherwise the result is a billed reading of the table, dated no earlier than any billed reading. |
| BillingStatus.FirstOverlapping | lib/billing-status.js:46-52 | The result is a bill period that meets the inclusive overlap filter. There is no result exactly when no period meets it. |
| BillingStatus.ValidateBillingPeriod | lib/billing-status.js:25-62 | The result is valid exactly when: both readings exist, the to reading is open, the from reading is strictly older, and no bill period overlaps the closed span between them. Missing readings are reported exactly when a lookup fails. The already-billed error can only concern the to reading, so the check on the from reading never fires. Each remaining error names its cause: wrong order, or the conflicting period with its `sentAt` and dates. |
| BillingStatus.OverlapIffSharedDate | lib/billing-status.js:46-52 | For non-empty spans, the overlap filter holds exactly when the two spans share a date, end points included. |
| BillingStatus.TouchingPeriodRejected | lib/billing-status.js:41-59 | A proposal starting on an existing period's end date is refused. |
| BillingStatus.BetweenPeriodsAccepted | lib/billing-status.js:25-62 | A proposal with existing, correctly ordered readings, an open to reading, and a range strictly between existing periods is valid. |
| BillingStatus.Offer | lib/billing-status.js:96-105 | A suggestion is offered exactly when the anchor is strictly older than its target, and then it runs from the anchor to the target. |
| BillingStatus.AllOpenOffer | lib/billing-status.js:93-106 | "All open" is offered exactly when some open reading is newer than the anchor. It ends at an open reading no older than any open reading and carries the open count. |
| BillingStatus.LastThreeOffer | lib/billing-status.js:108-124 | "Last 3 months" is offered exactly when an open reading at or after the cut-off is newer than the anchor. It ends at the newest such reading. |
| BillingStatus.Suggest | lib/billing-status.js:91-124 | There are at most two suggestions, all starting at the anchor and ending later. When both are present, "all open" comes first. |
| BillingStatus.GetAvailableBillingPeriods | lib/billing-status.js:68-131 | The open list is always the date-sorted open readings. A notice is given exactly when there is no anchor. There are at most two suggestions, each from the anchor to a later date. |
| BillingStatus.AnchorIff | lib/billing-status.js:71-90 | An anchor exists exactly when some reading is open and either some reading is billed or at least two readings are open. Both guards are stated in both directions. |
| BillingStatus.NoOpenReadingsNoSuggestions | lib/billing-status.js:71-73 | With no open reading, the result is empty with the "no open readings" notice. |
| BillingStatus.NeverBilledNeedsTwo | lib/billing-status.js:86-88 | With nothing ever billed and fewer than two readings, there are no suggestions and no anchor. The notice is "need two readings" when there is one reading, and "no open readings" when there are none. |
| BillingStatus.NoticeIff | lib/billing-status.js:71-88 | The "no open readings" notice is given exactly when every reading is billed. The "need two readings" notice is given exactly when at least one reading is open, none is billed and fewer than two are open. |
| BillingStatus.AnchorChoice | lib/billing-status.js:81-90 | The anchor is a reading of the table. If any reading is billed, the anchor is a billed reading of the latest date. Otherwise it is an open reading of the earliest date. |
| BillingStatus.AvailableParts | lib/billing-status.js:90-130 | Once an anchor exists, the suggestions are the "all open" offer followed by the "last 3 months" offer. |
| BillingStatus.AllOpenAvailable | lib/billing-status.js:93-106 | Over the whole table, "all open" is present exactly when an open reading is newer than the anchor. It then ends at an open reading that no open reading is newer than. |
| BillingStatus.LastThreeAvailable | lib/billing-status.js:108-124 | Over the whole table, "last 3 months" is present exactly when an open reading at or after the cut-off is newer than the anchor. It then ends at the newest such reading. |
| BillingStatus.SuggestionOrder | lib/billing-status.js:93-124 | When two suggestions are offered, they are "all open" and then "last 3 months". |
| BillingStatus.ReadingChecksPass | lib/billing-status.js:25-62 | Two readings of a table with unique ids, where the to reading is open and strictly newer, can only be refused for an overlap. |
| BillingStatus.SuggestionEndpoints | lib/billing-status.js:90-124 | Every suggestion runs from a reading of the table to a strictly newer open reading. |
| BillingStatus.SuggestionPassesReadingChecks | lib/billing-status.js:25-131 | Every suggested period passes all reading checks of the validation. Only an overlap can refuse it. |
| BillingStatus.SuggestionStartsAtLastBilled | lib/billing-status.js:81-124 | Once some reading is billed, every suggestion starts at the anchor reading, which is a stored reading on the date of the newest billed reading, and ends strictly later. |
| BillingStatus.SuggestionsRefusedAfterBill | lib/billing-status.js:25-131 | When an existing bill period ends on the date of the newest billed reading, every suggestion fails validation, because it starts on that date and so touches the period. |
| BillingStatus.MarkBilledFrame | lib/billing-status.js:161-181 | Exactly the open readings dated after the from reading, up to and including the to reading, change. They get the commit time and the new period id, and nothing else changes. |
| BillingStatus.MarkBilledCoversRange | lib/billing-status.js:164-181 | After a commit every reading dated in the range is billed. The from reading and readings outside the range are unchanged. |
| BillingStatus.EmptyRangeMarksNothing | lib/billing-status.js:136-181 | A commit whose from reading is not older than its to reading marks no reading. |
| BillingStatus.MarkedIdIff | lib/billing-status.js:164-174 | With unique ids, a reading's id is among the ids found exactly when the reading lies in the billing range. |
| BillingStatus.MarkIdsIsMarkBilled | lib/billing-status.js:164-181 | Updating by the ids that were found marks exactly the readings of the billing range. |
| BillingStatus.CommitKeepsWellFormed | lib/billing-status.js:145-181 | A commit keeps the tables well formed. |
| BillingStatus.UpdateMany | lib/billing-status.js:172-180 | In place, the update sets the commit time and period id on exactly the rows whose id is listed. |
| BillingStatus.CreateBillPeriod | lib/billing-status.js:136-184 | With a missing reading, the commit fails and the store is unchanged. Otherwise the commit appends a bill period with the next id, both readings' dates, the request's amounts, the commit time and the channel (default "telegram"). It then marks the billing range with that id. The store stays well formed. |
| BillingStatus.GetBillingHistory | lib/billing-status.js:189-193 | The history is a permutation of the bill periods, with `sentAt` newest first. |
| Migration.CountBilled | prisma/migrations/mark-existing-billed.js:15-17 | The count is the number of billed readings (the length of the billed filter). It is 0 exactly when no reading is billed, and the table size exactly when all readings are billed. |
| Migration.NewestIndex | prisma/migrations/mark-existing-billed.js:24-26 | The result is the position of a reading no older than any other. |
| Migration.SkipsWhenAnyBilled | prisma/migrations/mark-existing-billed.js:19-22 | When any reading is already billed, the migration skips and changes nothing. |
| Migration.SkipsWhenFewerThanTwo | prisma/migrations/mark-existing-billed.js:28-31 | With fewer than two readings, the migration changes nothing. |
| Migration.MarksAllButNewest | prisma/migrations/mark-existing-billed.js:33-45 | A migrating run keeps one newest reading as it was. It marks every other reading billed at the run's time with the migration note, and changes nothing else. |
| Migration.LeavesOneOpen | prisma/migrations/mark-existing-billed.js:33-47 | After a migrating run, all but one reading are billed, and the reported count is the table size less one. |
| Migration.Idempotent | prisma/migrations/mark-existing-billed.js:13-49 | A second run changes nothing, whenever it runs, and reports the readings the first run billed. |
| Migration.KeepsWellFormed | prisma/migrations/mark-existing-billed.js:37-45 | The migration keeps the tables well formed. |
| Migration.ToBillIff | prisma/migrations/mark-existing-billed.js:33-39 | With unique ids, the ids of all readings but the newest select exactly the other rows. |
| Migration.UpdateAllBut | prisma/migrations/mark-existing-billed.js:37-45 | In place, the update sets the run's time and the migration note on exactly the rows whose id is listed. The result is the table with every row but the kept one marked. |
| Migration.MarkAllButKeepsWellFormed | prisma/migrations/mark-existing-billed.js:37-45 | Marking every row but one keeps the tables well formed. |
| Migration.MarkExistingBilled | prisma/migrations/mark-existing-billed.js:13-49 | In place, the run reports its plan and leaves the migrated table, and the store stays well formed. |
| Dashboard.LatestPrice | app/page.js:11-13 | There is no price exactly when no price configuration exists. Otherwise the result is one whose `validFrom` is no earlier than any other's. |
| Dashboard.ChartEntryAgreesWithPeriodCost | app/page.js:26-41 | A chart entry shows the same rounded deltas and energy cost as `calculatePeriodCost` on the same readings and price. |
| Dashboard.ChartExtends | app/page.js:22-43 | Each loop step extends the chart by the entry for the next consecutive pair. |
| Dashboard.ChartDatesOrdered | app/page.js:7-9 | Over date-sorted readings, the chart's dates never go backwards. |
| Dashboard.LastSortedIsNewest | app/page.js:49 | The last reading in date order is a reading of the table no older than any other. |
| Dashboard.ChartSeries | app/page.js:22-43 | The loop yields exactly one entry per consecutive pair of readings, in order. |
| Dashboard.GetDashboardData | app/page.js:6-58 | The count is the table size, and the price is the newest tariff. With fewer than two readings or no price, the chart is empty and the last cost is 0. Otherwise the chart has one entry per consecutive pair of date-sorted readings, and the last cost is the last entry's. Chart dates never decrease. The latest reading is absent exactly when the table is empty; otherwise it is a newest reading. |

## Left out

- Rendering and the rest of the application are not part of this model: the JSX of app/page.js, login and session handling, server actions, PDF generation and the Telegram message.
- Floating point is not modelled: amounts are exact reals. `toFixed` on binary doubles can round a decimal tie the other way. The model rounds exact ties away from zero.
- Dashboard.GetDashboardData: the `isFinite` guards (app/page.js:39-41) always take the finite branch, because reals cannot be infinite or NaN.
- Dashboard.GetDashboardData: the chart date is the reading's timestamp, not its `toLocaleDateString` text. The "Invalid Date" branch cannot arise with integer timestamps.
- Dashboard.GetDashboardData: the unused `totalCost` local is not modelled.
- The local time zone is abstracted as a `Calendar` of year and month functions. Time-zone and daylight-saving rules are not modelled.
- Wall clock: `new Date()` in `createBillPeriod` and the migration becomes a `now` parameter. The "three months ago" moment in `getAvailableBillingPeriods` becomes a parameter as well, so `setMonth` arithmetic is not modelled.
- Store tie order: ties in `orderBy` are left to the database in the source. The model fixes them to a stable order. `findFirst` without an order uses table order.
- BillingStatus.CreateBillPeriod: the two writes are sequential, as in the source. Atomicity, concurrent commits and store failures between the writes are not modelled.
- BillingStatus.CreateBillPeriod: the bill-period id is a counter in the store, and `sentAt` is the commit time. The store's own id scheme and default timestamp are not modelled.
- BillingStatus.Suggestion: the display label is represented by the suggestion kind and the open count. The German label text and its plural suffix are not modelled.
- Records.Reading: the `comment` field is not modelled, since no core operation reads it.
- Billing.Split: an absent `baseFeeSplit` is `None`. A stored null, which `!== undefined` would let through as a zero split, is not distinguished.
- BillingStatus.ValidateBillingPeriod: the error messages are error values carrying the dates. The German message texts are not modelled.
- Console output and `$disconnect` in the migration script are not modelled, and neither are the process exit code and the catch handler.
- No date-based price resolver appears in the source. The only price selection is the dashboard's latest-`validFrom` rule, which `Dashboard.LatestPrice` models.
