/** The billing-period lifecycle (lib/billing-status.js): open readings,
    validation of a proposed period, suggested periods, committing a bill
    period and the billing history. */
module BillingStatus {
  import opened Wrappers
  import opened Records
  import opened Queries

  function NegSentAt(p: BillPeriod): int { -p.sentAt }

  // ---------------------------------------------------------------------------
  // getUnbilledReadings

  /** The readings with `billedAt == null`, oldest first. */
  function GetUnbilledReadings(rs: seq<Reading>): (u: seq<Reading>)
    ensures SortedBy(u, DateOf)
    ensures forall x :: x in u <==> x in rs && x.billedAt.None?
    ensures |u| <= |rs|
  {
    var open := Filter(rs, IsOpen);
    forall x ensures x in SortBy(open, DateOf) <==> x in open {
      SortByMembers(open, DateOf, x);
    }
    SortBy(open, DateOf)
  }

  /** The open readings with their multiplicity: a permutation of the filter. */
  lemma UnbilledExactly(rs: seq<Reading>)
    ensures forall x :: multiset(GetUnbilledReadings(rs))[x] == if x.billedAt.None? then multiset(rs)[x] else 0
  {
    assert GetUnbilledReadings(rs) == SortBy(Filter(rs, IsOpen), DateOf);
  }

  /** The billed reading with the latest date (`findFirst` over billed readings,
      newest first). */
  function LastBilled(rs: seq<Reading>): (r: Option<Reading>)
    ensures r.None? <==> forall x :: x in rs ==> x.billedAt.None?
    ensures r.Some? ==> r.value in rs && r.value.billedAt.Some?
    ensures r.Some? ==> forall x :: x in rs && x.billedAt.Some? ==> x.date <= r.value.date
  {
    var closed := Filter(rs, IsBilled);
    var billed := SortBy(closed, DateOf);
    forall x ensures x in billed <==> x in closed {
      SortByMembers(closed, DateOf, x);
    }
    if |billed| == 0 then None
    else
      forall x | x in billed ensures x.date <= billed[|billed| - 1].date {
        LastIsLargest(billed, DateOf, x);
      }
      Some(billed[|billed| - 1])
  }

  // ---------------------------------------------------------------------------
  // validateBillingPeriod

  datatype ValidationError =
    | ReadingsNotFound
    | AlreadyBilled(readingDate: Date)
    | StartNotBeforeEnd
    | OverlappingPeriod(sentAt: Date, fromDate: Date, toDate: Date)

  datatype Validation =
    | Valid(fromReading: Reading, toReading: Reading)
    | Invalid(error: ValidationError)

  /** The store's overlap filter: `fromDate <= to && toDate >= from`, with both
      ends included. */
  predicate Overlaps(p: BillPeriod, from: Date, to: Date) {
    p.fromDate <= to && p.toDate >= from
  }

  /** `billPeriod.findFirst` with the overlap filter, in table order. */
  function FirstOverlapping(ps: seq<BillPeriod>, from: Date, to: Date): (r: Option<BillPeriod>)
    ensures r.Some? ==> r.value in ps && Overlaps(r.value, from, to)
    ensures r.None? <==> forall p :: p in ps ==> !Overlaps(p, from, to)
  {
    if ps == [] then None
    else if Overlaps(ps[0], from, to) then Some(ps[0])
    else FirstOverlapping(ps[1..], from, to)
  }

  /** `validateBillingPeriod(fromId, toId)`: the checks in source order, stopping
      at the first that fails. The check on a billed `from` reading compares the
      reading's id with the id it was looked up by, so it never fails. */
  function ValidateBillingPeriod(rs: seq<Reading>, ps: seq<BillPeriod>, fromId: int, toId: int): (v: Validation)
    ensures var f, t := FindById(rs, fromId), FindById(rs, toId);
      v.Valid? <==>
        && f.Some? && t.Some?
        && t.value.billedAt.None?
        && f.value.date < t.value.date
        && forall p :: p in ps ==> !Overlaps(p, f.value.date, t.value.date)
    ensures v.Valid? ==> Some(v.fromReading) == FindById(rs, fromId) && Some(v.toReading) == FindById(rs, toId)
    ensures v == Invalid(ReadingsNotFound) <==> FindById(rs, fromId).None? || FindById(rs, toId).None?
    ensures v.Invalid? && v.error.AlreadyBilled? ==>
      var t := FindById(rs, toId);
      && FindById(rs, fromId).Some? && t.Some?
      && t.value.billedAt.Some? && v.error.readingDate == t.value.date
    ensures v == Invalid(StartNotBeforeEnd) ==>
      var f, t := FindById(rs, fromId), FindById(rs, toId);
      f.Some? && t.Some? && t.value.billedAt.None? && f.value.date >= t.value.date
    ensures v.Invalid? && v.error.OverlappingPeriod? ==>
      var f, t := FindById(rs, fromId), FindById(rs, toId);
      && f.Some? && t.Some? && t.value.billedAt.None? && f.value.date < t.value.date
      && exists p :: p in ps && Overlaps(p, f.value.date, t.value.date) &&
           v.error == OverlappingPeriod(p.sentAt, p.fromDate, p.toDate)
  {
    var f, t := FindById(rs, fromId), FindById(rs, toId);
    if f.None? || t.None? then Invalid(ReadingsNotFound)
    else
      var fromReading, toReading := f.value, t.value;
      if fromReading.billedAt.Some? && fromReading.id != fromId then Invalid(AlreadyBilled(fromReading.date))
      else if toReading.billedAt.Some? then Invalid(AlreadyBilled(toReading.date))
      else if fromReading.date >= toReading.date then Invalid(StartNotBeforeEnd)
      else match FirstOverlapping(ps, fromReading.date, toReading.date)
        case Some(p) => Invalid(OverlappingPeriod(p.sentAt, p.fromDate, p.toDate))
        case None => Valid(fromReading, toReading)
  }

  /** `d` lies in the closed span from `lo` to `hi`. */
  predicate InSpan(d: Date, lo: Date, hi: Date) { lo <= d <= hi }

  /** For non-empty spans the overlap filter holds exactly when the existing
      period and the proposal share at least one date, end points included. */
  lemma OverlapIffSharedDate(p: BillPeriod, from: Date, to: Date)
    requires p.fromDate <= p.toDate && from <= to
    ensures Overlaps(p, from, to) <==> exists d :: InSpan(d, p.fromDate, p.toDate) && InSpan(d, from, to)
  {
    if Overlaps(p, from, to) {
      var d := if p.fromDate < from then from else p.fromDate;
      assert InSpan(d, p.fromDate, p.toDate) && InSpan(d, from, to);
    }
  }

  /** A proposal that starts on the end date of an existing bill period is
      rejected: touching periods count as overlapping. Since committing marks
      readings in the half-open span after `from`, a new period anchored on the
      `to` reading of the previous one is refused by this check. */
  lemma TouchingPeriodRejected(rs: seq<Reading>, ps: seq<BillPeriod>, fromId: int, toId: int, p: BillPeriod)
    requires p in ps
    requires FindById(rs, fromId).Some? && FindById(rs, toId).Some?
    requires p.toDate == FindById(rs, fromId).value.date
    requires p.fromDate <= FindById(rs, toId).value.date
    ensures !ValidateBillingPeriod(rs, ps, fromId, toId).Valid?
  {
    assert Overlaps(p, FindById(rs, fromId).value.date, FindById(rs, toId).value.date);
  }

  /** A proposal lying strictly between existing bill periods passes the
      overlap check. */
  lemma BetweenPeriodsAccepted(rs: seq<Reading>, ps: seq<BillPeriod>, fromId: int, toId: int)
    requires FindById(rs, fromId).Some? && FindById(rs, toId).Some?
    requires FindById(rs, toId).value.billedAt.None?
    requires FindById(rs, fromId).value.date < FindById(rs, toId).value.date
    requires forall p :: p in ps ==>
      p.toDate < FindById(rs, fromId).value.date || p.fromDate > FindById(rs, toId).value.date
    ensures ValidateBillingPeriod(rs, ps, fromId, toId)
         == Valid(FindById(rs, fromId).value, FindById(rs, toId).value)
  {
  }

  // ---------------------------------------------------------------------------
  // getAvailableBillingPeriods

  datatype SuggestionKind = AllOpen(openCount: nat) | LastThreeMonths

  datatype Suggestion = Suggestion(kind: SuggestionKind, fromId: int, toId: int, fromDate: Date, toDate: Date)

  datatype Notice = NoOpenReadings | NeedTwoReadings

  datatype Availability = Availability(
    periods: seq<Suggestion>,
    unbilledReadings: seq<Reading>,
    fromReading: Option<Reading>,
    message: Option<Notice>)

  /** The open readings dated at or after `threeMonthsAgo`, oldest first. */
  function RecentOf(unbilled: seq<Reading>, threeMonthsAgo: Date): seq<Reading> {
    Filter(unbilled, (r: Reading) => r.date >= threeMonthsAgo)
  }

  /** The suggestion from `anchor` to `target`, offered only when the anchor is
      strictly older. */
  function Offer(kind: SuggestionKind, anchor: Reading, target: Reading): (r: seq<Suggestion>)
    ensures |r| <= 1
    ensures r != [] <==> anchor.date < target.date
    ensures forall s :: s in r ==> s == Suggestion(kind, anchor.id, target.id, anchor.date, target.date)
  {
    if anchor.date < target.date then [Suggestion(kind, anchor.id, target.id, anchor.date, target.date)] else []
  }

  /** "All open": from the anchor to the newest open reading, offered exactly
      when some open reading is newer than the anchor. */
  function AllOpenOffer(anchor: Reading, unbilled: seq<Reading>): (r: seq<Suggestion>)
    requires |unbilled| > 0 && SortedBy(unbilled, DateOf)
    ensures |r| <= 1
    ensures r != [] <==> exists x :: x in unbilled && anchor.date < x.date
    ensures forall s :: s in r ==>
      && s.kind == AllOpen(|unbilled|) && s.fromId == anchor.id && s.fromDate == anchor.date && s.fromDate < s.toDate
      && (exists x :: x in unbilled && x.id == s.toId && x.date == s.toDate)
      && forall y :: y in unbilled ==> y.date <= s.toDate
  {
    var newest := unbilled[|unbilled| - 1];
    forall y | y in unbilled ensures y.date <= newest.date {
      LastIsLargest(unbilled, DateOf, y);
    }
    Offer(AllOpen(|unbilled|), anchor, newest)
  }

  /** "Last 3 months": from the anchor to the newest open reading dated at or
      after `threeMonthsAgo`, offered exactly when such a reading is newer than
      the anchor. */
  function LastThreeOffer(anchor: Reading, unbilled: seq<Reading>, threeMonthsAgo: Date): (r: seq<Suggestion>)
    requires SortedBy(unbilled, DateOf)
    ensures |r| <= 1
    ensures r != [] <==> exists x :: x in unbilled && x.date >= threeMonthsAgo && anchor.date < x.date
    ensures forall s :: s in r ==>
      && s.kind == LastThreeMonths && s.fromId == anchor.id && s.fromDate == anchor.date && s.fromDate < s.toDate
      && s.toDate >= threeMonthsAgo
      && (exists x :: x in unbilled && x.id == s.toId && x.date == s.toDate)
      && forall y :: y in unbilled && y.date >= threeMonthsAgo ==> y.date <= s.toDate
  {
    var recent := RecentOf(unbilled, threeMonthsAgo);
    if |recent| > 0 then
      var newest := recent[|recent| - 1];
      FilterKeepsSorted(unbilled, (r: Reading) => r.date >= threeMonthsAgo, DateOf);
      forall y | y in recent ensures y.date <= newest.date {
        LastIsLargest(recent, DateOf, y);
      }
      assert newest in recent;
      Offer(LastThreeMonths, anchor, newest)
    else
      assert forall x :: x in unbilled && x.date >= threeMonthsAgo ==> x in recent;
      []
  }

  /** The suggestions offered from `anchor`, "all open" first. */
  function Suggest(anchor: Reading, unbilled: seq<Reading>, threeMonthsAgo: Date): (ss: seq<Suggestion>)
    requires |unbilled| > 0 && SortedBy(unbilled, DateOf)
    ensures |ss| <= 2
    ensures forall s :: s in ss ==> s.fromId == anchor.id && s.fromDate == anchor.date && s.fromDate < s.toDate
    ensures |ss| == 2 ==> ss[0].kind.AllOpen? && ss[1].kind == LastThreeMonths
  {
    var all, last3 := AllOpenOffer(anchor, unbilled), LastThreeOffer(anchor, unbilled, threeMonthsAgo);
    assert all != [] ==> all[0] in all;
    assert last3 != [] ==> last3[0] in last3;
    all + last3
  }

  /** `getAvailableBillingPeriods()`, with the wall clock's "three months ago"
      as a parameter. */
  function GetAvailableBillingPeriods(rs: seq<Reading>, threeMonthsAgo: Date): (a: Availability)
    ensures a.unbilledReadings == GetUnbilledReadings(rs)
    ensures a.fromReading.Some? <==> a.message.None?
    ensures |a.periods| <= 2
    ensures forall s :: s in a.periods ==>
      && a.fromReading.Some?
      && s.fromId == a.fromReading.value.id && s.fromDate == a.fromReading.value.date
      && s.fromDate < s.toDate
  {
    var unbilled := GetUnbilledReadings(rs);
    if |unbilled| < 1 then Availability([], [], None, Some(NoOpenReadings))
    else
      var lastBilled := LastBilled(rs);
      if lastBilled.None? && |unbilled| < 2 then Availability([], unbilled, None, Some(NeedTwoReadings))
      else
        var anchor := lastBilled.GetOr(unbilled[0]);
        Availability(Suggest(anchor, unbilled, threeMonthsAgo), unbilled, Some(anchor), None)
  }

  /** With no open reading there is nothing to suggest and no open list. */
  lemma NoOpenReadingsNoSuggestions(rs: seq<Reading>, threeMonthsAgo: Date)
    requires forall x :: x in rs ==> x.billedAt.Some?
    ensures GetAvailableBillingPeriods(rs, threeMonthsAgo) == Availability([], [], None, Some(NoOpenReadings))
  {
  }

  /** An anchor, and with it the suggestions, exists exactly when some reading
      is open and either some reading is billed or at least two are open;
      otherwise a notice explains why there is none. */
  lemma AnchorIff(rs: seq<Reading>, threeMonthsAgo: Date)
    ensures var a := GetAvailableBillingPeriods(rs, threeMonthsAgo);
      a.fromReading.Some? <==>
        && (exists x :: x in rs && x.billedAt.None?)
        && ((exists x :: x in rs && x.billedAt.Some?) || |GetUnbilledReadings(rs)| >= 2)
  {
    var u := GetUnbilledReadings(rs);
    if |u| > 0 {
      assert u[0] in u;
    }
  }

  /** Which notice is given: "no open readings" exactly when every reading is
      billed, "need two readings" exactly when nothing is billed and fewer than
      two readings are open, though at least one is. */
  lemma NoticeIff(rs: seq<Reading>, threeMonthsAgo: Date)
    ensures var a := GetAvailableBillingPeriods(rs, threeMonthsAgo);
      a.message == Some(NoOpenReadings) <==> forall x :: x in rs ==> x.billedAt.Some?
    ensures var a := GetAvailableBillingPeriods(rs, threeMonthsAgo);
      a.message == Some(NeedTwoReadings) <==>
        && (exists x :: x in rs && x.billedAt.None?)
        && (forall x :: x in rs ==> x.billedAt.None?)
        && |GetUnbilledReadings(rs)| < 2
  {
    var u := GetUnbilledReadings(rs);
    if |u| > 0 {
      assert u[0] in u;
    }
  }

  /** Before anything was ever billed, at least two readings are needed. */
  lemma NeverBilledNeedsTwo(rs: seq<Reading>, threeMonthsAgo: Date)
    requires forall x :: x in rs ==> x.billedAt.None?
    requires |rs| < 2
    ensures var a := GetAvailableBillingPeriods(rs, threeMonthsAgo);
      && a.periods == [] && a.fromReading.None?
      && a.message == Some(if rs == [] then NoOpenReadings else NeedTwoReadings)
  {
    if rs != [] {
      assert rs[0] in GetUnbilledReadings(rs);
    }
  }

  /** The anchor of every suggestion: the billed reading with the latest date,
      or, when nothing was ever billed, the oldest open reading. */
  lemma AnchorChoice(rs: seq<Reading>, threeMonthsAgo: Date)
    requires GetAvailableBillingPeriods(rs, threeMonthsAgo).fromReading.Some?
    ensures var anchor := GetAvailableBillingPeriods(rs, threeMonthsAgo).fromReading.value;
      && anchor in rs
      && ((exists x :: x in rs && x.billedAt.Some?) ==>
            anchor.billedAt.Some? && forall y :: y in rs && y.billedAt.Some? ==> y.date <= anchor.date)
      && ((forall x :: x in rs ==> x.billedAt.None?) ==>
            forall y :: y in rs ==> anchor.date <= y.date)
  {
    var u := GetUnbilledReadings(rs);
    var anchor := GetAvailableBillingPeriods(rs, threeMonthsAgo).fromReading.value;
    if LastBilled(rs).None? {
      assert u[0] in u;
      forall y | y in rs ensures anchor.date <= y.date {
        FirstIsSmallest(u, DateOf, y);
      }
    }
  }

  /** Once an anchor is chosen, the suggestions are the "all open" offer
      followed by the "last 3 months" offer. */
  lemma AvailableParts(rs: seq<Reading>, threeMonthsAgo: Date)
    requires GetAvailableBillingPeriods(rs, threeMonthsAgo).fromReading.Some?
    ensures var a := GetAvailableBillingPeriods(rs, threeMonthsAgo);
      var u := GetUnbilledReadings(rs);
      && |u| > 0
      && a.periods == AllOpenOffer(a.fromReading.value, u) + LastThreeOffer(a.fromReading.value, u, threeMonthsAgo)
  {
  }

  /** "All open" is suggested exactly when some open reading of the table is
      newer than the anchor, and it then ends at an open reading no older than
      any other. */
  lemma AllOpenAvailable(rs: seq<Reading>, threeMonthsAgo: Date)
    requires GetAvailableBillingPeriods(rs, threeMonthsAgo).fromReading.Some?
    ensures var a := GetAvailableBillingPeriods(rs, threeMonthsAgo);
      && ((exists s :: s in a.periods && s.kind.AllOpen?) <==>
            exists x :: x in rs && x.billedAt.None? && a.fromReading.value.date < x.date)
      && (forall s :: s in a.periods && s.kind.AllOpen? ==>
            && (exists x :: x in rs && x.billedAt.None? && x.id == s.toId && x.date == s.toDate)
            && forall y :: y in rs && y.billedAt.None? ==> y.date <= s.toDate)
  {
    AvailableParts(rs, threeMonthsAgo);
    var a := GetAvailableBillingPeriods(rs, threeMonthsAgo);
    var anchor := a.fromReading.value;
    var u := GetUnbilledReadings(rs);
    var all, last3 := AllOpenOffer(anchor, u), LastThreeOffer(anchor, u, threeMonthsAgo);
    assert a.periods == all + last3;
    forall s | s in a.periods && s.kind.AllOpen? ensures s in all {
    }
    if all != [] {
      assert all[0] in a.periods;
    }
  }

  /** "Last 3 months" is suggested exactly when some open reading dated at or
      after `threeMonthsAgo` is newer than the anchor, and it then ends at the
      newest such reading. */
  lemma LastThreeAvailable(rs: seq<Reading>, threeMonthsAgo: Date)
    requires GetAvailableBillingPeriods(rs, threeMonthsAgo).fromReading.Some?
    ensures var a := GetAvailableBillingPeriods(rs, threeMonthsAgo);
      && ((exists s :: s in a.periods && s.kind == LastThreeMonths) <==>
            exists x :: x in rs && x.billedAt.None? && x.date >= threeMonthsAgo && a.fromReading.value.date < x.date)
      && (forall s :: s in a.periods && s.kind == LastThreeMonths ==>
            && (exists x :: x in rs && x.billedAt.None? && x.id == s.toId && x.date == s.toDate)
            && s.toDate >= threeMonthsAgo
            && forall y :: y in rs && y.billedAt.None? && y.date >= threeMonthsAgo ==> y.date <= s.toDate)
  {
    AvailableParts(rs, threeMonthsAgo);
    var a := GetAvailableBillingPeriods(rs, threeMonthsAgo);
    var anchor := a.fromReading.value;
    var u := GetUnbilledReadings(rs);
    var all, last3 := AllOpenOffer(anchor, u), LastThreeOffer(anchor, u, threeMonthsAgo);
    assert a.periods == all + last3;
    forall s | s in a.periods && s.kind == LastThreeMonths ensures s in last3 {
    }
    if last3 != [] {
      assert last3[0] in a.periods;
    }
  }

  /** At most one suggestion of each kind, "all open" first. */
  lemma SuggestionOrder(rs: seq<Reading>, threeMonthsAgo: Date)
    ensures var a := GetAvailableBillingPeriods(rs, threeMonthsAgo);
      |a.periods| == 2 ==> a.periods[0].kind.AllOpen? && a.periods[1].kind == LastThreeMonths
  {
  }

  lemma FindByIdMember(rs: seq<Reading>, x: Reading)
    requires UniqueIds(rs) && x in rs
    ensures FindById(rs, x.id) == Some(x)
  {
    var k :| 0 <= k < |rs| && rs[k] == x;
    FindByIdUnique(rs, k);
  }

  /** A proposal between two readings of the table whose `to` reading is open
      and strictly newer can only be rejected for an overlap. */
  lemma ReadingChecksPass(rs: seq<Reading>, ps: seq<BillPeriod>, from: Reading, to: Reading)
    requires UniqueIds(rs) && from in rs && to in rs
    requires to.billedAt.None? && from.date < to.date
    ensures var v := ValidateBillingPeriod(rs, ps, from.id, to.id);
      v.Valid? || v.error.OverlappingPeriod?
  {
    FindByIdMember(rs, from);
    FindByIdMember(rs, to);
  }

  /** Every suggestion runs from the anchor, a reading of the table, to a
      strictly newer open reading of the table. */
  lemma SuggestionEndpoints(rs: seq<Reading>, threeMonthsAgo: Date, s: Suggestion)
    requires s in GetAvailableBillingPeriods(rs, threeMonthsAgo).periods
    ensures exists from, to ::
      && from in rs && to in rs && to.billedAt.None? && from.date < to.date
      && s.fromId == from.id && s.toId == to.id
  {
    var a := GetAvailableBillingPeriods(rs, threeMonthsAgo);
    AnchorChoice(rs, threeMonthsAgo);
    var anchor := a.fromReading.value;
    if s.kind.AllOpen? {
      AllOpenAvailable(rs, threeMonthsAgo);
    } else {
      LastThreeAvailable(rs, threeMonthsAgo);
    }
    var x :| x in rs && x.billedAt.None? && x.id == s.toId && x.date == s.toDate;
    assert anchor in rs && x in rs && anchor.date < x.date;
  }

  /** A suggested period passes every reading check of the validation: its
      readings exist, its `to` reading is open and later than its `from`
      reading. Only an overlap with an existing bill period can reject it. */
  lemma SuggestionPassesReadingChecks(rs: seq<Reading>, ps: seq<BillPeriod>, threeMonthsAgo: Date, s: Suggestion)
    requires UniqueIds(rs)
    requires s in GetAvailableBillingPeriods(rs, threeMonthsAgo).periods
    ensures var v := ValidateBillingPeriod(rs, ps, s.fromId, s.toId);
      v.Valid? || v.error.OverlappingPeriod?
  {
    SuggestionEndpoints(rs, threeMonthsAgo, s);
    var from, to :| from in rs && to in rs && to.billedAt.None? && from.date < to.date
      && s.fromId == from.id && s.toId == to.id;
    ReadingChecksPass(rs, ps, from, to);
  }

  /** Once something is billed, every suggestion starts on the anchor, which
      is dated like the newest billed reading. */
  lemma SuggestionStartsAtLastBilled(rs: seq<Reading>, threeMonthsAgo: Date, s: Suggestion)
    requires LastBilled(rs).Some?
    requires s in GetAvailableBillingPeriods(rs, threeMonthsAgo).periods
    ensures var anchor := GetAvailableBillingPeriods(rs, threeMonthsAgo).fromReading.value;
      && anchor in rs && s.fromId == anchor.id && s.fromDate == anchor.date
      && s.fromDate == LastBilled(rs).value.date && s.fromDate < s.toDate
  {
    var a := GetAvailableBillingPeriods(rs, threeMonthsAgo);
    AnchorChoice(rs, threeMonthsAgo);
    var last := LastBilled(rs).value;
    assert last in rs && last.billedAt.Some?;
    assert a.fromReading.value.date >= last.date;
  }

  /** Once a bill period ends on the newest billed reading, which is the
      anchor, every suggestion touches that period and fails validation. */
  lemma SuggestionsRefusedAfterBill(rs: seq<Reading>, ps: seq<BillPeriod>, p: BillPeriod,
                                    threeMonthsAgo: Date, s: Suggestion)
    requires UniqueIds(rs)
    requires p in ps && p.fromDate <= p.toDate
    requires LastBilled(rs).Some? && LastBilled(rs).value.date == p.toDate
    requires s in GetAvailableBillingPeriods(rs, threeMonthsAgo).periods
    ensures !ValidateBillingPeriod(rs, ps, s.fromId, s.toId).Valid?
  {
    SuggestionStartsAtLastBilled(rs, threeMonthsAgo, s);
    var anchor := GetAvailableBillingPeriods(rs, threeMonthsAgo).fromReading.value;
    FindByIdMember(rs, anchor);
    assert FindById(rs, s.fromId) == Some(anchor) && anchor.date == p.toDate;
  }

  // ---------------------------------------------------------------------------
  // createBillPeriod

  /** The fields of a `createBillPeriod` call; `sentVia` is `None` when omitted. */
  datatype BillRequest = BillRequest(
    fromId: int,
    toId: int,
    totalCost: real,
    energyCost: real,
    baseFeeCost: real,
    billingMonths: int,
    diffHT: real,
    diffNT: real,
    sentVia: Option<string>)

  datatype CommitError = MissingReadings

  const DefaultChannel: string := "telegram"

  /** The row `createBillPeriod` inserts, with id `id` and commit time `now`. */
  function NewBillPeriod(id: int, from: Reading, to: Reading, req: BillRequest, now: Date): BillPeriod {
    BillPeriod(id, from.date, to.date, req.fromId, req.toId, req.totalCost, req.energyCost, req.baseFeeCost,
               req.billingMonths, req.diffHT, req.diffNT, now, req.sentVia.GetOr(DefaultChannel))
  }

  /** The readings a commit from `fromDate` to `toDate` bills: dated after the
      from reading, up to and including the to reading, and still open. */
  predicate InBillRange(r: Reading, fromDate: Date, toDate: Date) {
    fromDate < r.date <= toDate && r.billedAt.None?
  }

  /** The `findMany` of readings to mark. */
  function ReadingsToMark(rs: seq<Reading>, fromDate: Date, toDate: Date): seq<Reading> {
    Filter(rs, (r: Reading) => InBillRange(r, fromDate, toDate))
  }

  function IdsOf(rs: seq<Reading>): set<int> {
    set r | r in rs :: r.id
  }

  /** The reading table after the `updateMany` of a commit. */
  function MarkBilled(rs: seq<Reading>, fromDate: Date, toDate: Date, now: Date, periodId: int): seq<Reading> {
    seq(|rs|, i requires 0 <= i < |rs| =>
      if InBillRange(rs[i], fromDate, toDate) then rs[i].(billedAt := Some(now), billPeriodId := Some(periodId))
      else rs[i])
  }

  /** With unique ids, "id among the readings to mark" picks exactly the rows
      in the billing range. */
  lemma {:induction false} MarkedIdIff(rs: seq<Reading>, fromDate: Date, toDate: Date, k: int)
    requires UniqueIds(rs) && 0 <= k < |rs|
    ensures rs[k].id in IdsOf(ReadingsToMark(rs, fromDate, toDate)) <==> InBillRange(rs[k], fromDate, toDate)
  {
    var marked := ReadingsToMark(rs, fromDate, toDate);
    assert rs[k] in multiset(rs);
    if rs[k].id in IdsOf(marked) {
      var x :| x in marked && x.id == rs[k].id;
      assert multiset(marked)[x] > 0;
      var j :| 0 <= j < |rs| && rs[j] == x;
    }
  }

  /** Exactly the open readings in the billing range change; they receive the
      commit time and the new period's id, and nothing else about any reading
      changes. */
  lemma MarkBilledFrame(rs: seq<Reading>, fromDate: Date, toDate: Date, now: Date, periodId: int)
    ensures var out := MarkBilled(rs, fromDate, toDate, now, periodId);
      && |out| == |rs|
      && (forall i :: 0 <= i < |rs| ==> (out[i] != rs[i] <==> InBillRange(rs[i], fromDate, toDate)))
      && (forall i :: 0 <= i < |rs| ==> out[i] == rs[i].(billedAt := out[i].billedAt, billPeriodId := out[i].billPeriodId))
      && (forall i :: 0 <= i < |rs| && InBillRange(rs[i], fromDate, toDate) ==>
            out[i].billedAt == Some(now) && out[i].billPeriodId == Some(periodId))
  {
  }

  /** After a commit every reading dated in the range is billed; the from
      reading and readings outside the range keep their state. */
  lemma MarkBilledCoversRange(rs: seq<Reading>, fromDate: Date, toDate: Date, now: Date, periodId: int)
    ensures var out := MarkBilled(rs, fromDate, toDate, now, periodId);
      && (forall i :: 0 <= i < |rs| && fromDate < rs[i].date <= toDate ==> out[i].billedAt.Some?)
      && (forall i :: 0 <= i < |rs| && !(fromDate < rs[i].date <= toDate) ==> out[i] == rs[i])
  {
  }

  /** Nothing in `createBillPeriod` checks the order of the two readings: with
      `from` not older than `to` no reading is marked. */
  lemma EmptyRangeMarksNothing(rs: seq<Reading>, fromDate: Date, toDate: Date, now: Date, periodId: int)
    requires toDate <= fromDate
    ensures MarkBilled(rs, fromDate, toDate, now, periodId) == rs
  {
  }

  /** A commit keeps the tables well formed. */
  lemma CommitKeepsWellFormed(rs: seq<Reading>, ps: seq<BillPeriod>, nextId: int, fromDate: Date, toDate: Date,
                              now: Date, p: BillPeriod)
    requires WellFormed(rs, ps, nextId) && p.id == nextId
    ensures WellFormed(MarkBilled(rs, fromDate, toDate, now, nextId), ps + [p], nextId + 1)
  {
    var out := MarkBilled(rs, fromDate, toDate, now, nextId);
    var ps' := ps + [p];
    assert PeriodIds(ps') == PeriodIds(ps) + {nextId};
    forall r | r in out && r.billPeriodId.Some?
      ensures r.billedAt.Some? && r.billPeriodId.value in PeriodIds(ps')
    {
      var i :| 0 <= i < |out| && out[i] == r;
      assert rs[i] in rs;
    }
    forall i, j | 0 <= i < j < |ps'| ensures ps'[i].id < ps'[j].id {
      if j == |ps| {
        assert ps'[i] in ps;
      }
    }
  }

  /** The table after `updateMany({ where: { id: { in: ids } }, ... })`. */
  function MarkIds(rs: seq<Reading>, ids: set<int>, now: Date, periodId: int): seq<Reading> {
    seq(|rs|, i requires 0 <= i < |rs| =>
      if rs[i].id in ids then rs[i].(billedAt := Some(now), billPeriodId := Some(periodId)) else rs[i])
  }

  /** Updating by the ids that `findMany` returned marks exactly the rows of the
      billing range. */
  lemma MarkIdsIsMarkBilled(rs: seq<Reading>, fromDate: Date, toDate: Date, now: Date, periodId: int)
    requires UniqueIds(rs)
    ensures MarkIds(rs, IdsOf(ReadingsToMark(rs, fromDate, toDate)), now, periodId)
         == MarkBilled(rs, fromDate, toDate, now, periodId)
  {
    forall k | 0 <= k < |rs| {
      MarkedIdIff(rs, fromDate, toDate, k);
    }
  }

  /** The in-place `updateMany` on the reading table. */
  method UpdateMany(a: array<Reading>, ids: set<int>, now: Date, periodId: int)
    modifies a
    ensures a[..] == MarkIds(old(a[..]), ids, now, periodId)
  {
    ghost var rs := a[..];
    var i := 0;
    while i < a.Length
      invariant 0 <= i <= a.Length
      invariant forall k :: 0 <= k < i ==> a[k] == MarkIds(rs, ids, now, periodId)[k]
      invariant forall k :: i <= k < a.Length ==> a[k] == rs[k]
    {
      if a[i].id in ids {
        a[i] := a[i].(billedAt := Some(now), billPeriodId := Some(periodId));
      }
      i := i + 1;
    }
  }

  /** `createBillPeriod(...)`: look both readings up, fail before any write when
      one is missing, insert the bill period, then mark the open readings in the
      half-open date range after the from reading. The two writes are
      sequential. */
  method CreateBillPeriod(db: Database, req: BillRequest, now: Date) returns (r: Result<BillPeriod, CommitError>)
    requires db.Valid()
    modifies db, db.readings
    ensures db.Valid() && db.readings == old(db.readings)
    ensures
      var f, t := FindById(old(db.readings[..]), req.fromId), FindById(old(db.readings[..]), req.toId);
      if f.None? || t.None? then
        && r == Failure(MissingReadings)
        && db.readings[..] == old(db.readings[..])
        && db.periods == old(db.periods) && db.nextPeriodId == old(db.nextPeriodId)
      else
        && r == Success(NewBillPeriod(old(db.nextPeriodId), f.value, t.value, req, now))
        && db.periods == old(db.periods) + [r.value]
        && db.nextPeriodId == old(db.nextPeriodId) + 1
        && db.readings[..] == MarkBilled(old(db.readings[..]), f.value.date, t.value.date, now, r.value.id)
  {
    var rs := db.readings[..];
    var fromReading, toReading := FindById(rs, req.fromId), FindById(rs, req.toId);
    if fromReading.None? || toReading.None? {
      return Failure(MissingReadings);
    }
    var from, to := fromReading.value, toReading.value;

    var period := NewBillPeriod(db.nextPeriodId, from, to, req, now);
    db.periods := db.periods + [period];
    db.nextPeriodId := db.nextPeriodId + 1;

    var toMark := ReadingsToMark(rs, from.date, to.date);
    MarkIdsIsMarkBilled(rs, from.date, to.date, now, period.id);
    if |toMark| > 0 {
      UpdateMany(db.readings, IdsOf(toMark), now, period.id);
    } else {
      assert IdsOf(toMark) == {};
      assert MarkIds(rs, {}, now, period.id) == rs;
    }
    CommitKeepsWellFormed(rs, old(db.periods), period.id, from.date, to.date, now, period);
    r := Success(period);
  }

  // ---------------------------------------------------------------------------
  // getBillingHistory

  /** `getBillingHistory()`: every bill period, newest `sentAt` first. */
  function GetBillingHistory(ps: seq<BillPeriod>): (h: seq<BillPeriod>)
    ensures multiset(h) == multiset(ps)
    ensures forall i, j :: 0 <= i < j < |h| ==> h[i].sentAt >= h[j].sentAt
  {
    var sorted := SortBy(ps, NegSentAt);
    assert forall i, j :: 0 <= i < j < |sorted| ==> NegSentAt(sorted[i]) <= NegSentAt(sorted[j]);
    sorted
  }
}
