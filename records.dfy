/** The data model of the electricity-billing store: meter readings, price
    configurations and bill periods, and the store object that holds them. */
module Records {
  import opened Wrappers

  /** A point in time, as a timestamp. */
  type Date = int

  /** The local-time calendar: `year` is `Date.getFullYear()` and `month` is the
      zero-based `Date.getMonth()`. Their definition (time zones, leap years) is a
      parameter of the model. */
  datatype Calendar = Calendar(year: Date -> int, month: Date -> int)

  /** A meter snapshot. `valueHT`/`valueNT` are cumulative counters of the high
      and low tariff; `billedAt` and `billPeriodId` are set when the reading is
      billed. */
  datatype Reading = Reading(
    id: int,
    date: Date,
    valueHT: real,
    valueNT: real,
    billedAt: Option<Date>,
    billPeriodId: Option<int>,
    billingNote: Option<string>)

  /** A reading is billed once `billedAt` is set, and open while it is null. */
  predicate IsBilled(r: Reading) { r.billedAt.Some? }
  predicate IsOpen(r: Reading) { r.billedAt.None? }

  /** A tariff; `baseFeeSplit` is the percentage of the monthly base fee charged,
      `None` when the field is undefined. */
  datatype PriceConfig = PriceConfig(
    priceHT: real,
    priceNT: real,
    baseFee: real,
    baseFeeSplit: Option<real>,
    validFrom: Date)

  /** A committed billing event. */
  datatype BillPeriod = BillPeriod(
    id: int,
    fromDate: Date,
    toDate: Date,
    fromReadingId: int,
    toReadingId: int,
    totalCost: real,
    energyCost: real,
    baseFeeCost: real,
    billingMonths: int,
    diffHT: real,
    diffNT: real,
    sentAt: Date,
    sentVia: string)

  function DateOf(r: Reading): int { r.date }

  /** Reading ids are the table's primary key. */
  ghost predicate UniqueIds(rs: seq<Reading>) {
    forall i, j :: 0 <= i < |rs| && 0 <= j < |rs| && rs[i].id == rs[j].id ==> i == j
  }

  function PeriodIds(ps: seq<BillPeriod>): set<int> {
    set p | p in ps :: p.id
  }

  /** The consistency of the tables: unique reading ids, bill-period ids issued in
      increasing order below the next free id, and a reading's `billPeriodId`
      set only together with `billedAt` and only to an existing period. */
  ghost predicate WellFormed(rs: seq<Reading>, ps: seq<BillPeriod>, nextPeriodId: int) {
    && UniqueIds(rs)
    && (forall i, j :: 0 <= i < j < |ps| ==> ps[i].id < ps[j].id)
    && (forall p :: p in ps ==> p.id < nextPeriodId)
    && (forall r :: r in rs && r.billPeriodId.Some? ==>
          IsBilled(r) && r.billPeriodId.value in PeriodIds(ps))
  }

  /** `findUnique({ where: { id } })` on the reading table. */
  function FindById(rs: seq<Reading>, id: int): (r: Option<Reading>)
    ensures r.Some? ==> r.value in rs && r.value.id == id
    ensures r.None? <==> forall x :: x in rs ==> x.id != id
  {
    if rs == [] then None
    else if rs[0].id == id then Some(rs[0])
    else FindById(rs[1..], id)
  }

  lemma {:induction false} FindByIdUnique(rs: seq<Reading>, k: int)
    requires UniqueIds(rs) && 0 <= k < |rs|
    ensures FindById(rs, rs[k].id) == Some(rs[k])
  {
    if rs[0].id != rs[k].id {
      assert k != 0;
      var tail := rs[1..];
      assert UniqueIds(tail) by {
        forall i, j | 0 <= i < |tail| && 0 <= j < |tail| && tail[i].id == tail[j].id
          ensures i == j
        {
          assert rs[i + 1].id == rs[j + 1].id;
        }
      }
      FindByIdUnique(tail, k - 1);
    }
  }

  /** The store: the reading table, updated in place, the bill-period table and
      the id the next bill period receives. */
  class Database {
    var readings: array<Reading>
    var periods: seq<BillPeriod>
    var nextPeriodId: int

    ghost predicate Valid()
      reads this, readings
    {
      WellFormed(readings[..], periods, nextPeriodId)
    }

    constructor (initial: seq<Reading>)
      requires UniqueIds(initial)
      requires forall r :: r in initial ==> r.billPeriodId.None?
      ensures Valid() && fresh(readings)
      ensures readings[..] == initial && periods == [] && nextPeriodId == 1
    {
      readings := new Reading[|initial|](i requires 0 <= i < |initial| => initial[i]);
      periods := [];
      nextPeriodId := 1;
      new;
      assert readings[..] == initial;
    }
  }
}
