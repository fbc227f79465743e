/** The one-time migration that marks every existing reading but the newest as
    billed (prisma/migrations/mark-existing-billed.js). */
module Migration {
  import opened Wrappers
  import opened Records
  import opened Queries

  const MigrationNote: string := "Automatisch markiert (initiale Migration)"

  datatype Outcome =
    | SkippedAlreadyBilled(alreadyBilled: nat)
    | SkippedTooFew
    | Migrated(count: nat, newestId: int)

  /** `reading.count({ where: { billedAt: { not: null } } })`. */
  function CountBilled(rs: seq<Reading>): (n: nat)
    ensures n == |Filter(rs, IsBilled)|
    ensures n <= |rs|
    ensures n == 0 <==> forall x :: x in rs ==> x.billedAt.None?
    ensures n == |rs| <==> forall x :: x in rs ==> x.billedAt.Some?
  {
    if rs == [] then 0
    else
      assert forall x :: x in rs <==> x == rs[0] || x in rs[1..];
      (if rs[0].billedAt.Some? then 1 else 0) + CountBilled(rs[1..])
  }

  /** The position of the first reading in date-descending order: a reading no
      older than any other (the first such in table order). */
  function NewestIndex(rs: seq<Reading>): (k: nat)
    requires |rs| > 0
    ensures k < |rs|
    ensures forall i :: 0 <= i < |rs| ==> rs[i].date <= rs[k].date
  {
    if |rs| == 1 then 0
    else
      var k := NewestIndex(rs[1..]) + 1;
      if rs[0].date >= rs[k].date then 0 else k
  }

  /** The table after `updateMany` on every reading but the one at `keep`. */
  function MarkAllBut(rs: seq<Reading>, keep: int, now: Date): seq<Reading> {
    seq(|rs|, i requires 0 <= i < |rs| =>
      if i == keep then rs[i] else rs[i].(billedAt := Some(now), billingNote := Some(MigrationNote)))
  }

  /** What the migration decides on a table. */
  function Plan(rs: seq<Reading>): Outcome {
    var alreadyBilled := CountBilled(rs);
    if alreadyBilled > 0 then SkippedAlreadyBilled(alreadyBilled)
    else if |rs| < 2 then SkippedTooFew
    else Migrated(|rs| - 1, rs[NewestIndex(rs)].id)
  }

  /** The reading table after the migration, run at time `now`. */
  function Migrate(rs: seq<Reading>, now: Date): seq<Reading> {
    if Plan(rs).Migrated? then MarkAllBut(rs, NewestIndex(rs), now) else rs
  }

  /** If any reading is already billed, the migration changes nothing. */
  lemma SkipsWhenAnyBilled(rs: seq<Reading>, now: Date)
    requires exists x :: x in rs && x.billedAt.Some?
    ensures Plan(rs).SkippedAlreadyBilled? && Migrate(rs, now) == rs
  {
  }

  /** With fewer than two readings, the migration changes nothing. */
  lemma SkipsWhenFewerThanTwo(rs: seq<Reading>, now: Date)
    requires |rs| < 2
    ensures !Plan(rs).Migrated? && Migrate(rs, now) == rs
  {
  }

  /** A run that migrates keeps the newest reading as it was and marks every
      other reading billed at `now` with the migration note; ids, dates,
      counters and `billPeriodId` stay as they were. */
  lemma MarksAllButNewest(rs: seq<Reading>, now: Date)
    requires Plan(rs).Migrated?
    ensures var out := Migrate(rs, now);
      && |out| == |rs| >= 2
      && (forall i :: 0 <= i < |rs| ==> rs[i].billedAt.None?)
      && exists keep ::
        && 0 <= keep < |rs| && out[keep] == rs[keep] && rs[keep].id == Plan(rs).newestId
        && (forall i :: 0 <= i < |rs| ==> rs[i].date <= rs[keep].date)
        && forall i :: 0 <= i < |rs| && i != keep ==>
             out[i] == rs[i].(billedAt := Some(now), billingNote := Some(MigrationNote))
  {
    var keep := NewestIndex(rs);
    forall i | 0 <= i < |rs| ensures rs[i].billedAt.None? {
      assert rs[i] in rs;
    }
  }

  lemma {:induction false} CountAllButOne(s: seq<Reading>, keep: int)
    requires 0 <= keep < |s| && s[keep].billedAt.None?
    requires forall i :: 0 <= i < |s| && i != keep ==> s[i].billedAt.Some?
    ensures CountBilled(s) == |s| - 1
  {
    if keep == 0 {
      assert forall x :: x in s[1..] ==> x.billedAt.Some?;
    } else {
      CountAllButOne(s[1..], keep - 1);
    }
  }

  /** After a run that migrates, exactly one reading, the newest, is open and
      the count of marked readings is the number of readings less one. */
  lemma LeavesOneOpen(rs: seq<Reading>, now: Date)
    requires Plan(rs).Migrated?
    ensures CountBilled(Migrate(rs, now)) == |rs| - 1 == Plan(rs).count
  {
    var keep := NewestIndex(rs);
    var out := Migrate(rs, now);
    assert rs[keep] in rs;
    CountAllButOne(out, keep);
  }

  /** Running the migration twice leaves the table as running it once: the
      second run finds billed readings and skips, whatever its clock says. */
  lemma Idempotent(rs: seq<Reading>, now: Date, later: Date)
    ensures Migrate(Migrate(rs, now), later) == Migrate(rs, now)
    ensures Plan(rs).Migrated? ==> Plan(Migrate(rs, now)) == SkippedAlreadyBilled(|rs| - 1)
  {
    if Plan(rs).Migrated? {
      LeavesOneOpen(rs, now);
    }
  }

  /** The migration keeps the tables well formed: it sets `billedAt` and never
      `billPeriodId`. */
  lemma KeepsWellFormed(rs: seq<Reading>, ps: seq<BillPeriod>, nextId: int, now: Date)
    requires WellFormed(rs, ps, nextId)
    ensures WellFormed(Migrate(rs, now), ps, nextId)
  {
    if Plan(rs).Migrated? {
      MarkAllButKeepsWellFormed(rs, ps, nextId, NewestIndex(rs), now);
    }
  }

  lemma MarkAllButKeepsWellFormed(rs: seq<Reading>, ps: seq<BillPeriod>, nextId: int, keep: int, now: Date)
    requires WellFormed(rs, ps, nextId)
    ensures WellFormed(MarkAllBut(rs, keep, now), ps, nextId)
  {
    var out := MarkAllBut(rs, keep, now);
    forall r | r in out && r.billPeriodId.Some?
      ensures r.billedAt.Some? && r.billPeriodId.value in PeriodIds(ps)
    {
      var i :| 0 <= i < |out| && out[i] == r;
      assert rs[i] in rs;
    }
  }

  /** The ids of every reading but the one at `keep` (`allReadings.slice(1)`). */
  function IdsExcept(rs: seq<Reading>, keep: int): set<int> {
    set j | 0 <= j < |rs| && j != keep :: rs[j].id
  }

  /** With unique ids, those ids select exactly the other rows. */
  lemma ToBillIff(rs: seq<Reading>, keep: int)
    requires UniqueIds(rs)
    ensures forall k :: 0 <= k < |rs| ==> (rs[k].id in IdsExcept(rs, keep) <==> k != keep)
  {
    forall k | 0 <= k < |rs| ensures rs[k].id in IdsExcept(rs, keep) <==> k != keep {
      if rs[k].id in IdsExcept(rs, keep) {
        var j :| 0 <= j < |rs| && j != keep && rs[j].id == rs[k].id;
        assert j == k;
      }
      if k != keep {
        assert rs[k].id in IdsExcept(rs, keep);
      }
    }
  }

  /** The in-place `updateMany` of the migration: every row whose id is in
      `toBill` gets the run's time and the migration note. */
  method UpdateAllBut(a: array<Reading>, toBill: set<int>, ghost keep: int, now: Date)
    requires forall k :: 0 <= k < a.Length ==> (a[k].id in toBill <==> k != keep)
    modifies a
    ensures a[..] == MarkAllBut(old(a[..]), keep, now)
  {
    ghost var rs := a[..];
    var i := 0;
    while i < a.Length
      invariant 0 <= i <= a.Length == |rs|
      invariant forall k :: 0 <= k < i ==> a[k] == MarkAllBut(rs, keep, now)[k]
      invariant forall k :: i <= k < |rs| ==> a[k] == rs[k]
    {
      if a[i].id in toBill {
        a[i] := a[i].(billedAt := Some(now), billingNote := Some(MigrationNote));
      }
      i := i + 1;
    }
  }

  /** `main()`: skip when a reading is already billed or fewer than two exist;
      otherwise `updateMany` every reading whose id is among the ids of all but
      the newest. */
  method MarkExistingBilled(db: Database, now: Date) returns (outcome: Outcome)
    requires db.Valid()
    modifies db.readings
    ensures db.Valid()
    ensures outcome == Plan(old(db.readings[..]))
    ensures db.readings[..] == Migrate(old(db.readings[..]), now)
  {
    var rs := db.readings[..];
    var alreadyBilled := CountBilled(rs);
    if alreadyBilled > 0 {
      return SkippedAlreadyBilled(alreadyBilled);
    }
    if |rs| < 2 {
      return SkippedTooFew;
    }
    var keep := NewestIndex(rs);
    var toBill := IdsExcept(rs, keep);
    ToBillIff(rs, keep);
    UpdateAllBut(db.readings, toBill, keep, now);
    MarkAllButKeepsWellFormed(rs, db.periods, db.nextPeriodId, keep, now);
    outcome := Migrated(|rs| - 1, rs[keep].id);
  }
}
