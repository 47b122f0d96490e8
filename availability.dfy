/**
 * What the calendar and the slot list show, derived from the registry and the
 * ledger on every query: the status of a day cell in `renderCalendar` and the
 * entries of `renderModalSlots`.
 */
module Availability {

  import opened DateKeys
  import opened Slots
  import opened Ledger

  /** The state a day cell shows, in the source's priority order. */
  datatype DayStatus = TooFuture | Past | AllClosed | Full | Available

  /** `openSlots.filter(s => dayRess.some(r => r.slotId === s.id))`. */
  function BookedAmong(res: map<string, Reservation>, dateKey: string, ss: seq<SlotId>): (r: seq<SlotId>)
    ensures |r| <= |ss|
    ensures |r| == |ss| <==> forall k :: 0 <= k < |ss| ==> IsBooked(res, dateKey, ss[k])
  {
    if ss == [] then []
    else
      var rest := BookedAmong(res, dateKey, ss[1..]);
      assert forall k :: 0 < k < |ss| ==> ss[k] == ss[1..][k - 1];
      if IsBooked(res, dateKey, ss[0]) then [ss[0]] + rest else rest
  }

  /**
   * The status of the cell for date `x` (src/main.ts:417-442): beyond the horizon
   * beats everything, a past day shows only as past, then a day with every slot
   * closed, then a day whose open slots are all booked; anything else still has a
   * free open slot.
   */
  function StatusOfDay(closed: set<string>, res: map<string, Reservation>, x: Date, today: Date, limitEnd: Date)
    : (r: DayStatus)
    ensures r == TooFuture <==> DateLess(limitEnd, x)
    ensures r == Past <==> !DateLess(limitEnd, x) && DateLess(x, today)
    ensures r == AllClosed <==>
      !DateLess(limitEnd, x) && !DateLess(x, today) && forall s :: IsClosed(closed, KeyOf(x), s)
    ensures r == Full <==>
      && !DateLess(limitEnd, x) && !DateLess(x, today)
      && (exists s :: !IsClosed(closed, KeyOf(x), s))
      && forall s :: !IsClosed(closed, KeyOf(x), s) ==> IsBooked(res, KeyOf(x), s)
    ensures r == Available <==>
      && !DateLess(limitEnd, x) && !DateLess(x, today)
      && exists s :: !IsClosed(closed, KeyOf(x), s) && !IsBooked(res, KeyOf(x), s)
  {
    var key := KeyOf(x);
    var open := OpenSlotsFor(closed, key);
    var bookedCount := |BookedAmong(res, key, open)|;
    if DateLess(limitEnd, x) then TooFuture
    else if DateLess(x, today) then Past
    else if |open| == 0 then
      AllClosed
    else if bookedCount >= |open| && |open| > 0 then
      assert open[0] in open;
      assert forall s :: !IsClosed(closed, key, s) ==> IsBooked(res, key, s) by {
        forall s | !IsClosed(closed, key, s) ensures IsBooked(res, key, s) {
          var k :| 0 <= k < |open| && open[k] == s;
        }
      }
      Full
    else
      var k :| 0 <= k < |open| && !IsBooked(res, key, open[k]);
      assert !IsClosed(closed, key, open[k]) && !IsBooked(res, key, open[k]);
      Available
  }

  /** The cell opens the slot list when the day is neither past, all closed nor too far ahead (src/main.ts:454). */
  predicate OpensSlotList(closed: set<string>, x: Date, today: Date, limitEnd: Date)
  {
    !DateLess(x, today) && |OpenSlotsFor(closed, KeyOf(x))| != 0 && !DateLess(limitEnd, x)
  }

  /** A full day still opens the slot list; the other clickable status is "available". */
  lemma OpensSlotListStatus(closed: set<string>, res: map<string, Reservation>, x: Date, today: Date, limitEnd: Date)
    ensures OpensSlotList(closed, x, today, limitEnd) <==>
      StatusOfDay(closed, res, x, today, limitEnd) in {Full, Available}
  {
    var open := OpenSlotsFor(closed, KeyOf(x));
    if open != [] {
      assert !IsClosed(closed, KeyOf(x), open[0]);
    }
  }

  /** One row of the slot list: a slot, and whether its "reserve" button is live. */
  datatype SlotEntry = SlotEntry(slot: SlotId, reservable: bool)

  /** The rows for the slots `ss`, in their order: a booked slot is skipped. */
  function EntriesFor(closed: set<string>, res: map<string, Reservation>, dateKey: string, ss: seq<SlotId>)
    : (r: seq<SlotEntry>)
    ensures forall e :: e in r ==>
      e.slot in ss && !IsBooked(res, dateKey, e.slot) && e.reservable == !IsClosed(closed, dateKey, e.slot)
    ensures forall s :: s in ss && !IsBooked(res, dateKey, s) ==>
      SlotEntry(s, !IsClosed(closed, dateKey, s)) in r
  {
    if ss == [] then []
    else
      var rest := EntriesFor(closed, res, dateKey, ss[1..]);
      assert ss == [ss[0]] + ss[1..];
      if IsBooked(res, dateKey, ss[0]) then rest
      else [SlotEntry(ss[0], !IsClosed(closed, dateKey, ss[0]))] + rest
  }

  /** Rows listed in `SLOTS` order, each slot at most once. */
  predicate EntriesInOrder(r: seq<SlotEntry>)
  {
    forall i, j :: 0 <= i < j < |r| ==> SlotIndex(r[i].slot) < SlotIndex(r[j].slot)
  }

  lemma PrependInOrder(e: SlotEntry, rest: seq<SlotEntry>)
    requires EntriesInOrder(rest)
    requires forall f :: f in rest ==> SlotIndex(e.slot) < SlotIndex(f.slot)
    ensures EntriesInOrder([e] + rest)
  {
    var r := [e] + rest;
    forall i, j | 0 <= i < j < |r| ensures SlotIndex(r[i].slot) < SlotIndex(r[j].slot) {
      assert r[j] == rest[j - 1];
      if i > 0 {
        assert r[i] == rest[i - 1];
      }
    }
  }

  /** Rows come out in the order of the slots they were built from. */
  lemma {:induction false} EntriesOrdered(closed: set<string>, res: map<string, Reservation>, dateKey: string, ss: seq<SlotId>)
    requires InSlotOrder(ss)
    ensures EntriesInOrder(EntriesFor(closed, res, dateKey, ss))
  {
    if ss != [] {
      var tail := ss[1..];
      assert InSlotOrder(tail) by {
        forall i, j | 0 <= i < j < |tail| ensures SlotIndex(tail[i]) < SlotIndex(tail[j]) {
          assert tail[i] == ss[i + 1] && tail[j] == ss[j + 1];
        }
      }
      EntriesOrdered(closed, res, dateKey, tail);
      var rest := EntriesFor(closed, res, dateKey, tail);
      if !IsBooked(res, dateKey, ss[0]) {
        var e := SlotEntry(ss[0], !IsClosed(closed, dateKey, ss[0]));
        forall f | f in rest ensures SlotIndex(e.slot) < SlotIndex(f.slot) {
          var k :| 0 <= k < |tail| && tail[k] == f.slot;
          assert ss[k + 1] == f.slot;
        }
        PrependInOrder(e, rest);
      }
    }
  }

  /** The three promises of the slot list, for any complete, ordered list of slots. */
  lemma ListedEntries(closed: set<string>, res: map<string, Reservation>, dateKey: string, ss: seq<SlotId>)
    requires InSlotOrder(ss) && forall s :: s in ss
    ensures var r := EntriesFor(closed, res, dateKey, ss);
      && (forall e :: e in r ==>
            !IsBooked(res, dateKey, e.slot) && (e.reservable <==> !IsClosed(closed, dateKey, e.slot)))
      && (forall s :: !IsBooked(res, dateKey, s) ==> SlotEntry(s, !IsClosed(closed, dateKey, s)) in r)
      && EntriesInOrder(r)
  {
    EntriesOrdered(closed, res, dateKey, ss);
  }

  /**
   * The slot list of `renderModalSlots` (src/main.ts:509-549): booked slots are
   * hidden, every other slot is listed once in `SLOTS` order, and a closed one is
   * listed with its button disabled.
   */
  function ModalSlots(closed: set<string>, res: map<string, Reservation>, dateKey: string): (r: seq<SlotEntry>)
    ensures forall e :: e in r ==>
      !IsBooked(res, dateKey, e.slot) && (e.reservable <==> !IsClosed(closed, dateKey, e.slot))
    ensures forall s :: !IsBooked(res, dateKey, s) ==> SlotEntry(s, !IsClosed(closed, dateKey, s)) in r
    ensures forall i, j :: 0 <= i < j < |r| ==> SlotIndex(r[i].slot) < SlotIndex(r[j].slot)
  {
    EverySlotListed();
    ListedEntries(closed, res, dateKey, AllSlots);
    EntriesFor(closed, res, dateKey, AllSlots)
  }

  /**
   * On a day that is neither past nor beyond the horizon, the slot list offers a
   * live "reserve" button exactly when the calendar shows the day as available:
   * a full or all-closed day offers none.
   */
  lemma ModalAgreesWithStatus(closed: set<string>, res: map<string, Reservation>, x: Date, today: Date, limitEnd: Date)
    requires !DateLess(limitEnd, x) && !DateLess(x, today)
    ensures (exists e :: e in ModalSlots(closed, res, KeyOf(x)) && e.reservable)
            <==> StatusOfDay(closed, res, x, today, limitEnd) == Available
  {
    var key := KeyOf(x);
    var list := ModalSlots(closed, res, key);
    if StatusOfDay(closed, res, x, today, limitEnd) == Available {
      var s :| !IsClosed(closed, key, s) && !IsBooked(res, key, s);
      assert SlotEntry(s, true) in list;
    }
  }
}
