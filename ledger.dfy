/**
 * The reservation ledger's value-level logic: the reservation record, the
 * "already booked" test of `submitReservation` and the one-reservation-per-slot
 * invariant.
 */
module Ledger {

  import opened Slots
  import opened Artists

  /** A booking, holding a snapshot of the artist's details at booking time. */
  datatype Reservation = Reservation(
    id: string,
    dateKey: string,
    slotId: SlotId,
    artistId: string,
    name: string,
    artistName: string,
    phone: string,
    lineId: string,
    note: string,
    createdAt: string)

  /** Some reservation holds slot `s` on `dateKey`. */
  predicate IsBooked(res: map<string, Reservation>, dateKey: string, s: SlotId)
  {
    exists id | id in res :: res[id].dateKey == dateKey && res[id].slotId == s
  }

  /** At most one reservation per (dateKey, slotId). */
  ghost predicate UniqueBookings(res: map<string, Reservation>)
  {
    forall i, j ::
      (i in res && j in res && res[i].dateKey == res[j].dateKey && res[i].slotId == res[j].slotId)
      ==> i == j
  }

  /** Every reservation is filed under its own id. */
  ghost predicate KeyedById(res: map<string, Reservation>)
  {
    forall id :: id in res ==> res[id].id == id
  }

  /**
   * The record `submitReservation` stores: name, phone and LINE id copied from the
   * artist, and `artistName = artist || name`.
   */
  function Snapshot(a: Artist, id: string, dateKey: string, s: SlotId, note: string, createdAt: string)
    : (r: Reservation)
    ensures r.id == id && r.dateKey == dateKey && r.slotId == s && r.artistId == a.id
    ensures r.name == a.name && r.phone == a.phone && r.lineId == a.lineId
    ensures r.artistName == (if a.artist != "" then a.artist else a.name)
  {
    Reservation(id, dateKey, s, a.id, a.name, if a.artist != "" then a.artist else a.name,
                a.phone, a.lineId, note, createdAt)
  }

  /**
   * Adding a reservation under a fresh id keeps the ledger free of double bookings
   * exactly when its slot was not booked yet: the duplicate check is both enough
   * and necessary.
   */
  lemma InsertKeepsUnique(res: map<string, Reservation>, id: string, r: Reservation)
    requires UniqueBookings(res) && id !in res
    ensures UniqueBookings(res[id := r]) <==> !IsBooked(res, r.dateKey, r.slotId)
  {
    var res' := res[id := r];
    if IsBooked(res, r.dateKey, r.slotId) {
      var other :| other in res && res[other].dateKey == r.dateKey && res[other].slotId == r.slotId;
      assert other in res' && id in res' && other != id;
      assert res'[other].dateKey == res'[id].dateKey && res'[other].slotId == res'[id].slotId;
    } else {
      forall i, j | i in res' && j in res' && res'[i].dateKey == res'[j].dateKey
        && res'[i].slotId == res'[j].slotId
        ensures i == j
      {
        if i != id && j != id {
          assert res'[i] == res[i] && res'[j] == res[j];
        }
      }
    }
  }

  /** Removing a reservation frees its slot and keeps the ledger free of double bookings. */
  lemma RemoveFreesSlot(res: map<string, Reservation>, id: string)
    requires UniqueBookings(res) && id in res
    ensures UniqueBookings(res - {id})
    ensures !IsBooked(res - {id}, res[id].dateKey, res[id].slotId)
    ensures forall d, s :: (d, s) != (res[id].dateKey, res[id].slotId) ==>
      (IsBooked(res - {id}, d, s) <==> IsBooked(res, d, s))
  {
    var res' := res - {id};
    forall d, s | (d, s) != (res[id].dateKey, res[id].slotId) && IsBooked(res, d, s)
      ensures IsBooked(res', d, s)
    {
      var other :| other in res && res[other].dateKey == d && res[other].slotId == s;
      assert other in res';
    }
  }
}
