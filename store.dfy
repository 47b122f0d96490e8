/**
 * The demo's in-memory state and every operation that changes it: the closed-slot
 * registry (toggle, bulk open/close of a date, period bulk), the reservation
 * ledger (submit, cancel) and the artist directory (register, approve, reject).
 * Each operation runs its checks in the source's order; the first that fails
 * leaves the state as it was and is reported as a `Refusal`.
 */
module Store {

  import opened Wrappers
  import opened DateKeys
  import opened Slots
  import opened Artists
  import opened Ledger
  import opened Period

  /** Why an operation changed nothing: one case per early `return` of the source. */
  datatype Refusal =
    | BeyondHorizon      // a key after `limitMaxKey()`
    | NotAdmin           // admin login required
    | MissingPeriod      // start or end date left empty
    | EndBeforeStart     // start key after end key
    | NoTargetDates      // the walk picked no date
    | NoArtist           // no artist looked up
    | NoSelection        // no date or slot selected
    | TooFarAhead        // the selected date is after the limit date
    | SlotTaken          // the slot already has a reservation
    | UnknownArtist      // the looked-up artist is gone (the source throws)
    | NotApproved        // the artist is still pending
    | NothingPending     // no reservation chosen for cancelling
    | NoSuchReservation  // the chosen reservation is gone
    | Invalid(why: RegistrationError)
    | NoSuchArtist       // approve/reject of an id not in the directory
    | Declined           // the confirmation dialog was dismissed

  datatype Outcome = Done | Refused(why: Refusal)

  /** The registry after setting (`isClose`) or clearing every key of `keys`. */
  function Apply(closed: set<string>, keys: set<string>, isClose: bool): (r: set<string>)
    ensures forall k :: k in r <==> (if k in keys then isClose else k in closed)
  {
    if isClose then closed + keys else closed - keys
  }

  lemma MulStep(i: int, n: int)
    ensures (i + 1) * n == i * n + n
  {
  }

  /** Applying two key sets one after the other is applying their union. */
  lemma ApplyTwice(closed: set<string>, k1: set<string>, k2: set<string>, isClose: bool)
    ensures Apply(Apply(closed, k1, isClose), k2, isClose) == Apply(closed, k1 + k2, isClose)
  {
  }

  /**
   * The guard of `toggleSlot`, `bulkOpen` and `bulkClose`: the horizon is checked
   * before the admin flag, and the operation goes ahead only when both pass.
   */
  function SlotGuard(dateKey: string, maxKey: string, isAdmin: bool): (r: Option<Refusal>)
    ensures r == None <==> !StrLess(maxKey, dateKey) && isAdmin
    ensures r == Some(BeyondHorizon) <==> StrLess(maxKey, dateKey)
    ensures r == Some(NotAdmin) <==> !StrLess(maxKey, dateKey) && !isAdmin
  {
    if StrLess(maxKey, dateKey) then Some(BeyondHorizon)
    else if !isAdmin then Some(NotAdmin)
    else None
  }

  /**
   * The guard of `periodBulk`: admin first, then both dates present, then start not
   * after end, then neither bound after the horizon key.
   */
  function PeriodGuard(startVal: string, endVal: string, maxKey: string, isAdmin: bool): (r: Option<Refusal>)
    ensures r == None <==>
      && isAdmin && startVal != "" && endVal != "" && !StrLess(endVal, startVal)
      && !StrLess(maxKey, startVal) && !StrLess(maxKey, endVal)
    ensures r == Some(NotAdmin) <==> !isAdmin
    ensures r == Some(MissingPeriod) <==> isAdmin && (startVal == "" || endVal == "")
    ensures r == Some(EndBeforeStart) <==> isAdmin && startVal != "" && endVal != "" && StrLess(endVal, startVal)
    ensures r == Some(BeyondHorizon) <==>
      && isAdmin && startVal != "" && endVal != "" && !StrLess(endVal, startVal)
      && (StrLess(maxKey, startVal) || StrLess(maxKey, endVal))
  {
    if !isAdmin then Some(NotAdmin)
    else if startVal == "" || endVal == "" then Some(MissingPeriod)
    else if StrLess(endVal, startVal) then Some(EndBeforeStart)
    else if StrLess(maxKey, startVal) || StrLess(maxKey, endVal) then Some(BeyondHorizon)
    else None
  }

  /** `checkedSlots.length ? checkedSlots : SLOTS.map(s => s.id)`. */
  function TargetSlots(checked: seq<SlotId>): (r: seq<SlotId>)
    ensures checked != [] ==> r == checked
    ensures checked == [] ==> forall s :: s in r
  {
    EverySlotListed();
    if checked != [] then checked else AllSlots
  }

  /**
   * The checks of `submitReservation`, in order: an artist must have been looked up,
   * a date and a slot selected, the date not after the limit date and the slot still
   * free; then the artist must still exist and be approved. Closed slots and past
   * dates are not checked here.
   */
  function BookingRefusal(found: Option<string>, date: Option<Date>, slot: Option<SlotId>, limitEnd: Date,
                          reservations: map<string, Reservation>, artists: map<string, Artist>)
    : (r: Option<Refusal>)
    ensures r == None <==>
      && found.Some? && date.Some? && slot.Some? && !DateLess(limitEnd, date.value)
      && !IsBooked(reservations, KeyOf(date.value), slot.value)
      && found.value in artists && artists[found.value].status == Approved
    ensures r == Some(NoArtist) <==> found.None?
    ensures r == Some(NoSelection) <==> found.Some? && (date.None? || slot.None?)
    ensures r == Some(TooFarAhead) <==> found.Some? && date.Some? && slot.Some? && DateLess(limitEnd, date.value)
    ensures r == Some(SlotTaken) <==>
      && found.Some? && date.Some? && slot.Some? && !DateLess(limitEnd, date.value)
      && IsBooked(reservations, KeyOf(date.value), slot.value)
    ensures r == Some(UnknownArtist) <==>
      && found.Some? && date.Some? && slot.Some? && !DateLess(limitEnd, date.value)
      && !IsBooked(reservations, KeyOf(date.value), slot.value)
      && found.value !in artists
    ensures r == Some(NotApproved) <==>
      && found.Some? && date.Some? && slot.Some? && !DateLess(limitEnd, date.value)
      && !IsBooked(reservations, KeyOf(date.value), slot.value)
      && found.value in artists && artists[found.value].status != Approved
  {
    if found.None? then Some(NoArtist)
    else if date.None? || slot.None? then Some(NoSelection)
    else if DateLess(limitEnd, date.value) then Some(TooFarAhead)
    else if IsBooked(reservations, KeyOf(date.value), slot.value) then Some(SlotTaken)
    else if found.value !in artists then Some(UnknownArtist)
    else if artists[found.value].status != Approved then Some(NotApproved)
    else None
  }

  /** An order list with no repeated id. */
  predicate Distinct(order: seq<string>)
  {
    forall i, j :: 0 <= i < j < |order| ==> order[i] != order[j]
  }

  /** A list with a distinct head and a distinct tail. */
  lemma DistinctCons(h: string, t: seq<string>)
    ensures Distinct([h] + t) <==> h !in t && Distinct(t)
  {
    var l := [h] + t;
    if h !in t && Distinct(t) {
      forall i, j | 0 <= i < j < |l| ensures l[i] != l[j] {
        assert l[j] == t[j - 1];
        if i > 0 {
          assert l[i] == t[i - 1];
        }
      }
    }
    if Distinct(l) {
      forall i, j | 0 <= i < j < |t| ensures t[i] != t[j] {
        assert t[i] == l[i + 1] && t[j] == l[j + 1];
      }
      forall k | 0 <= k < |t| ensures t[k] != h {
        assert l[k + 1] == t[k] && l[0] == h;
      }
    }
  }

  /** A distinct list with a new id appended stays distinct. */
  lemma DistinctSnoc(order: seq<string>, id: string)
    requires Distinct(order) && id !in order
    ensures Distinct(order + [id])
  {
    var l := order + [id];
    forall i, j | 0 <= i < j < |l| ensures l[i] != l[j] {
      assert l[i] == order[i];
      if j < |order| {
        assert l[j] == order[j];
      }
    }
  }

  /** `order` without `id`, everything else kept in its order. */
  function Without(order: seq<string>, id: string): (r: seq<string>)
    ensures forall x :: x in r <==> x in order && x != id
    ensures |r| <= |order|
    ensures Distinct(order) ==> Distinct(r)
    ensures id !in order ==> r == order
  {
    if order == [] then []
    else
      var rest := Without(order[1..], id);
      assert order == [order[0]] + order[1..];
      DistinctCons(order[0], order[1..]);
      if order[0] == id then rest
      else
        DistinctCons(order[0], rest);
        [order[0]] + rest
  }

  /**
   * In a list without repeats, `Without` cuts out the one position `p` holding
   * `id` and keeps the ids before and after it in their order.
   */
  lemma {:induction false} WithoutCutsOne(order: seq<string>, id: string, p: int)
    requires Distinct(order) && 0 <= p < |order| && order[p] == id
    ensures Without(order, id) == order[..p] + order[p + 1..]
  {
    var t := order[1..];
    assert order == [order[0]] + t;
    DistinctCons(order[0], t);
    if p == 0 {
      assert Without(order, id) == Without(t, id);
    } else {
      WithoutCutsOne(t, id, p - 1);
      assert order[..p] == [order[0]] + t[..p - 1];
      assert order[p + 1..] == t[p..];
    }
  }

  /**
   * The directory is keyed by artist id, and its order lists every id once and
   * nothing else.
   */
  ghost predicate Directory(artists: map<string, Artist>, order: seq<string>)
  {
    && (forall id :: id in artists ==> artists[id].id == id)
    && (forall i :: 0 <= i < |order| ==> order[i] in artists)
    && (forall id :: id in artists ==> id in order)
    && Distinct(order)
  }

  /** Filing a new artist under its own fresh id and appending the id keeps the directory sound. */
  lemma AddKeepsDirectory(artists: map<string, Artist>, order: seq<string>, a: Artist)
    requires Directory(artists, order) && a.id !in artists
    ensures Directory(artists[a.id := a], order + [a.id])
  {
    assert a.id !in order;
    DistinctSnoc(order, a.id);
  }

  /** Removing an artist and its id keeps the directory sound. */
  lemma RemoveKeepsDirectory(artists: map<string, Artist>, order: seq<string>, id: string)
    requires Directory(artists, order)
    ensures Directory(artists - {id}, Without(order, id))
  {
    var rest := Without(order, id);
    forall i | 0 <= i < |rest| ensures rest[i] in artists - {id} {
      assert rest[i] in rest;
    }
  }

  class Store {
    /** `state.reservations`, keyed by reservation id. */
    var reservations: map<string, Reservation>
    /** `state.artists`, keyed by artist id. */
    var artists: map<string, Artist>
    /** The insertion order of `state.artists`, which `Object.values` follows. */
    var artistOrder: seq<string>
    /** `state.closedSlots`: the keys whose value is `true`. */
    var closedSlots: set<string>
    /** Whether the admin is logged in. */
    var isAdmin: bool

    /** The ledger has no double booking, and the directory and its order agree. */
    ghost predicate Valid()
      reads this
    {
      && UniqueBookings(reservations)
      && KeyedById(reservations)
      && Directory(artists, artistOrder)
    }

    /** An empty store; whether the admin is logged in is given. */
    constructor (admin: bool)
      ensures Valid()
      ensures reservations == map[] && artists == map[] && artistOrder == [] && closedSlots == {}
      ensures isAdmin == admin
    {
      reservations := map[];
      artists := map[];
      artistOrder := [];
      closedSlots := {};
      isAdmin := admin;
    }

    /**
     * `lookupArtist` on this directory. The id it reports is the artist's own `id`
     * field, which is also its key here.
     */
    function Lookup(query: string): (r: LookupResult)
      reads this
      requires Valid()
      ensures r.Found? ==> r.id in artists && artists[r.id].id == r.id
      ensures r == BlankQuery <==> Blank(query)
    {
      LookupArtist(artists, artistOrder, query)
    }

    /** `toggleSlot(dateKey, slotId)` (src/main.ts:996-1011): flips one registry key. */
    method ToggleSlot(dateKey: string, s: SlotId, maxKey: string) returns (outcome: Outcome)
      requires Valid()
      modifies this
      ensures Valid()
      ensures outcome == (if SlotGuard(dateKey, maxKey, isAdmin) == None then Done
                          else Refused(SlotGuard(dateKey, maxKey, isAdmin).value))
      ensures closedSlots == (if outcome == Done then Toggle(old(closedSlots), SlotKey(dateKey, s))
                              else old(closedSlots))
      ensures reservations == old(reservations) && artists == old(artists)
      ensures artistOrder == old(artistOrder) && isAdmin == old(isAdmin)
    {
      var guard := SlotGuard(dateKey, maxKey, isAdmin);
      if guard.Some? {
        return Refused(guard.value);
      }
      var k := SlotKey(dateKey, s);
      var willClose := k !in closedSlots;
      if willClose {
        closedSlots := closedSlots + {k};
      } else {
        closedSlots := closedSlots - {k};
      }
      outcome := Done;
    }

    /**
     * The inner loop of the bulk operations: sets (`isClose`) or clears the key of
     * `dateKey` for each slot of `slots` in turn, counting each one in `done`.
     */
    method SetKeys(dateKey: string, slots: seq<SlotId>, isClose: bool, done0: int) returns (done: int)
      modifies this
      ensures closedSlots == Apply(old(closedSlots), KeysFor(dateKey, slots), isClose)
      ensures done == done0 + |slots|
      ensures reservations == old(reservations) && artists == old(artists)
      ensures artistOrder == old(artistOrder) && isAdmin == old(isAdmin)
    {
      done := done0;
      for j := 0 to |slots|
        invariant closedSlots == Apply(old(closedSlots), KeysFor(dateKey, slots[..j]), isClose)
        invariant done == done0 + j
        invariant reservations == old(reservations) && artists == old(artists)
        invariant artistOrder == old(artistOrder) && isAdmin == old(isAdmin)
      {
        KeysForStep(dateKey, slots, j);
        var k := SlotKey(dateKey, slots[j]);
        ApplyTwice(old(closedSlots), KeysFor(dateKey, slots[..j]), {k}, isClose);
        if isClose {
          closedSlots := closedSlots + {k};
        } else {
          closedSlots := closedSlots - {k};
        }
        done := done + 1;
      }
      KeysForAll(dateKey, slots);
    }

    /** `bulkOpen()` (src/main.ts:1013-1024): opens every slot of date `d`. */
    method BulkOpen(d: string, maxKey: string) returns (outcome: Outcome)
      requires Valid()
      modifies this
      ensures Valid()
      ensures outcome == (if SlotGuard(d, maxKey, isAdmin) == None then Done
                          else Refused(SlotGuard(d, maxKey, isAdmin).value))
      ensures closedSlots == (if outcome == Done then old(closedSlots) - DayKeys(d) else old(closedSlots))
      ensures outcome == Done ==> OpenSlotsFor(closedSlots, d) == AllSlots
      ensures reservations == old(reservations) && artists == old(artists)
      ensures artistOrder == old(artistOrder) && isAdmin == old(isAdmin)
    {
      var guard := SlotGuard(d, maxKey, isAdmin);
      if guard.Some? {
        return Refused(guard.value);
      }
      var _ := SetKeys(d, AllSlots, false, 0);
      outcome := Done;
      DayOpened(old(closedSlots), d);
    }

    /** `bulkClose()` (src/main.ts:1026-1037): closes every slot of date `d`. */
    method BulkClose(d: string, maxKey: string) returns (outcome: Outcome)
      requires Valid()
      modifies this
      ensures Valid()
      ensures outcome == (if SlotGuard(d, maxKey, isAdmin) == None then Done
                          else Refused(SlotGuard(d, maxKey, isAdmin).value))
      ensures closedSlots == (if outcome == Done then old(closedSlots) + DayKeys(d) else old(closedSlots))
      ensures outcome == Done ==> OpenSlotsFor(closedSlots, d) == []
      ensures reservations == old(reservations) && artists == old(artists)
      ensures artistOrder == old(artistOrder) && isAdmin == old(isAdmin)
    {
      var guard := SlotGuard(d, maxKey, isAdmin);
      if guard.Some? {
        return Refused(guard.value);
      }
      var _ := SetKeys(d, AllSlots, true, 0);
      outcome := Done;
      AllClosedIffDayKeys(closedSlots, d);
    }

    /**
     * `periodBulk(isClose)` (src/main.ts:1047-1109): after the guard, walks the period
     * collecting the keys of the selected weekdays up to the horizon, and sets or
     * clears every (date, slot) key among them; the progress counter ends at
     * `dates.length * targetSlots.length`.
     */
    method PeriodBulk(isClose: bool, startVal: string, endVal: string, checkedDows: seq<int>,
                      checkedSlots: seq<SlotId>, maxKey: string)
      returns (outcome: Outcome, dates: seq<string>, done: int)
      requires Valid()
      modifies this
      ensures Valid()
      ensures outcome == Done <==>
        PeriodGuard(startVal, endVal, maxKey, isAdmin) == None
        && PeriodDates(startVal, endVal, TargetDows(checkedDows), maxKey) != []
      ensures PeriodGuard(startVal, endVal, maxKey, isAdmin).Some? ==>
        outcome == Refused(PeriodGuard(startVal, endVal, maxKey, isAdmin).value)
      ensures PeriodGuard(startVal, endVal, maxKey, isAdmin) == None
              && PeriodDates(startVal, endVal, TargetDows(checkedDows), maxKey) == [] ==>
        outcome == Refused(NoTargetDates)
      ensures outcome == Done ==> dates == PeriodDates(startVal, endVal, TargetDows(checkedDows), maxKey)
      ensures outcome == Done ==> done == |dates| * |TargetSlots(checkedSlots)|
      ensures closedSlots == (if outcome == Done
                              then Apply(old(closedSlots), PairKeys(dates, TargetSlots(checkedSlots)), isClose)
                              else old(closedSlots))
      ensures reservations == old(reservations) && artists == old(artists)
      ensures artistOrder == old(artistOrder) && isAdmin == old(isAdmin)
    {
      done := 0;
      dates := [];
      var guard := PeriodGuard(startVal, endVal, maxKey, isAdmin);
      if guard.Some? {
        return Refused(guard.value), dates, done;
      }
      var dows := TargetDows(checkedDows);
      var slots := TargetSlots(checkedSlots);
      dates := CollectDates(startVal, endVal, dows, maxKey);
      if |dates| == 0 {
        return Refused(NoTargetDates), dates, done;
      }
      for i := 0 to |dates|
        invariant closedSlots == Apply(old(closedSlots), PairKeys(dates[..i], slots), isClose)
        invariant done == i * |slots|
        invariant reservations == old(reservations) && artists == old(artists)
        invariant artistOrder == old(artistOrder) && isAdmin == old(isAdmin)
      {
        done := SetKeys(dates[i], slots, isClose, done);
        MulStep(i, |slots|);
        ApplyTwice(old(closedSlots), PairKeys(dates[..i], slots), KeysFor(dates[i], slots), isClose);
        PairKeysStep(dates, slots, i);
      }
      assert dates[..|dates|] == dates;
      outcome := Done;
    }

    /**
     * `submitReservation()` (src/main.ts:765-815): after the checks of
     * `BookingRefusal`, files a snapshot of the artist under the fresh id `newId`.
     */
    method SubmitReservation(found: Option<string>, date: Option<Date>, slot: Option<SlotId>, limitEnd: Date,
                             newId: string, note: string, createdAt: string)
      returns (outcome: Outcome)
      requires Valid()
      requires newId !in reservations
      modifies this
      ensures Valid()
      ensures outcome == (if BookingRefusal(found, date, slot, limitEnd, old(reservations), old(artists)) == None
                          then Done
                          else Refused(BookingRefusal(found, date, slot, limitEnd, old(reservations), old(artists)).value))
      ensures outcome == Done ==>
        reservations == old(reservations)[newId :=
          Snapshot(old(artists)[found.value], newId, KeyOf(date.value), slot.value, Trim(note), createdAt)]
      ensures outcome == Done ==> IsBooked(reservations, KeyOf(date.value), slot.value)
      ensures outcome != Done ==> reservations == old(reservations)
      ensures closedSlots == old(closedSlots) && artists == old(artists)
      ensures artistOrder == old(artistOrder) && isAdmin == old(isAdmin)
    {
      var refusal := BookingRefusal(found, date, slot, limitEnd, reservations, artists);
      if refusal.Some? {
        return Refused(refusal.value);
      }
      var dateKey := KeyOf(date.value);
      var a := artists[found.value];
      var r := Snapshot(a, newId, dateKey, slot.value, Trim(note), createdAt);
      InsertKeepsUnique(reservations, newId, r);
      reservations := reservations[newId := r];
      assert reservations[newId].dateKey == dateKey && reservations[newId].slotId == slot.value;
      outcome := Done;
    }

    /** `executeCancel()` (src/main.ts:837-855): deletes the chosen reservation; no admin check. */
    method ExecuteCancel(pending: Option<string>) returns (outcome: Outcome)
      requires Valid()
      modifies this
      ensures Valid()
      ensures outcome == (if pending.None? then Refused(NothingPending)
                          else if pending.value !in old(reservations) then Refused(NoSuchReservation)
                          else Done)
      ensures reservations == (if outcome == Done then old(reservations) - {pending.value} else old(reservations))
      ensures outcome == Done ==>
        !IsBooked(reservations, old(reservations)[pending.value].dateKey, old(reservations)[pending.value].slotId)
      ensures closedSlots == old(closedSlots) && artists == old(artists)
      ensures artistOrder == old(artistOrder) && isAdmin == old(isAdmin)
    {
      if pending.None? {
        return Refused(NothingPending);
      }
      var id := pending.value;
      if id !in reservations {
        return Refused(NoSuchReservation);
      }
      RemoveFreesSlot(reservations, id);
      reservations := reservations - {id};
      outcome := Done;
    }

    /**
     * `submitNewArtist()` (src/main.ts:710-758): a registration that passes the
     * checks is filed, trimmed and pending, under the fresh id `newId`.
     */
    method SubmitNewArtist(f: Registration, newId: string, createdAt: string) returns (outcome: Outcome)
      requires Valid()
      requires newId !in artists
      modifies this
      ensures Valid()
      ensures outcome == (if CheckRegistration(f) == None then Done else Refused(Invalid(CheckRegistration(f).value)))
      ensures artists == (if outcome == Done then old(artists)[newId := NewArtist(f, newId, createdAt)]
                          else old(artists))
      ensures artistOrder == (if outcome == Done then old(artistOrder) + [newId] else old(artistOrder))
      ensures outcome == Done ==> artists[newId].status == Pending
      ensures closedSlots == old(closedSlots) && reservations == old(reservations) && isAdmin == old(isAdmin)
    {
      var check := CheckRegistration(f);
      if check.Some? {
        return Refused(Invalid(check.value));
      }
      var a := NewArtist(f, newId, createdAt);
      AddKeepsDirectory(artists, artistOrder, a);
      artists := artists[newId := a];
      artistOrder := artistOrder + [newId];
      outcome := Done;
    }

    /** `approveArtist(id)` (src/main.ts:907-917): an admin marks an artist approved. */
    method ApproveArtist(id: string) returns (outcome: Outcome)
      requires Valid()
      modifies this
      ensures Valid()
      ensures outcome == (if !isAdmin then Refused(NotAdmin)
                          else if id !in old(artists) then Refused(NoSuchArtist)
                          else Done)
      ensures artists == (if outcome == Done then old(artists)[id := old(artists)[id].(status := Approved)]
                          else old(artists))
      ensures closedSlots == old(closedSlots) && reservations == old(reservations)
      ensures artistOrder == old(artistOrder) && isAdmin == old(isAdmin)
    {
      if !isAdmin {
        return Refused(NotAdmin);
      }
      if id !in artists {
        return Refused(NoSuchArtist);
      }
      artists := artists[id := artists[id].(status := Approved)];
      outcome := Done;
    }

    /**
     * `rejectArtist(id)` (src/main.ts:918-932): an admin who confirms the dialog
     * (`confirmed`) deletes the artist; reservations already made keep their snapshot.
     */
    method RejectArtist(id: string, confirmed: bool) returns (outcome: Outcome)
      requires Valid()
      modifies this
      ensures Valid()
      ensures outcome == (if !isAdmin then Refused(NotAdmin)
                          else if id !in old(artists) then Refused(NoSuchArtist)
                          else if !confirmed then Refused(Declined)
                          else Done)
      ensures artists == (if outcome == Done then old(artists) - {id} else old(artists))
      ensures artistOrder == (if outcome == Done then Without(old(artistOrder), id) else old(artistOrder))
      ensures closedSlots == old(closedSlots) && reservations == old(reservations) && isAdmin == old(isAdmin)
    {
      if !isAdmin {
        return Refused(NotAdmin);
      }
      if id !in artists {
        return Refused(NoSuchArtist);
      }
      if !confirmed {
        return Refused(Declined);
      }
      RemoveKeepsDirectory(artists, artistOrder, id);
      artists := artists - {id};
      artistOrder := Without(artistOrder, id);
      outcome := Done;
    }
  }

  /** Clearing a date's four keys leaves every slot of that date open, in `SLOTS` order. */
  lemma DayOpened(closed: set<string>, d: string)
    ensures OpenSlotsFor(closed - DayKeys(d), d) == AllSlots
  {
    EverySlotListed();
    forall s | s in AllSlots ensures !IsClosed(closed - DayKeys(d), d, s) {
      assert SlotKey(d, s) in DayKeys(d);
    }
    KeepOpenNoneClosed(closed - DayKeys(d), d, AllSlots);
  }

  /**
   * For dates written as keys, the string guard `dateKey > maxKey` refuses exactly
   * the dates after the limit date.
   */
  lemma HorizonByDate(x: Date, limit: Date, isAdmin: bool)
    requires KeyDate(x) && KeyDate(limit)
    ensures SlotGuard(KeyOf(x), KeyOf(limit), isAdmin) == Some(BeyondHorizon) <==> DateLess(limit, x)
  {
    KeyOrder(limit, x);
  }

  /**
   * The registry after a period bulk: a key of a collected date and a chosen slot is
   * set (close) or cleared (open); every other key keeps its state.
   */
  lemma PeriodEffect(closed: set<string>, dates: seq<string>, slots: seq<SlotId>, isClose: bool, d: string, s: SlotId)
    ensures IsClosed(Apply(closed, PairKeys(dates, slots), isClose), d, s) <==>
      (if d in dates && s in slots then isClose else IsClosed(closed, d, s))
  {
    PairKeysMembers(dates, slots, d, s);
  }

  /**
   * With the horizon key `"2024-04-01"`, an admin may still change that date's slots
   * but not the next day's.
   */
  lemma HorizonExample()
    ensures SlotGuard("2024-04-01", "2024-04-01", true) == None
    ensures SlotGuard("2024-04-02", "2024-04-01", true) == Some(BeyondHorizon)
  {
    assert !StrLess("2024-04-01", "2024-04-01");
    assert StrLess("2024-04-01", "2024-04-02");
  }

  /** Once a booking goes through, the same request is turned away as taken. */
  lemma BookTwiceRefused(found: Option<string>, date: Option<Date>, slot: Option<SlotId>, limitEnd: Date,
                         reservations: map<string, Reservation>, artists: map<string, Artist>,
                         id: string, note: string, createdAt: string)
    requires BookingRefusal(found, date, slot, limitEnd, reservations, artists) == None
    ensures var r := Snapshot(artists[found.value], id, KeyOf(date.value), slot.value, note, createdAt);
      BookingRefusal(found, date, slot, limitEnd, reservations[id := r], artists) == Some(SlotTaken)
  {
    var r := Snapshot(artists[found.value], id, KeyOf(date.value), slot.value, note, createdAt);
    assert id in reservations[id := r] && reservations[id := r][id] == r;
  }
}
