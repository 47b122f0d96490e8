/**
 * The four fixed daily slots and the closed-slot registry keyed by
 * `slotKey(dateKey, slotId)`. The registry is `Record<string, true>` in the source;
 * since every value is `true`, it is the set of its keys here.
 */
module Slots {

  /** Slot identifiers, 17:00-18:00 (A) to 20:00-21:00 (D). */
  datatype SlotId = A | B | C | D

  /** `SLOTS`, in canonical display order. */
  const AllSlots: seq<SlotId> := [A, B, C, D]

  function SlotChar(s: SlotId): char
  {
    match s
    case A => 'A'
    case B => 'B'
    case C => 'C'
    case D => 'D'
  }

  /** Position of a slot in `SLOTS`. */
  function SlotIndex(s: SlotId): nat
  {
    match s
    case A => 0
    case B => 1
    case C => 2
    case D => 3
  }

  /** `SLOTS` lists every slot, at its own index. */
  lemma EverySlotListed()
    ensures forall s :: s in AllSlots && AllSlots[SlotIndex(s)] == s
  {
    forall s: SlotId ensures s in AllSlots && AllSlots[SlotIndex(s)] == s {
      assert AllSlots[SlotIndex(s)] == s;
    }
  }

  /** `slotKey(dateKey, slotId)`: the registry key `${dateKey}_${slotId}`. */
  function SlotKey(dateKey: string, s: SlotId): string
  {
    dateKey + "_" + [SlotChar(s)]
  }

  /** A registry key names one date and one slot: different pairs never share a key. */
  lemma SlotKeyInjective(d1: string, s1: SlotId, d2: string, s2: SlotId)
    ensures SlotKey(d1, s1) == SlotKey(d2, s2) <==> d1 == d2 && s1 == s2
  {
    if SlotKey(d1, s1) == SlotKey(d2, s2) {
      var k := SlotKey(d1, s1);
      assert |d1| == |d2|;
      assert d1 == k[..|d1|] == d2;
      assert SlotChar(s1) == k[|k| - 1] == SlotChar(s2);
    }
  }

  /** `isClosed(dateKey, slotId)` (src/main.ts:381-383). */
  predicate IsClosed(closed: set<string>, dateKey: string, s: SlotId)
  {
    SlotKey(dateKey, s) in closed
  }

  /** The slots of `ss` kept in canonical order. */
  predicate InSlotOrder(ss: seq<SlotId>)
  {
    forall i, j :: 0 <= i < j < |ss| ==> SlotIndex(ss[i]) < SlotIndex(ss[j])
  }

  /** `ss` with the slots closed on `dateKey` removed. */
  function KeepOpen(closed: set<string>, dateKey: string, ss: seq<SlotId>): (r: seq<SlotId>)
    ensures forall s :: s in r <==> s in ss && !IsClosed(closed, dateKey, s)
    ensures InSlotOrder(ss) ==> InSlotOrder(r)
  {
    if ss == [] then []
    else
      var rest := KeepOpen(closed, dateKey, ss[1..]);
      assert forall s :: s in ss[1..] ==> s in ss;
      if IsClosed(closed, dateKey, ss[0]) then rest
      else
        assert InSlotOrder(ss) ==> forall s :: s in ss[1..] ==> SlotIndex(ss[0]) < SlotIndex(s);
        [ss[0]] + rest
  }

  /** When none of `ss` is closed, filtering keeps the whole list. */
  lemma {:induction false} KeepOpenNoneClosed(closed: set<string>, dateKey: string, ss: seq<SlotId>)
    requires forall s :: s in ss ==> !IsClosed(closed, dateKey, s)
    ensures KeepOpen(closed, dateKey, ss) == ss
  {
    if ss != [] {
      assert ss[0] in ss;
      assert forall s :: s in ss[1..] ==> s in ss;
      KeepOpenNoneClosed(closed, dateKey, ss[1..]);
      assert ss == [ss[0]] + ss[1..];
    }
  }

  /**
   * `openSlotsFor(dateKey)` (src/main.ts:384-386): exactly the slots that are not
   * closed on that date, each once, in the order of `SLOTS`.
   */
  function OpenSlotsFor(closed: set<string>, dateKey: string): (r: seq<SlotId>)
    ensures forall s :: s in r <==> !IsClosed(closed, dateKey, s)
    ensures InSlotOrder(r)
  {
    EverySlotListed();
    KeepOpen(closed, dateKey, AllSlots)
  }

  /** The registry keys of one date for the listed slots. */
  function KeysFor(dateKey: string, ss: seq<SlotId>): set<string>
  {
    set s | s in ss :: SlotKey(dateKey, s)
  }

  /** The four registry keys of one date. */
  function DayKeys(dateKey: string): set<string>
  {
    KeysFor(dateKey, AllSlots)
  }

  /** Taking one more slot of the list adds its key. */
  lemma KeysForStep(dateKey: string, ss: seq<SlotId>, j: int)
    requires 0 <= j < |ss|
    ensures KeysFor(dateKey, ss[..j + 1]) == KeysFor(dateKey, ss[..j]) + {SlotKey(dateKey, ss[j])}
  {
    assert ss[..j + 1] == ss[..j] + [ss[j]];
  }

  /** The whole list of slots gives the keys of the whole list. */
  lemma KeysForAll(dateKey: string, ss: seq<SlotId>)
    ensures KeysFor(dateKey, ss[..|ss|]) == KeysFor(dateKey, ss)
  {
    assert ss[..|ss|] == ss;
  }

  /** The registry keys of every listed date crossed with every listed slot. */
  function PairKeys(dates: seq<string>, slots: seq<SlotId>): set<string>
  {
    set d, s | d in dates && s in slots :: SlotKey(d, s)
  }

  /** Taking one more date of the list adds that date's keys. */
  lemma PairKeysStep(dates: seq<string>, slots: seq<SlotId>, i: int)
    requires 0 <= i < |dates|
    ensures PairKeys(dates[..i + 1], slots) == PairKeys(dates[..i], slots) + KeysFor(dates[i], slots)
  {
    assert dates[..i + 1] == dates[..i] + [dates[i]];
  }

  /** The registry key of a listed date and a listed slot is one of the pair keys, and only those are. */
  lemma PairKeysMembers(dates: seq<string>, slots: seq<SlotId>, d: string, s: SlotId)
    ensures SlotKey(d, s) in PairKeys(dates, slots) <==> d in dates && s in slots
  {
    if SlotKey(d, s) in PairKeys(dates, slots) {
      var d', s' :| d' in dates && s' in slots && SlotKey(d, s) == SlotKey(d', s');
      SlotKeyInjective(d, s, d', s');
    }
  }

  /** A date offers no open slot exactly when all four of its keys are in the registry. */
  lemma AllClosedIffDayKeys(closed: set<string>, dateKey: string)
    ensures OpenSlotsFor(closed, dateKey) == [] <==> DayKeys(dateKey) <= closed
  {
    var open := OpenSlotsFor(closed, dateKey);
    if open != [] {
      assert open[0] in open;
      assert SlotKey(dateKey, open[0]) in DayKeys(dateKey);
    } else {
      forall k | k in DayKeys(dateKey) ensures k in closed {
        var s :| s in AllSlots && k == SlotKey(dateKey, s);
        assert s !in open;
      }
    }
  }

  /** Flipping one key: `toggleSlot`'s change to the registry. */
  function Toggle(closed: set<string>, k: string): (r: set<string>)
    ensures k in r <==> k !in closed
    ensures forall other :: other != k ==> (other in r <==> other in closed)
  {
    if k in closed then closed - {k} else closed + {k}
  }

  /** Toggling the same key twice restores the registry. */
  lemma ToggleTwice(closed: set<string>, k: string)
    ensures Toggle(Toggle(closed, k), k) == closed
  {
  }
}
