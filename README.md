# Calendar reservation core, modelled in Dafny

This project models the booking core of the calendar reservation demo (`src/main.ts`).
The demo keeps one in-memory store with four parts:

- the **closed-slot registry** (`closedSlots`): per date, which of the four daily slots A–D are closed;
- the **reservation ledger** (`reservations`): at most one booking per date and slot;
- the **artist directory** (`artists`): self-registered performers, pending until an admin approves them;
- a global **admin flag** (`isAdmin`).

The model covers the operations that read and change that store:

- `toggleSlot`, `bulkOpen`, `bulkClose` and the period bulk `periodBulk`;
- `submitReservation` and `executeCancel`;
- `submitNewArtist`, `lookupArtist`, `approveArtist` and `rejectArtist`;
- the read-side rules: `fmtKey`, `slotKey`, `isClosed`, `openSlotsFor`, the day status the calendar shows, and the slot list of a day.

Modules:

- `DateKeys` (date_keys.dfy) holds the date facts:
  - Gregorian dates, day numbers and `getDay`;
  - `String(n)`, `padStart` and `fmtKey`;
  - reading a `YYYY-MM-DD` value back into a date;
  - JavaScript's `<` on strings. The horizon guards compare keys with it, and the module proves it agrees with date order on keys.
- `Slots` (slots.dfy): slot ids, registry keys, `isClosed`, `openSlotsFor`, and the key sets the bulk operations touch.
- `Artists` (artists.dfy):
  - `trim`, `toLowerCase` and `replace(/-/g, '')`;
  - the registration checks;
  - the lookup match rule and the first-match search in insertion order.
- `Ledger` (ledger.dfy): the reservation record, the "already booked" test, and the one-booking-per-slot invariant.
- `Availability` (availability.dfy): the day status of the calendar cell and the modal slot list, as pure functions of the store.
- `Period` (period.dfy): the date walk of `periodBulk`, as a function, as the loop that computes it, and its proved properties.
- `Store` (store.dfy): the class `Store`, with the five parts of the demo state as fields and one method per operation.
  - Each method runs the source's checks in the source's order. The first failing check is returned as a `Refusal`, and nothing changes.
  - Each method keeps the invariant `Valid()`: no double booking, reservations filed under their own id, and the directory agreeing with its insertion order.
  - Each method states the complete new state.

The wall clock and the form fields are parameters:

- `today`, the limit date `limitEnd` and its key `maxKey`;
- the looked-up artist, the selected date and slot, and the reservation chosen for cancelling;
- fresh ids, required to be absent from their map;
- timestamps;
- whether the `confirm()` dialog was accepted.

Three behaviours of the code are easy to miss, and the model keeps them as written:

- `submitReservation` does not check whether the slot is closed or the date is past. Only the calendar and the slot list hide those (src/main.ts:454, 537-544). `BookingRefusal` has no closed-slot or past-date case.
- `executeCancel` has no admin check.
- A failed load does not start an empty store: the code falls back to seeded demo data. Loading is not part of this model.

## Model

| member | source | states |
|---|---|---|
| DateKeys.Weekday | src/main.ts:1070 | `getDay()` of a date is in 0..6 |
| DateKeys.NextDayNumber | src/main.ts:1074 | `setDate(getDate() + 1)` gives a valid later date whose day number is one more |
| DateKeys.NextDayWeekday | src/main.ts:1070-1074 | the next day's weekday is the current one plus one, modulo 7 |
| DateKeys.DayNumberOrder | src/main.ts:1069 | `cur <= end` on dates agrees with the order of day numbers, and equal day numbers mean equal dates |
| DateKeys.DaysBeforeYearClosedForm | src/main.ts:1070 | days before a year are 365 a year plus one per leap year (Gregorian rule) |
| DateKeys.NewYear2024IsMonday | src/main.ts:1070 | the weekday function is anchored to the real calendar: 2024-01-01 is a Monday (1) |
| DateKeys.KeyForm | src/main.ts:79-81 | for a four-digit year, `fmtKey` writes `YYYY-MM-DD`, with month and day zero-padded to two digits |
| DateKeys.KeyShape | src/main.ts:79-81 | every key is ten characters, dashes at positions 4 and 7, digits elsewhere |
| DateKeys.KeyExample | src/main.ts:79-81 | `fmtKey(2024, 4, 1)` is `"2024-04-01"` |
| DateKeys.ParseKeyOf | src/main.ts:1066-1067 | reading a key back as the date input value gives the same date |
| DateKeys.KeyOfParse | src/main.ts:1066-1067 | every value that reads as a date is that date's key |
| DateKeys.KeyOfInjective | src/main.ts:79-81 | distinct dates have distinct keys |
| DateKeys.KeyOrder | src/main.ts:998 | string `<` on two keys holds exactly when the first date is earlier; the horizon guards rely on this |
| Slots.SlotKeyInjective | src/main.ts:96-98 | `slotKey` keys different (date, slot) pairs differently |
| Slots.OpenSlotsFor | src/main.ts:384-386 | the open slots are exactly those not closed on the date, in `SLOTS` order |
| Slots.AllClosedIffDayKeys | src/main.ts:381-386 | a date has no open slot exactly when all four of its keys are in the registry |
| Slots.Toggle | src/main.ts:1001-1005 | the toggle flips exactly the one key and keeps every other key |
| Slots.ToggleTwice | src/main.ts:1001-1005 | toggling the same key twice restores the registry |
| Slots.PairKeysMembers | src/main.ts:1085-1089 | the keys the nested loop writes are exactly those of a listed date and a listed slot |
| Artists.Trim | src/main.ts:711-720 | `trim()` is empty exactly when the input is blank, and the result has no white space at either end |
| Artists.TrimStartSpec | src/main.ts:711 | the start trim drops a blank prefix and stops at a non-space |
| Artists.TrimEndSpec | src/main.ts:711 | the end trim drops a blank suffix and stops at a non-space |
| Artists.Lower | src/main.ts:638 | `toLowerCase` keeps the length, leaves no Latin capital, turns each capital into its small letter and leaves every other character in place |
| Artists.LowerIdempotent | src/main.ts:638 | lowering an already lowered string changes nothing |
| Artists.StripHyphens | src/main.ts:642-643 | `replace(/-/g, '')` removes every hyphen and keeps every other character |
| Artists.StripHyphensConcat | src/main.ts:642-643 | stripping distributes over concatenation and keeps a single character exactly when it is not a hyphen, so the kept characters keep their order and count |
| Artists.CheckRegistration | src/main.ts:722-726 | no error exactly when name, phone, stage name and LINE id are non-blank, one social account is given, and a video URL or video LINE id is given; each error is reported exactly when every earlier check passes and its own check fails, in source order |
| Artists.NewArtist | src/main.ts:728-742 | the new artist has the fresh id, trimmed fields and status pending |
| Artists.FirstMatch | src/main.ts:641-649 | the index of the first artist in insertion order that matches the query, none before it matching |
| Artists.LookupArtist | src/main.ts:637-681 | a blank query does nothing; otherwise not-found exactly when no artist matches, else the first match, with proceeding enabled exactly when it is approved |
| Ledger.Snapshot | src/main.ts:791-802 | the reservation copies name, phone and LINE id from the artist; its artist name is the stage name, or the name when the stage name is empty |
| Ledger.InsertKeepsUnique | src/main.ts:775-781 | inserting a reservation keeps one booking per (date, slot) exactly when that slot was not booked |
| Ledger.RemoveFreesSlot | src/main.ts:844 | deleting a reservation frees its slot, keeps every other slot's booking state and keeps uniqueness |
| Availability.BookedAmong | src/main.ts:440-441 | the booked count equals the number of open slots exactly when every open slot is booked |
| Availability.StatusOfDay | src/main.ts:417-442 | too-future beats past, past beats all-closed, all-closed beats full; each status holds under exactly its condition |
| Availability.OpensSlotListStatus | src/main.ts:454-456 | a day cell opens the slot list exactly when its status is full or available |
| Availability.EntriesFor | src/main.ts:515-546 | rows are exactly the unbooked slots, reservable exactly when not closed |
| Availability.EntriesOrdered | src/main.ts:515 | rows keep the order of the slots they come from |
| Availability.ModalSlots | src/main.ts:509-549 | booked slots are hidden, every unbooked slot is listed once in `SLOTS` order, and closed ones are not reservable |
| Availability.ModalAgreesWithStatus | src/main.ts:436-441 | on a bookable day the slot list offers a reserve button exactly when the calendar shows the day as available |
| Period.TargetDows | src/main.ts:1057-1059 | no ticked weekday means all seven |
| Period.WalkMembers | src/main.ts:1065-1075 | the walk collects exactly the keys of dates from start to end with a chosen weekday and a key not after the horizon |
| Period.PeriodDatesMembers | src/main.ts:1065-1075 | the same, stated for the two date input values |
| Period.WalkAscending | src/main.ts:1065-1075 | the collected keys are strictly ascending, so no date is written twice |
| Period.CollectDates | src/main.ts:1065-1075 | the loop's date list equals the walk from the parsed start date |
| Store.Apply | src/main.ts:1088-1089 | after setting or clearing a key set, a key is closed exactly when it was set, or was untouched and already closed |
| Store.SlotGuard | src/main.ts:998-999 | the horizon is checked before the admin flag; the operation goes ahead exactly when the key is not after the horizon and the admin is logged in |
| Store.PeriodGuard | src/main.ts:1052-1055 | admin, then non-empty bounds, then start not after end, then neither bound after the horizon; each refusal is reported exactly when the earlier checks pass and its own fails |
| Store.TargetSlots | src/main.ts:1061-1063 | no ticked slot means all four |
| Store.BookingRefusal | src/main.ts:766-787 | a booking goes through exactly when an artist was found, a date and slot are selected, the date is not after the limit date, the slot is free, and the artist exists and is approved; each refusal is reported exactly when the earlier checks pass and its own fails |
| Store.Without | src/main.ts:924 | removing an id keeps exactly the other ids, still without repeats, and leaves an order without that id unchanged |
| Store.WithoutCutsOne | src/main.ts:924 | in an order without repeats, removing an id cuts out its one position and keeps the ids before and after it in their order |
| Store.AddKeepsDirectory | src/main.ts:744 | filing a new artist under its fresh id keeps the directory consistent with its insertion order |
| Store.RemoveKeepsDirectory | src/main.ts:924 | deleting an artist keeps the directory consistent with its insertion order |
| Store.HorizonByDate | src/main.ts:998 | for keys of dates, the string guard refuses exactly the dates after the limit date |
| Store.HorizonExample | src/main.ts:998 | with horizon key 2024-04-01, that date is allowed and 2024-04-02 is refused |
| Store.PeriodEffect | src/main.ts:1085-1096 | after a period bulk, a key of a collected date and chosen slot is set (close) or cleared (open), every other key unchanged |
| Store.BookTwiceRefused | src/main.ts:775-781 | right after a booking, the same request is refused as taken |
| Store.Store.constructor | src/main.ts:44-49 | an empty store satisfies the invariant |
| Store.Store.Lookup | src/main.ts:637-681 | the id lookup reports is both the artist's key and its own id |
| Store.Store.ToggleSlot | src/main.ts:996-1011 | refused by the guard with no change, or flips exactly one key; nothing else changes |
| Store.Store.SetKeys | src/main.ts:1086-1092 | the slot loop (also `for (const s of SLOTS)` of the day bulk operations) sets or clears exactly the date's keys for the listed slots and counts each one |
| Store.Store.BulkOpen | src/main.ts:1013-1024 | refused with no change, or clears exactly the date's four keys, after which every slot of the date is open |
| Store.Store.BulkClose | src/main.ts:1026-1037 | refused with no change, or sets exactly the date's four keys, after which the date has no open slot |
| Store.Store.PeriodBulk | src/main.ts:1047-1106 | refused with no change by the guard, or as "no target dates" when no date matches; otherwise sets or clears exactly the collected dates × chosen slots, and the counter ends at dates × slots |
| Store.Store.SubmitReservation | src/main.ts:765-816 | refused with no change as `BookingRefusal` says; otherwise adds exactly the snapshot under the fresh id, the slot is then booked, and uniqueness is kept |
| Store.Store.ExecuteCancel | src/main.ts:837-852 | with no admin check: no-op without a chosen id or for an absent one, otherwise deletes exactly that reservation and frees its slot |
| Store.Store.SubmitNewArtist | src/main.ts:710-756 | refused with the first failing check and no change, otherwise adds exactly one pending artist under the fresh id, at the end of the order |
| Store.Store.ApproveArtist | src/main.ts:907-917 | refused without admin or for an unknown id; otherwise sets only that artist's status to approved |
| Store.Store.RejectArtist | src/main.ts:918-930 | refused without admin, for an unknown id, or when the dialog is dismissed; otherwise deletes only that artist and its place in the order |

## Left out

- DOM rendering, toasts, the loading overlay, modals, form steps and event wiring are user interface. So are the progress text of `periodBulk`, the month navigation and the display sorting of lists.
- `localStorage`, JSON, `loadState`, `saveState`, `commit` and the version check are storage I/O. The store starts empty.
- `seedState` builds random demo data.
- `makeId` reads the clock and a random source. Fresh ids are inputs, required not to be in their map already.
- The wall clock is not modelled. `getLimitEndDate`, `limitMaxKey` and "today" become the parameters `limitEnd`, `maxKey` and `today`. Adding three calendar months in JavaScript is not modelled.
- The `await` pauses are not modelled. Each operation is one atomic step, including the check-then-insert of `submitReservation`.
- The admin password dialog is not modelled. The admin flag is given when the store is created.
- `confirm()` in `rejectArtist` becomes the parameter `confirmed`.
- Period.PeriodDates: `new Date("YYYY-MM-DD")` is read at UTC midnight, while `getDay` and `getDate` use local time. The model assumes the local date equals the UTC date (an offset at or east of UTC, as in the Japanese time zone the demo targets) with no daylight-saving shift. Any value other than a `YYYY-MM-DD` key with a year from 1000 to 9999 is treated as an invalid date, so the walk collects nothing.
- DateKeys.KeyOrder and the other key lemmas hold for four-digit years only. Other years make `fmtKey` produce keys of other lengths.
- Artists.LowerChar lowers ASCII and full-width Latin capitals only. Other scripts' case mappings are not modelled.
- DateKeys.StrLess compares characters by code point, where JavaScript compares UTF-16 code units. The two orders differ only above U+FFFF, and dates never contain such characters.
- `submitReservation` reads the artist by the looked-up id. If that artist was deleted in between, the source throws a `TypeError` and nothing is stored. The model returns `UnknownArtist` and changes nothing.
- `renderCalendar`'s day status uses `isToday` and weekday colouring only for display. They are not modelled.
