/**
 * The date walk of `periodBulk` (src/main.ts:1057-1075): from the start date to the
 * end date one day at a time, keeping the keys of the dates whose weekday is
 * selected and whose key does not pass the horizon key.
 */
module Period {

  import opened Wrappers
  import opened DateKeys

  /** `checkedDows.length ? checkedDows : [0,1,2,3,4,5,6]`. */
  function TargetDows(checked: seq<int>): (r: seq<int>)
    ensures checked != [] ==> r == checked
    ensures checked == [] ==> forall w :: 0 <= w < 7 <==> w in r
  {
    if checked != [] then checked else [0, 1, 2, 3, 4, 5, 6]
  }

  /** A date the walk from `start` to `end` picks. */
  predicate Picked(x: Date, start: Date, end: Date, dows: seq<int>, maxKey: string)
  {
    KeyDate(x) && DateLe(start, x) && DateLe(x, end) && Weekday(x) in dows && !StrLess(maxKey, KeyOf(x))
  }

  /** The keys the loop pushes while walking from `cur` up to `end`. */
  function Walk(cur: Date, end: Date, dows: seq<int>, maxKey: string): seq<string>
    requires ValidDate(cur) && ValidDate(end)
    decreases DayNumber(end) - DayNumber(cur)
  {
    if !DateLe(cur, end) then []
    else
      DayNumberOrder(cur, end);
      NextDayNumber(cur);
      var k := KeyOf(cur);
      (if Weekday(cur) in dows && !StrLess(maxKey, k) then [k] else []) + Walk(NextDay(cur), end, dows, maxKey)
  }

  lemma AppendAssoc(a: seq<string>, b: seq<string>, c: seq<string>)
    ensures (a + b) + c == a + (b + c)
  {
  }

  /** One step of the walk. */
  lemma WalkStep(cur: Date, end: Date, dows: seq<int>, maxKey: string)
    requires ValidDate(cur) && ValidDate(end) && DateLe(cur, end)
    ensures ValidDate(NextDay(cur)) && NextDay(cur).year >= cur.year
    ensures DayNumber(NextDay(cur)) == DayNumber(cur) + 1 && DayNumber(cur) <= DayNumber(end)
    ensures Walk(cur, end, dows, maxKey)
      == (if Weekday(cur) in dows && !StrLess(maxKey, KeyOf(cur)) then [KeyOf(cur)] else [])
         + Walk(NextDay(cur), end, dows, maxKey)
  {
    DayNumberOrder(cur, end);
    NextDayNumber(cur);
  }

  /**
   * `dates` as the source collects it from the two input values; a value that is not
   * a date makes `new Date(...)` invalid, the loop condition false, and the list empty.
   */
  function PeriodDates(startVal: string, endVal: string, dows: seq<int>, maxKey: string): seq<string>
  {
    match (ParseKey(startVal), ParseKey(endVal))
    case (Some(s), Some(e)) => KeyOfParse(startVal); KeyOfParse(endVal); Walk(s, e, dows, maxKey)
    case _ => []
  }

  /** Every key the walk lists is the key of a date it picks. */
  lemma {:induction false} WalkSound(cur: Date, end: Date, dows: seq<int>, maxKey: string, k: string)
    returns (x: Date)
    requires ValidDate(cur) && cur.year >= 1000 && KeyDate(end)
    requires k in Walk(cur, end, dows, maxKey)
    ensures Picked(x, cur, end, dows, maxKey) && KeyOf(x) == k
    decreases DayNumber(end) - DayNumber(cur)
  {
    WalkStep(cur, end, dows, maxKey);
    var next := NextDay(cur);
    if k in Walk(next, end, dows, maxKey) {
      x := WalkSound(next, end, dows, maxKey, k);
      DayNumberOrder(next, x);
      DayNumberOrder(cur, x);
    } else {
      x := cur;
    }
  }

  /** Every date the walk should pick has its key listed. */
  lemma {:induction false} WalkComplete(cur: Date, end: Date, dows: seq<int>, maxKey: string, x: Date)
    requires ValidDate(cur) && cur.year >= 1000 && KeyDate(end)
    requires Picked(x, cur, end, dows, maxKey)
    ensures KeyOf(x) in Walk(cur, end, dows, maxKey)
    decreases DayNumber(end) - DayNumber(cur)
  {
    WalkStep(cur, end, dows, maxKey);
    var next := NextDay(cur);
    if x != cur {
      DayNumberOrder(cur, x);
      DayNumberOrder(next, x);
      WalkComplete(next, end, dows, maxKey, x);
    }
  }

  /** The walk picks exactly the keys of the dates in range with a selected weekday within the horizon key. */
  lemma WalkMembers(cur: Date, end: Date, dows: seq<int>, maxKey: string, k: string)
    requires ValidDate(cur) && cur.year >= 1000 && KeyDate(end)
    ensures k in Walk(cur, end, dows, maxKey) <==> exists x :: Picked(x, cur, end, dows, maxKey) && KeyOf(x) == k
  {
    if k in Walk(cur, end, dows, maxKey) {
      var x := WalkSound(cur, end, dows, maxKey, k);
    }
    if exists x :: Picked(x, cur, end, dows, maxKey) && KeyOf(x) == k {
      var x :| Picked(x, cur, end, dows, maxKey) && KeyOf(x) == k;
      WalkComplete(cur, end, dows, maxKey, x);
    }
  }

  /**
   * When both bounds are date keys, the collected keys are exactly the keys of the
   * dates from start to end with a selected weekday and a key not after the horizon.
   */
  lemma PeriodDatesMembers(startVal: string, endVal: string, dows: seq<int>, maxKey: string, k: string)
    requires ParseKey(startVal).Some? && ParseKey(endVal).Some?
    ensures k in PeriodDates(startVal, endVal, dows, maxKey) <==>
      exists x :: Picked(x, ParseKey(startVal).value, ParseKey(endVal).value, dows, maxKey) && KeyOf(x) == k
  {
    KeyOfParse(startVal);
    KeyOfParse(endVal);
    WalkMembers(ParseKey(startVal).value, ParseKey(endVal).value, dows, maxKey, k);
  }

  /** The walk lists its keys in strictly ascending string order, so never twice. */
  lemma {:induction false} WalkAscending(cur: Date, end: Date, dows: seq<int>, maxKey: string)
    requires ValidDate(cur) && cur.year >= 1000 && KeyDate(end)
    ensures forall i, j :: 0 <= i < j < |Walk(cur, end, dows, maxKey)| ==>
      StrLess(Walk(cur, end, dows, maxKey)[i], Walk(cur, end, dows, maxKey)[j])
    decreases DayNumber(end) - DayNumber(cur)
  {
    if DateLe(cur, end) {
      DayNumberOrder(cur, end);
      NextDayNumber(cur);
      var next := NextDay(cur);
      WalkAscending(next, end, dows, maxKey);
      var tail := Walk(next, end, dows, maxKey);
      if Weekday(cur) in dows && !StrLess(maxKey, KeyOf(cur)) {
        forall j | 0 <= j < |tail| ensures StrLess(KeyOf(cur), tail[j]) {
          var x := WalkSound(next, end, dows, maxKey, tail[j]);
          KeyOrder(cur, x);
        }
      }
    }
  }

  /**
   * The date loop of `periodBulk` (src/main.ts:1065-1075): starting from the parsed
   * start date, it collects exactly the keys the walk picks.
   */
  method CollectDates(startVal: string, endVal: string, dows: seq<int>, maxKey: string)
    returns (dates: seq<string>)
    ensures dates == PeriodDates(startVal, endVal, dows, maxKey)
  {
    dates := [];
    var parsedStart, parsedEnd := ParseKey(startVal), ParseKey(endVal);
    if parsedStart.None? || parsedEnd.None? {
      return;
    }
    KeyOfParse(startVal);
    KeyOfParse(endVal);
    var cur, end := parsedStart.value, parsedEnd.value;
    while DateLe(cur, end)
      invariant ValidDate(cur) && cur.year >= 1000
      invariant dates + Walk(cur, end, dows, maxKey) == Walk(parsedStart.value, end, dows, maxKey)
      decreases DayNumber(end) - DayNumber(cur)
    {
      WalkStep(cur, end, dows, maxKey);
      ghost var before := dates;
      ghost var head := if Weekday(cur) in dows && !StrLess(maxKey, KeyOf(cur)) then [KeyOf(cur)] else [];
      ghost var rest := Walk(NextDay(cur), end, dows, maxKey);
      if Weekday(cur) in dows {
        var k := KeyOf(cur);
        if !StrLess(maxKey, k) {
          dates := dates + [k];
        }
      }
      assert dates == before + head;
      AppendAssoc(before, head, rest);
      cur := NextDay(cur);
    }
  }
}
