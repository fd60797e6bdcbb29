/** The DST-aware schedule search (backup-schedule.ts).

    A zone is an abstract function from UTC minutes to local minutes, both counted from an
    epoch; the civil date, hour, minute and weekday are read off the local minute, so two
    local date-and-time signatures are equal exactly when the local minutes are. */
module Schedule {
  import opened Options
  import IsoWeek

  const MINUTE_MS: nat := 60000
  const MINUTES_PER_DAY: nat := 24 * 60
  const MINUTES_PER_WEEK: nat := 7 * 24 * 60
  const MAX_SEARCH_MINUTES: nat := 15 * 24 * 60
  const DST_LOOKBACK_MINUTES: nat := 180

  /** UTC minute to local minute; local minute 0 is Thursday 1970-01-01 00:00. */
  type Zone = int -> int

  datatype Plan = Plan(hour: nat, minute: nat, weekdays: seq<nat>)

  predicate ValidPlan(plan: Plan) {
    plan.hour < 24 && plan.minute < 60 && plan.weekdays != [] && forall d | d in plan.weekdays :: 1 <= d <= 7
  }

  function Hour(local: int): nat { local % MINUTES_PER_DAY / 60 }

  function Minute(local: int): nat { local % 60 }

  /** Monday is 1, Sunday is 7. */
  function IsoWeekday(local: int): nat { (local / MINUTES_PER_DAY + 3) % 7 + 1 }

  predicate MatchesPlan(plan: Plan, local: int) {
    Hour(local) == plan.hour && Minute(local) == plan.minute && IsoWeekday(local) in plan.weekdays
  }

  /** The same local minute already occurred within the lookback. */
  predicate SecondOccurrence(zone: Zone, minute: int) {
    exists earlier | minute - DST_LOOKBACK_MINUTES <= earlier < minute :: zone(earlier) == zone(minute)
  }

  predicate Runs(zone: Zone, plan: Plan, minute: int) {
    MatchesPlan(plan, zone(minute)) && !SecondOccurrence(zone, minute)
  }

  /** The first whole minute strictly after `after`. */
  function StartMinute(afterMs: int): int { afterMs / MINUTE_MS + 1 }

  /** The result that the search promises: the least run in the window, if there is one. */
  ghost predicate IsNextRun(zone: Zone, plan: Plan, afterMs: int, next: Option<int>) {
    var start := StartMinute(afterMs);
    match next
    case Some(ms) =>
      && ms % MINUTE_MS == 0
      && start <= ms / MINUTE_MS < start + MAX_SEARCH_MINUTES
      && Runs(zone, plan, ms / MINUTE_MS)
      && (forall earlier | start <= earlier < ms / MINUTE_MS :: !Runs(zone, plan, earlier))
    case None => forall minute | start <= minute < start + MAX_SEARCH_MINUTES :: !Runs(zone, plan, minute)
  }

  /** The least run from `minute` on and before `end`. */
  function Search(zone: Zone, plan: Plan, minute: int, end: int): (found: Option<int>)
    ensures found.Some? ==> minute <= found.value < end && Runs(zone, plan, found.value)
    ensures forall m | minute <= m < (if found.Some? then found.value else end) :: !Runs(zone, plan, m)
    decreases end - minute
  {
    if end <= minute then None
    else if Runs(zone, plan, minute) then Some(minute)
    else Search(zone, plan, minute + 1, end)
  }

  // ------------------------------------------------------ what a plan promises

  /** The local minute of a time on day `day` (Monday is 1) of week `week`; week 0 holds Thursday
      1970-01-01. */
  function WeekMinute(week: int, day: nat, hour: nat, minute: nat): int {
    ((7 * week + day - 4) * 24 + hour) * 60 + minute
  }

  /** It is the planned time on one of the planned days of some week. */
  ghost predicate OnPlan(plan: Plan, local: int) {
    exists week: int, day: nat | day in plan.weekdays :: local == WeekMinute(week, day, plan.hour, plan.minute)
  }

  ghost predicate CivilRun(zone: Zone, plan: Plan, minute: int) {
    OnPlan(plan, zone(minute)) && forall earlier | minute - 180 <= earlier < minute :: zone(earlier) != zone(minute)
  }

  /** The first planned time after `afterMs` and within fifteen days that the clock does not show
      for the second time within three hours. */
  ghost predicate IsNextCivilRun(zone: Zone, plan: Plan, afterMs: int, next: Option<int>) {
    match next
    case Some(ms) =>
      && ms % 60000 == 0
      && afterMs < ms <= afterMs + 15 * 86400000
      && CivilRun(zone, plan, ms / 60000)
      && (forall m | afterMs < m * 60000 < ms :: !CivilRun(zone, plan, m))
    case None => forall m | afterMs < m * 60000 <= afterMs + 15 * 86400000 :: !CivilRun(zone, plan, m)
  }

  lemma WeekMinuteParts(week: int, day: nat, hour: nat, minute: nat)
    requires 1 <= day <= 7 && hour < 24 && minute < 60
    ensures var local := WeekMinute(week, day, hour, minute);
            Hour(local) == hour && Minute(local) == minute && IsoWeekday(local) == day
  {
    var days := 7 * week + day - 4;
    DayParts(WeekMinute(week, day, hour, minute), days, hour * 60 + minute);
    MinuteParts(hour * 60 + minute, hour, minute);
    MinuteParts(WeekMinute(week, day, hour, minute), days * 24 + hour, minute);
    assert days + 3 == 7 * week + (day - 1);
  }

  lemma PartsMakeWeekMinute(local: int) returns (week: int)
    ensures local == WeekMinute(week, IsoWeekday(local), Hour(local), Minute(local))
  {
    var hours := local / 60;
    var days := hours / 24;
    week := (days + 3) / 7;
    DayParts(local, days, hours % 24 * 60 + local % 60);
    MinuteParts(local % 1440, hours % 24, local % 60);
    WeekOfDay(days);
  }

  lemma WeekOfDay(days: int)
    ensures days == 7 * ((days + 3) / 7) + ((days + 3) % 7 + 1) - 4
  {
  }

  /** The comparison of hour, minute and weekday finds exactly the planned times. */
  lemma MatchesExactly(plan: Plan, local: int)
    requires ValidPlan(plan)
    ensures MatchesPlan(plan, local) <==> OnPlan(plan, local)
  {
    if MatchesPlan(plan, local) {
      var week := PartsMakeWeekMinute(local);
      assert local == WeekMinute(week, IsoWeekday(local), plan.hour, plan.minute);
    }
    if OnPlan(plan, local) {
      var week: int, day: nat :| day in plan.weekdays && local == WeekMinute(week, day, plan.hour, plan.minute);
      WeekMinuteParts(week, day, plan.hour, plan.minute);
    }
  }

  /** In terms of the calendar: on date d a plan matches at one minute, and only if the weekday of d,
      counted from the Monday of its week, is planned. */
  lemma MatchesOnDate(plan: Plan, d: IsoWeek.Date, local: int)
    requires ValidPlan(plan) && IsoWeek.ValidDate(d)
    requires IsoWeek.DayNumber(d) * 1440 <= local < (IsoWeek.DayNumber(d) + 1) * 1440
    ensures var day := IsoWeek.DayNumber(d);
            MatchesPlan(plan, local) <==>
              local == (day * 24 + plan.hour) * 60 + plan.minute && day - IsoWeek.MondayOf(day) + 1 in plan.weekdays
  {
    hide MatchesPlan, IsoWeek.ValidDate, IsoWeek.DayNumber, IsoWeek.MondayOf;
    MatchesOnDay(plan, IsoWeek.DayNumber(d), local);
  }

  lemma MatchesOnDay(plan: Plan, day: int, local: int)
    requires ValidPlan(plan) && day * 1440 <= local < (day + 1) * 1440
    ensures MatchesPlan(plan, local) <==>
              local == (day * 24 + plan.hour) * 60 + plan.minute && day - IsoWeek.MondayOf(day) + 1 in plan.weekdays
  {
    var inDay := local - day * 1440;
    DayParts(local, day, inDay);
    var hour, minute := inDay / 60, inDay % 60;
    MinuteParts(inDay, hour, minute);
    MinuteParts(local, day * 24 + hour, minute);
    WeekdayFromMonday(day, local);
    assert local == (day * 24 + plan.hour) * 60 + plan.minute <==> hour == plan.hour && minute == plan.minute by {
      if local == (day * 24 + plan.hour) * 60 + plan.minute { MinuteParts(inDay, plan.hour, plan.minute); }
    }
  }

  lemma WeekdayFromMonday(day: int, local: int)
    requires local / 1440 == day
    ensures IsoWeekday(local) == day - IsoWeek.MondayOf(day) + 1
  {
  }

  lemma RunsExactly(zone: Zone, plan: Plan, minute: int)
    requires ValidPlan(plan)
    ensures Runs(zone, plan, minute) <==> CivilRun(zone, plan, minute)
  {
    hide MatchesPlan, OnPlan;
    MatchesExactly(plan, zone(minute));
  }

  lemma WindowInMs(afterMs: int, m: int)
    ensures StartMinute(afterMs) <= m <==> afterMs < m * 60000
    ensures m < StartMinute(afterMs) + MAX_SEARCH_MINUTES <==> m * 60000 <= afterMs + 15 * 86400000
  {
  }

  lemma NextRunExactly(zone: Zone, plan: Plan, afterMs: int, next: Option<int>)
    requires ValidPlan(plan)
    ensures IsNextRun(zone, plan, afterMs, next) <==> IsNextCivilRun(zone, plan, afterMs, next)
  {
    hide Runs, CivilRun, StartMinute;
    forall m {:trigger Runs(zone, plan, m)} {:trigger CivilRun(zone, plan, m)}
      ensures Runs(zone, plan, m) <==> CivilRun(zone, plan, m)
      ensures StartMinute(afterMs) <= m <==> afterMs < m * 60000
      ensures m < StartMinute(afterMs) + MAX_SEARCH_MINUTES <==> m * 60000 <= afterMs + 15 * 86400000
    {
      RunsExactly(zone, plan, m);
      WindowInMs(afterMs, m);
    }
    if next.Some? && next.value % 60000 == 0 { assert next.value == next.value / 60000 * 60000; }
  }

  /** The answer of the search as a function, for the models that only need its value. */
  function NextRun(zone: Zone, plan: Plan, afterMs: int): (next: Option<int>)
    ensures IsNextRun(zone, plan, afterMs, next)
    ensures ValidPlan(plan) ==> IsNextCivilRun(zone, plan, afterMs, next)
    ensures next.Some? ==> afterMs < next.value
  {
    var next := SearchFrom(zone, plan, afterMs);
    if ValidPlan(plan) then NextRunExactly(zone, plan, afterMs, next); next else next
  }

  function SearchFrom(zone: Zone, plan: Plan, afterMs: int): (next: Option<int>)
    ensures IsNextRun(zone, plan, afterMs, next)
  {
    match Search(zone, plan, StartMinute(afterMs), StartMinute(afterMs) + MAX_SEARCH_MINUTES)
    case Some(minute) => Some(minute * MINUTE_MS)
    case None => None
  }

  method IsSecondOccurrence(zone: Zone, candidate: int) returns (second: bool)
    ensures second <==> SecondOccurrence(zone, candidate)
  {
    var expected := zone(candidate);
    var offset := 1;
    while offset <= DST_LOOKBACK_MINUTES
      invariant 1 <= offset <= DST_LOOKBACK_MINUTES + 1
      invariant forall earlier | candidate - offset < earlier < candidate :: zone(earlier) != zone(candidate)
    {
      if zone(candidate - offset) == expected { return true; }
      offset := offset + 1;
    }
    return false;
  }

  /** None stands for the RangeError of an exhausted search. */
  method NextScheduledRun(zone: Zone, plan: Plan, afterMs: int) returns (next: Option<int>)
    ensures next == NextRun(zone, plan, afterMs) && IsNextRun(zone, plan, afterMs, next)
    ensures ValidPlan(plan) ==> IsNextCivilRun(zone, plan, afterMs, next)
    ensures next.Some? ==> afterMs < next.value
  {
    hide MatchesPlan, SecondOccurrence, IsNextRun;
    var start := StartMinute(afterMs);
    for offset := 0 to MAX_SEARCH_MINUTES
      invariant Search(zone, plan, start, start + MAX_SEARCH_MINUTES) == Search(zone, plan, start + offset, start + MAX_SEARCH_MINUTES)
    {
      var candidate := start + offset;
      if MatchesPlan(plan, zone(candidate)) {
        var second := IsSecondOccurrence(zone, candidate);
        if !second { return Some(candidate * MINUTE_MS); }
      }
    }
    return None;
  }

  /** The search has exactly one right answer. */
  lemma NextRunIsUnique(zone: Zone, plan: Plan, afterMs: int, a: Option<int>, b: Option<int>)
    requires IsNextRun(zone, plan, afterMs, a) && IsNextRun(zone, plan, afterMs, b)
    ensures a == b
  {
    if a.Some? && b.Some? {
      assert a.value == a.value / MINUTE_MS * MINUTE_MS;
      assert b.value == b.value / MINUTE_MS * MINUTE_MS;
    }
  }

  /** A run is strictly later than `after`, and none was missed in between. */
  lemma NextRunIsLater(zone: Zone, plan: Plan, afterMs: int, ms: int)
    requires IsNextRun(zone, plan, afterMs, Some(ms))
    ensures afterMs < ms
    ensures forall minute | afterMs < minute * MINUTE_MS < ms :: !Runs(zone, plan, minute)
  {
  }

  // ----------------------------------------------------------- bounded search

  /** At most one offset change, at UTC minute `change`: before it the offset is `before`. */
  ghost predicate OneChange(zone: Zone, from: int, to: int, change: int, before: int, later: int) {
    forall minute | from <= minute < to :: zone(minute) == minute + (if minute < change then before else later)
  }

  /** Some local minute of every week matches; the residue is fixed by the plan. */
  function SlotOf(plan: Plan): nat
    requires ValidPlan(plan)
  {
    (plan.weekdays[0] + 3) % 7 * MINUTES_PER_DAY + plan.hour * 60 + plan.minute
  }

  lemma WeekdayOf(q: int, day: nat)
    requires day < 7
    ensures (q * 7 + day + 3) % 7 == (day + 3) % 7
  {
  }

  lemma SlotMatches(plan: Plan, local: int)
    requires ValidPlan(plan) && local % MINUTES_PER_WEEK == SlotOf(plan)
    ensures MatchesPlan(plan, local)
  {
    assert plan.weekdays[0] in plan.weekdays;
    var day := (plan.weekdays[0] + 3) % 7;
    var q := local / 10080;
    var inDay := plan.hour * 60 + plan.minute;
    DayParts(local, q * 7 + day, inDay);
    WeekdayOf(q, day);
    MinuteParts(local, 24 * (q * 7 + day) + plan.hour, plan.minute);
    MinuteParts(inDay, plan.hour, plan.minute);
  }

  lemma DayParts(local: int, days: int, inDay: nat)
    requires local == 1440 * days + inDay && inDay < 1440
    ensures local / 1440 == days && local % 1440 == inDay
  {
  }

  lemma MinuteParts(local: int, hours: int, minute: nat)
    requires local == 60 * hours + minute && minute < 60
    ensures local / 60 == hours && local % 60 == minute
  {
  }

  /** Among a week of consecutive integers one has the wanted residue. */
  lemma SlotInWeek(first: int, slot: nat) returns (local: int)
    requires slot < MINUTES_PER_WEEK
    ensures first <= local < first + MINUTES_PER_WEEK && local % MINUTES_PER_WEEK == slot
  {
    local := first + (slot - first) % MINUTES_PER_WEEK;
    var q := (slot - first) / MINUTES_PER_WEEK;
    assert local == slot - q * MINUTES_PER_WEEK == slot + MINUTES_PER_WEEK * (-q);
    ModShift(slot, -q);
  }

  lemma ModShift(slot: nat, q: int)
    requires slot < MINUTES_PER_WEEK
    ensures (slot + MINUTES_PER_WEEK * q) % MINUTES_PER_WEEK == slot
  {
  }

  /** A week of minutes with one offset, none of which repeats a local minute, holds a run. */
  lemma RunInQuietWeek(zone: Zone, plan: Plan, first: int, offset: int) returns (minute: int)
    requires ValidPlan(plan)
    requires forall m | first <= m < first + MINUTES_PER_WEEK :: zone(m) == m + offset
    requires forall m | first <= m < first + MINUTES_PER_WEEK :: !SecondOccurrence(zone, m)
    ensures first <= minute < first + MINUTES_PER_WEEK && Runs(zone, plan, minute)
  {
    var local := SlotInWeek(first + offset, SlotOf(plan));
    minute := local - offset;
    SlotMatches(plan, local);
  }

  /** One offset change of any size in either direction, any non-empty weekday set: the search never
      fails.  A setback beyond the lookback hides no minute at all. */
  lemma SearchAlwaysFinds(zone: Zone, plan: Plan, afterMs: int, change: int, before: int, later: int, next: Option<int>)
    requires ValidPlan(plan)
    requires var start := StartMinute(afterMs);
             OneChange(zone, start - DST_LOOKBACK_MINUTES, start + MAX_SEARCH_MINUTES, change, before, later)
    requires IsNextRun(zone, plan, afterMs, next)
    ensures next.Some?
  {
    var start := StartMinute(afterMs);
    var setback := if 0 < before - later <= DST_LOOKBACK_MINUTES then before - later else 0;
    if start + MINUTES_PER_WEEK <= change {
      var minute := RunInQuietWeek(zone, plan, start, before);
    } else {
      var settled := (if change < start then start else change) + setback;
      var minute := RunInQuietWeek(zone, plan, settled, later);
    }
  }

  /** What the lookback does not see: after any longer setback the same local minute runs twice. */
  lemma LongSetbackRunsTwice(plan: Plan, minute: int, setback: nat)
    requires ValidPlan(plan) && MatchesPlan(plan, minute) && setback > DST_LOOKBACK_MINUTES
    ensures var zone: Zone := m => if m < minute + setback then m else m - setback;
            Runs(zone, plan, minute) && Runs(zone, plan, minute + setback) && zone(minute) == zone(minute + setback)
  {
  }

  // ------------------------------------------------------ the chain of results

  /** Each result is the search's answer for the previous one. */
  ghost predicate IsChain(zone: Zone, plan: Plan, afterMs: int, chain: seq<int>) {
    forall i | 0 <= i < |chain| :: ChainLink(zone, plan, afterMs, chain, i)
  }

  ghost predicate ChainLink(zone: Zone, plan: Plan, afterMs: int, chain: seq<int>, i: nat)
    requires i < |chain|
  {
    IsNextRun(zone, plan, if i == 0 then afterMs else chain[i - 1], Some(chain[i]))
  }

  lemma ChainElement(zone: Zone, plan: Plan, afterMs: int, chain: seq<int>, i: nat)
    requires IsChain(zone, plan, afterMs, chain) && i < |chain|
    ensures Runs(zone, plan, chain[i] / MINUTE_MS) && chain[i] == chain[i] / MINUTE_MS * MINUTE_MS
  {
    assert ChainLink(zone, plan, afterMs, chain, i);
  }

  lemma {:induction false} ChainIncreases(zone: Zone, plan: Plan, afterMs: int, chain: seq<int>, i: nat, j: nat)
    requires IsChain(zone, plan, afterMs, chain) && i < j < |chain|
    ensures chain[i] < chain[j]
    decreases j
  {
    assert ChainLink(zone, plan, afterMs, chain, j);
    NextRunIsLater(zone, plan, chain[j - 1], chain[j]);
    if i < j - 1 { ChainIncreases(zone, plan, afterMs, chain, i, j - 1); }
  }

  /** Every repetition of a local minute is seen: it also occurred within the lookback before. */
  ghost predicate RepeatsSeen(zone: Zone) {
    forall a, b | a < b && zone(a) == zone(b) :: SecondOccurrence(zone, b)
  }

  /** In particular when equal local minutes always lie within the lookback of each other. */
  lemma CloseRepeatsAreSeen(zone: Zone)
    requires forall a, b | a < b && zone(a) == zone(b) :: b - a <= DST_LOOKBACK_MINUTES
    ensures RepeatsSeen(zone)
  {
  }

  /** Two different runs never show the same local date and time. */
  lemma RunsDifferLocally(zone: Zone, plan: Plan, a: int, b: int)
    requires RepeatsSeen(zone) && Runs(zone, plan, a) && Runs(zone, plan, b) && a != b
    ensures zone(a) != zone(b)
  {
  }

  /** Some occurrence of a local minute is not preceded by another within the lookback, since local
      time is never ahead of UTC by more than `bound`. */
  lemma {:induction false} FirstOccurrence(zone: Zone, a: int, bound: int) returns (first: int)
    requires forall m :: zone(m) <= m + bound
    ensures first <= a && zone(first) == zone(a) && !SecondOccurrence(zone, first)
    decreases a + bound - zone(a)
  {
    if SecondOccurrence(zone, a) {
      var earlier :| a - DST_LOOKBACK_MINUTES <= earlier < a && zone(earlier) == zone(a);
      assert zone(earlier) <= earlier + bound;
      first := FirstOccurrence(zone, earlier, bound);
    } else {
      first := a;
    }
  }

  /** The plan for one local minute. */
  function PlanFor(local: int): Plan {
    Plan(Hour(local), Minute(local), [IsoWeekday(local)])
  }

  ghost predicate NeverTwice(zone: Zone) {
    forall plan, a, b | ValidPlan(plan) && Runs(zone, plan, a) && Runs(zone, plan, b) && a != b :: zone(a) != zone(b)
  }

  /** No plan runs twice at the same local date and time exactly when the zone's repetitions are all
      seen, for every zone whose local time is ahead of UTC by a bounded amount. */
  lemma NeverTwiceExactlyWhen(zone: Zone, bound: int)
    requires forall m :: zone(m) <= m + bound
    ensures NeverTwice(zone) <==> RepeatsSeen(zone)
  {
    if NeverTwice(zone) {
      forall a, b | a < b && zone(a) == zone(b) ensures SecondOccurrence(zone, b) {
        var first := FirstOccurrence(zone, a, bound);
        var plan := PlanFor(zone(a));
        assert MatchesPlan(plan, zone(a)) && ValidPlan(plan) && Runs(zone, plan, first);
        assert !SecondOccurrence(zone, b) ==> Runs(zone, plan, b);
      }
    }
    if RepeatsSeen(zone) {
      forall plan, a, b | ValidPlan(plan) && Runs(zone, plan, a) && Runs(zone, plan, b) && a != b ensures zone(a) != zone(b) {
        RunsDifferLocally(zone, plan, a, b);
      }
    }
  }

  /** The chain is strictly increasing, never hits the same local date and time twice, and
      leaves out no run between its ends. */
  lemma OncePerLocalMinute(zone: Zone, plan: Plan, afterMs: int, chain: seq<int>, i: nat, j: nat)
    requires IsChain(zone, plan, afterMs, chain) && RepeatsSeen(zone) && i < j < |chain|
    ensures chain[i] < chain[j]
    ensures zone(chain[i] / MINUTE_MS) != zone(chain[j] / MINUTE_MS)
  {
    ChainIncreases(zone, plan, afterMs, chain, i, j);
    var a, b := chain[i] / MINUTE_MS, chain[j] / MINUTE_MS;
    ChainElement(zone, plan, afterMs, chain, i);
    ChainElement(zone, plan, afterMs, chain, j);
    RunsDifferLocally(zone, plan, a, b);
  }

  lemma {:induction false} ChainMissesNothing(zone: Zone, plan: Plan, afterMs: int, chain: seq<int>, minute: int)
    requires IsChain(zone, plan, afterMs, chain) && chain != []
    requires Runs(zone, plan, minute) && afterMs < minute * MINUTE_MS <= chain[|chain| - 1]
    ensures minute * MINUTE_MS in chain
    decreases |chain|
  {
    var last := |chain| - 1;
    ChainElement(zone, plan, afterMs, chain, last);
    assert ChainLink(zone, plan, afterMs, chain, last);
    var previous := if last == 0 then afterMs else chain[last - 1];
    if minute * MINUTE_MS <= previous {
      forall i | 0 <= i < last ensures ChainLink(zone, plan, afterMs, chain[..last], i) {
        assert ChainLink(zone, plan, afterMs, chain, i);
      }
      ChainMissesNothing(zone, plan, afterMs, chain[..last], minute);
    } else {
      NextRunIsLater(zone, plan, previous, chain[last]);
    }
  }
}
