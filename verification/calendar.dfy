/** The weekly calendar: schedule items grouped by day, each day cut into
    twenty-four hour slots, and the placeholder shown when there is nothing to lay out. */
module Calendar {
  import opened Seqs
  import opened ClockTime

  /** One entry of `weekly_schedule`; `start` and `end` are `"HH:MM"` texts. */
  datatype ScheduleItem = ScheduleItem(
    title: string,
    kind: string,
    courseId: Option<string>,
    days: seq<string>,
    start: string,
    end: string,
    location: Option<string>,
    recurrence: string,
    priority: int,
    source: string
  )

  /** The part of the schedule data the calendar grid reads. */
  datatype ScheduleData = ScheduleData(weeklySchedule: Option<seq<ScheduleItem>>)

  const Days: seq<string> := ["Mo", "Tu", "We", "Th", "Fr", "Sa", "Su"]
  const DayNames: seq<string> := ["Monday", "Tuesday", "Wednesday", "Thursday", "Friday", "Saturday", "Sunday"]
  const HoursPerDay: nat := 24

  predicate WellTimed(item: ScheduleItem) {
    ParseClock(item.start).Some? && ParseClock(item.end).Some?
  }

  predicate AllWellTimed(items: seq<ScheduleItem>) {
    forall i :: 0 <= i < |items| ==> WellTimed(items[i])
  }

  function StartMinutes(item: ScheduleItem): nat
    requires WellTimed(item)
  {
    Minutes(ParseClock(item.start).value)
  }

  function EndMinutes(item: ScheduleItem): nat
    requires WellTimed(item)
  {
    Minutes(ParseClock(item.end).value)
  }

  /** The slot test, in minutes: the interval [start, end) meets hour `hour`. */
  predicate Occupies(start: int, end: int, hour: int) {
    start < 60 * (hour + 1) && end > 60 * hour
  }

  predicate OnDay(item: ScheduleItem, day: string) {
    day in item.days
  }

  predicate InSlot(item: ScheduleItem, hour: nat) {
    WellTimed(item) && Occupies(StartMinutes(item), EndMinutes(item), hour)
  }

  /** `scheduleByDay[day]`: the items whose `days` list `day`, in schedule order. */
  function DayBucket(items: seq<ScheduleItem>, day: string): (r: seq<ScheduleItem>)
    ensures SubsequenceOf(r, items)
    ensures forall x :: x in r <==> x in items && day in x.days
    ensures forall x :: multiset(r)[x] == if day in x.days then multiset(items)[x] else 0
  {
    FilterContents(x => OnDay(x, day), items);
    Filter(x => OnDay(x, day), items)
  }

  /** Any subsequence of the schedule made of `day` items and as long as the
      bucket is the bucket: the bucket is exactly the `day` items in order. */
  lemma DayBucketExact(items: seq<ScheduleItem>, day: string, sub: seq<ScheduleItem>)
    requires SubsequenceOf(sub, items)
    requires forall i :: 0 <= i < |sub| ==> day in sub[i].days
    requires |sub| >= |DayBucket(items, day)|
    ensures sub == DayBucket(items, day)
  {
    FilterUnique(x => OnDay(x, day), sub, items);
  }

  /** The grouping of the whole schedule, one bucket per entry of `Days`. */
  function ScheduleByDay(items: seq<ScheduleItem>): (r: seq<seq<ScheduleItem>>)
    ensures |r| == |Days|
    ensures forall d, x :: 0 <= d < |Days| ==> (x in r[d] <==> x in items && Days[d] in x.days)
  {
    seq(|Days|, d requires 0 <= d < |Days| => DayBucket(items, Days[d]))
  }

  /** An item none of whose day codes is one of `Mo`..`Su` lands in no bucket. */
  lemma UnknownDaysInNoBucket(items: seq<ScheduleItem>, item: ScheduleItem, d: nat)
    requires forall i :: 0 <= i < |item.days| ==> item.days[i] !in Days
    requires d < |Days|
    ensures item !in ScheduleByDay(items)[d]
  {
  }

  /** `itemsInSlot`: the items of one bucket that meet hour `hour`, in order. */
  function ItemsInSlot(bucket: seq<ScheduleItem>, hour: nat): (r: seq<ScheduleItem>)
    requires AllWellTimed(bucket)
    ensures SubsequenceOf(r, bucket)
    ensures forall x :: x in r <==>
              (x in bucket && StartMinutes(x) < 60 * (hour + 1) && EndMinutes(x) > 60 * hour)
    ensures forall x :: multiset(r)[x] == if InSlot(x, hour) then multiset(bucket)[x] else 0
  {
    FilterContents(x => InSlot(x, hour), bucket);
    Filter(x => InSlot(x, hour), bucket)
  }

  /** Any in-order selection of slot items from the bucket that is as long as
      the slot is the slot: it holds every such item, in bucket order. */
  lemma ItemsInSlotExact(bucket: seq<ScheduleItem>, hour: nat, sub: seq<ScheduleItem>)
    requires AllWellTimed(bucket)
    requires SubsequenceOf(sub, bucket)
    requires forall i :: 0 <= i < |sub| ==> InSlot(sub[i], hour)
    requires |sub| >= |ItemsInSlot(bucket, hour)|
    ensures sub == ItemsInSlot(bucket, hour)
  {
    FilterUnique(x => InSlot(x, hour), sub, bucket);
  }

  /** An item that starts before it ends occupies exactly the hours from the
      one its start falls in up to the one its end reaches into, that is hours
      `start / 60` to `ceil(end / 60) - 1`. */
  lemma OccupiedHours(start: nat, end: nat, hour: nat)
    requires start < end
    ensures Occupies(start, end, hour) <==> start / 60 <= hour < (end + 59) / 60
  {
    assert start < 60 * (hour + 1) <==> start / 60 <= hour;
    assert end > 60 * hour <==> hour < (end + 59) / 60;
  }

  /** A well-timed item never reaches past the last row of the grid: its hours
      all lie in `0..23`. */
  lemma OccupiedHoursWithinDay(item: ScheduleItem, hour: nat)
    requires WellTimed(item) && InSlot(item, hour)
    ensures hour < HoursPerDay
  {
  }

  /** An item that ends at or before the top of the hour it starts in (an
      overnight span like 23:00 to 07:00, read on one day) is in no slot at all. */
  lemma WrappingItemInNoSlot(start: nat, end: nat, hour: nat)
    requires end <= 60 * (start / 60)
    ensures !Occupies(start, end, hour)
  {
  }

  /** One row of the grid: its hour label and, per day, the items in that slot. */
  datatype Row = Row(hourLabel: string, cells: seq<seq<ScheduleItem>>)

  datatype View =
    | NoScheduleData
    | WeekGrid(dayNames: seq<string>, byDay: seq<seq<ScheduleItem>>, rows: seq<Row>)

  function GridRow(byDay: seq<seq<ScheduleItem>>, hour: nat): Row
    requires hour < HoursPerDay
    requires forall d :: 0 <= d < |byDay| ==> AllWellTimed(byDay[d])
  {
    Row(HourLabel(hour), seq(|byDay|, d requires 0 <= d < |byDay| => ItemsInSlot(byDay[d], hour)))
  }

  /** `ScheduleCalendar`'s grid: the placeholder when there is no schedule or it
      is empty, otherwise seven day columns and twenty-four labelled hour rows. */
  function Render(data: ScheduleData): (v: View)
    requires data.weeklySchedule.Some? ==> AllWellTimed(data.weeklySchedule.value)
    ensures v.NoScheduleData? <==> data.weeklySchedule == None || data.weeklySchedule.value == []
    ensures v.WeekGrid? ==> v.dayNames == DayNames && |v.byDay| == |Days| && |v.rows| == HoursPerDay
    ensures v.WeekGrid? ==> v.byDay == ScheduleByDay(data.weeklySchedule.value)
    ensures v.WeekGrid? ==> forall d :: 0 <= d < |Days| ==> AllWellTimed(v.byDay[d])
    ensures v.WeekGrid? ==> forall h :: 0 <= h < HoursPerDay ==>
              v.rows[h].hourLabel == HourLabel(h) && |v.rows[h].cells| == |Days|
  {
    match data.weeklySchedule
    case None => NoScheduleData
    case Some(items) =>
      if |items| == 0 then NoScheduleData
      else
        var byDay := ScheduleByDay(items);
        assert forall d :: 0 <= d < |byDay| ==> AllWellTimed(byDay[d]) by {
          forall d | 0 <= d < |byDay|
            ensures AllWellTimed(byDay[d])
          {
            forall i | 0 <= i < |byDay[d]|
              ensures WellTimed(byDay[d][i])
            {
              assert byDay[d][i] in items;
            }
          }
        }
        WeekGrid(DayNames, byDay, seq(HoursPerDay, h requires 0 <= h < HoursPerDay => GridRow(byDay, h)))
  }

  /** The cell of day `d` and hour `h` is the day's bucket filtered to that
      hour: every scheduled item that lists the day and meets the hour, in
      schedule order and with its multiplicity. */
  lemma CellContents(items: seq<ScheduleItem>, d: nat, h: nat)
    requires AllWellTimed(items) && |items| > 0
    requires d < |Days| && h < HoursPerDay
    ensures var v := Render(ScheduleData(Some(items)));
            v.byDay[d] == DayBucket(items, Days[d])
            && v.rows[h].cells[d] == ItemsInSlot(v.byDay[d], h)
  {
  }
}
