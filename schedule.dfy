/**
  `generateSchedule` of the schedule view: greedy packing of the tasks, in
  `order`, into working days of `hoursPerDay` hours that begin at a fixed
  time of day, carrying what does not fit over to the next day.

  Time is abstract: a day is a day number (`today` is what the clock reports
  when the schedule is generated), a time of day is minutes after that day's
  midnight, and durations are whole hours.
*/
module Schedule {
  import opened Js
  import opened Sorting

  /** One generated calendar event: `start` and `end` are minutes after midnight of `day`. */
  datatype Event = Event(title: Value, day: int, start: int, end: int, description: Value, priority: Value)

  /** The working-day parameters: capacity in hours, and the start of the working day in minutes after midnight. */
  datatype Config = Config(hoursPerDay: int, clock: int)

  /** The scheduling position: the current day and the hours still free on it. */
  datatype Cursor = Cursor(day: int, capacity: int)

  /** The working day begins at `hours:minutes`. */
  function StartClock(hours: int, minutes: int): int {
    60 * hours + minutes
  }

  function Min(a: int, b: int): int {
    if a <= b then a else b
  }

  /** `task.name || task.taskName || 'Unnamed Task'` */
  function Title(t: Obj): (r: Value)
    ensures Truthy(r)
    ensures Truthy(Get(t, Name)) ==> r == Get(t, Name)
    ensures !Truthy(Get(t, Name)) && Truthy(Get(t, TaskName)) ==> r == Get(t, TaskName)
  {
    Or(Or(Get(t, Name), Get(t, TaskName)), Str("Unnamed Task"))
  }

  /** `task.description || ''` */
  function DescriptionOf(t: Obj): (r: Value)
    ensures !IsNullish(r)
    ensures Truthy(Get(t, Description)) ==> r == Get(t, Description)
    ensures !Truthy(Get(t, Description)) ==> r == Str("")
  {
    Or(Get(t, Description), Str(""))
  }

  /** `task.taskPriority || 0` */
  function PriorityOf(t: Obj): (r: Value)
    ensures !IsNullish(r)
    ensures Truthy(Get(t, TaskPriority)) ==> r == Get(t, TaskPriority)
    ensures !Truthy(Get(t, TaskPriority)) ==> r == Num(0)
  {
    Or(Get(t, TaskPriority), Num(0))
  }

  /**
    The hours of work a task asks for: `task.estimated_time || 0`, as the
    loop's `remainingTime > 0` and `Math.min` read it.  A value that is not a
    number reads as NaN, for which the loop does not run.
  */
  function Hours(t: Obj): (h: int)
    ensures Get(t, Estimated_time).Num? ==> h == Get(t, Estimated_time).n
    ensures !Truthy(Get(t, Estimated_time)) ==> h == 0
    ensures Get(t, Estimated_time).Str? && ParseNumber(Get(t, Estimated_time).s).NaN? ==> h == 0
  {
    match ToNumber(Or(Get(t, Estimated_time), Num(0)))
    case Num(n) => n
    case _ => 0
  }

  /** The sort key `(task.order || 0)` of the comparator `(a, b) => (a.order || 0) - (b.order || 0)`. */
  function OrderKey(t: Obj): (r: Value)
    ensures r.Num? || r.NaN?
    ensures Get(t, Order).Num? ==> r == Get(t, Order)
    ensures !Truthy(Get(t, Order)) ==> r == Num(0)
  {
    ToNumber(Or(Get(t, Order), Num(0)))
  }

  /** The tasks in the order they are scheduled: a stable sort by `order`, missing orders as 0. */
  function SchedulingOrder(tasks: seq<Obj>): (r: seq<Obj>)
    ensures multiset(r) == multiset(tasks)
    ensures Comparable(tasks, OrderKey) ==> SortedBy(r, OrderKey, Ascending)
    ensures Comparable(tasks, OrderKey) ==> forall v :: WithKey(r, OrderKey, v) == WithKey(tasks, OrderKey, v)
  {
    if Comparable(tasks, OrderKey) then
      StableSortCorrect(tasks, OrderKey, Ascending);
      StableSort(tasks, OrderKey, Ascending)
    else
      StableSort(tasks, OrderKey, Ascending)
  }

  predicate Fits(c: Cursor, cfg: Config) {
    0 < c.capacity <= cfg.hoursPerDay
  }

  /** The end of the current day's working window. */
  function WindowEnd(cfg: Config): int {
    cfg.clock + 60 * cfg.hoursPerDay
  }

  /** Position after booking `used` hours: once the day is full, the next day starts with a full window. */
  function Advance(c: Cursor, used: int, cfg: Config): (r: Cursor)
    ensures r.day == c.day + 1 <==> c.capacity - used <= 0
    ensures r.day == c.day ==> r.capacity == c.capacity - used
    ensures r.day == c.day || (r.day == c.day + 1 && r.capacity == cfg.hoursPerDay)
    ensures Fits(c, cfg) && used >= 0 ==> Fits(r, cfg)
  {
    if c.capacity - used <= 0 then Cursor(c.day + 1, cfg.hoursPerDay)
    else Cursor(c.day, c.capacity - used)
  }

  /**
    The inner `while (remainingTime > 0)` loop for one task: the events booked
    for `remaining` hours from position `c`, and the position afterwards.
  */
  function Chunks(t: Obj, remaining: int, c: Cursor, cfg: Config): (res: (seq<Event>, Cursor))
    requires remaining > 0 ==> Fits(c, cfg)
    ensures remaining <= 0 ==> res == ([], c)
    ensures remaining > 0 ==> Fits(res.1, cfg)
    decreases remaining
  {
    if remaining <= 0 then ([], c)
    else
      var start := cfg.clock + (if c.capacity < cfg.hoursPerDay then 60 * (cfg.hoursPerDay - c.capacity) else 0);
      var available := Min(remaining, c.capacity);
      var e := Event(Title(t), c.day, start, start + 60 * available, DescriptionOf(t), PriorityOf(t));
      var rest := Chunks(t, remaining - available, Advance(c, available, cfg), cfg);
      ([e] + rest.0, rest.1)
  }

  /** One turn of the inner loop books one event and moves the position on. */
  lemma ChunksStep(t: Obj, remaining: int, c: Cursor, cfg: Config, booked: seq<Event>, e: Event, next: Cursor)
    requires remaining > 0 && Fits(c, cfg)
    requires var start := cfg.clock + (if c.capacity < cfg.hoursPerDay then 60 * (cfg.hoursPerDay - c.capacity) else 0);
      e == Event(Title(t), c.day, start, start + 60 * Min(remaining, c.capacity), DescriptionOf(t), PriorityOf(t))
    requires next == Advance(c, Min(remaining, c.capacity), cfg)
    ensures var before := Chunks(t, remaining, c, cfg);
      var after := Chunks(t, remaining - Min(remaining, c.capacity), next, cfg);
      before.1 == after.1 && (booked + [e]) + after.0 == booked + before.0
  {
  }

  /** The loop can only run forever when the day has no capacity and some task needs time. */
  predicate CanStart(tasks: seq<Obj>, c: Cursor, cfg: Config) {
    if cfg.hoursPerDay > 0 then Fits(c, cfg)
    else forall i :: 0 <= i < |tasks| ==> Hours(tasks[i]) <= 0
  }

  /** The outer `for` loop over `tasks` (already in scheduling order), starting at position `c`. */
  function Plan(tasks: seq<Obj>, c: Cursor, cfg: Config): (res: (seq<Event>, Cursor))
    requires CanStart(tasks, c, cfg)
    ensures cfg.hoursPerDay > 0 ==> Fits(res.1, cfg)
    ensures cfg.hoursPerDay <= 0 ==> res == ([], c)
    decreases |tasks|
  {
    if tasks == [] then ([], c)
    else
      var last := tasks[|tasks| - 1];
      assert cfg.hoursPerDay <= 0 ==> Hours(last) <= 0;
      var p := Plan(tasks[..|tasks| - 1], c, cfg);
      var q := Chunks(last, Hours(last), p.1, cfg);
      assert cfg.hoursPerDay <= 0 ==> p.0 + q.0 == [];
      (p.0 + q.0, q.1)
  }

  lemma PlanStep(tasks: seq<Obj>, i: nat, c: Cursor, cfg: Config)
    requires i < |tasks| && CanStart(tasks, c, cfg)
    ensures CanStart(tasks[..i], c, cfg) && CanStart(tasks[..i + 1], c, cfg)
    ensures Hours(tasks[i]) > 0 ==> Fits(Plan(tasks[..i], c, cfg).1, cfg)
    ensures var p := Plan(tasks[..i], c, cfg);
      var q := Chunks(tasks[i], Hours(tasks[i]), p.1, cfg);
      Plan(tasks[..i + 1], c, cfg) == (p.0 + q.0, q.1)
  {
    assert tasks[..i + 1][..i] == tasks[..i];
    assert tasks[..i + 1][i] == tasks[i];
  }

  /** The events `generateSchedule` returns. */
  function Schedule(tasks: seq<Obj>, cfg: Config, today: int): (events: seq<Event>)
    requires cfg.hoursPerDay > 0 || forall i :: 0 <= i < |tasks| ==> Hours(tasks[i]) <= 0
    ensures cfg.hoursPerDay <= 0 ==> events == []
    ensures tasks == [] ==> events == []
  {
    var sorted := SchedulingOrder(tasks);
    NoWorkPermutation(tasks, sorted);
    Plan(sorted, Cursor(today, cfg.hoursPerDay), cfg).0
  }

  lemma NoWorkPermutation(a: seq<Obj>, b: seq<Obj>)
    requires multiset(a) == multiset(b)
    ensures (forall i :: 0 <= i < |a| ==> Hours(a[i]) <= 0) ==> forall i :: 0 <= i < |b| ==> Hours(b[i]) <= 0
  {
    forall i | 0 <= i < |b| && (forall k :: 0 <= k < |a| ==> Hours(a[k]) <= 0) ensures Hours(b[i]) <= 0 {
      assert b[i] in multiset(a);
      var k :| 0 <= k < |a| && a[k] == b[i];
    }
  }

  /**
    The inner `while (remainingTime > 0)` loop of `generateSchedule`: books
    `task` from position `c` onto the events booked so far.
  */
  method BookTask(task: Obj, cfg: Config, booked: seq<Event>, c: Cursor)
    returns (events: seq<Event>, next: Cursor)
    requires Hours(task) > 0 ==> Fits(c, cfg)
    ensures events == booked + Chunks(task, Hours(task), c, cfg).0
    ensures next == Chunks(task, Hours(task), c, cfg).1
  {
    var hoursPerDay := cfg.hoursPerDay;
    var currentDate, remainingHoursForDay := c.day, c.capacity;
    events := booked;
    var remainingTime := Hours(task);
    while remainingTime > 0
      invariant remainingTime > 0 ==> Fits(Cursor(currentDate, remainingHoursForDay), cfg)
      invariant var q := Chunks(task, remainingTime, Cursor(currentDate, remainingHoursForDay), cfg);
        events + q.0 == booked + Chunks(task, Hours(task), c, cfg).0
        && q.1 == Chunks(task, Hours(task), c, cfg).1
      decreases remainingTime
    {
      var taskStart := cfg.clock;
      if remainingHoursForDay < hoursPerDay {
        taskStart := taskStart + 60 * (hoursPerDay - remainingHoursForDay);
      }
      var availableTime := Min(remainingTime, remainingHoursForDay);
      var taskEnd := taskStart + 60 * availableTime;
      var event := Event(Title(task), currentDate, taskStart, taskEnd, DescriptionOf(task), PriorityOf(task));
      ghost var before, remaining0, position := events, remainingTime, Cursor(currentDate, remainingHoursForDay);
      events := events + [event];
      remainingTime := remainingTime - availableTime;
      remainingHoursForDay := remainingHoursForDay - availableTime;
      if remainingHoursForDay <= 0 {
        currentDate := currentDate + 1;
        remainingHoursForDay := hoursPerDay;
      }
      ChunksStep(task, remaining0, position, cfg, before, event, Cursor(currentDate, remainingHoursForDay));
    }
    assert events + Chunks(task, remainingTime, Cursor(currentDate, remainingHoursForDay), cfg).0 == events;
    next := Cursor(currentDate, remainingHoursForDay);
  }

  /**
    `generateSchedule(tasks, hoursPerDay, "HH:MM")` run on day `today`, with
    the start time already split into hours and minutes: the tasks are taken
    in `order` and each is booked by the inner loop.
  */
  method GenerateSchedule(tasks: seq<Obj>, hoursPerDay: int, startHour: int, startMinute: int, today: int)
    returns (events: seq<Event>)
    requires hoursPerDay > 0 || forall i :: 0 <= i < |tasks| ==> Hours(tasks[i]) <= 0
    ensures events == Schedule(tasks, Config(hoursPerDay, StartClock(startHour, startMinute)), today)
  {
    var cfg := Config(hoursPerDay, StartClock(startHour, startMinute));
    var sorted := SchedulingOrder(tasks);
    NoWorkPermutation(tasks, sorted);
    var start := Cursor(today, hoursPerDay);
    var position := start;
    events := [];
    for i := 0 to |sorted|
      invariant (events, position) == Plan(sorted[..i], start, cfg)
    {
      PlanStep(sorted, i, start, cfg);
      events, position := BookTask(sorted[i], cfg, events, position);
    }
    assert sorted[..|sorted|] == sorted;
  }

  // ---------------------------------------------------------------------
  // The shape of a schedule

  /** The event lies inside its day's working window and is not empty. */
  predicate WithinDay(e: Event, cfg: Config) {
    cfg.clock <= e.start < e.end <= WindowEnd(cfg)
  }

  /**
    `b` is booked right after `a`: on the next day at the start of the window
    when `a` filled its day, otherwise on the same day starting where `a` ends.
  */
  predicate Follows(a: Event, b: Event, cfg: Config) {
    if a.end == WindowEnd(cfg) then b.day == a.day + 1 && b.start == cfg.clock
    else b.day == a.day && b.start == a.end
  }

  predicate Tiled(events: seq<Event>, cfg: Config) {
    && (forall i :: 0 <= i < |events| ==> WithinDay(events[i], cfg))
    && (forall i :: 0 < i < |events| ==> Follows(events[i - 1], events[i], cfg))
  }

  /** `e` is booked at position `c`. */
  predicate StartsAt(e: Event, c: Cursor, cfg: Config) {
    e.day == c.day && e.start == cfg.clock + 60 * (cfg.hoursPerDay - c.capacity)
  }

  /** After `e`, the position is `c`. */
  predicate EndsAt(e: Event, c: Cursor, cfg: Config) {
    if e.end == WindowEnd(cfg) then c == Cursor(e.day + 1, cfg.hoursPerDay)
    else c.day == e.day && e.end == cfg.clock + 60 * (cfg.hoursPerDay - c.capacity)
  }

  /** `events` tile the working windows from position `c0` up to position `c1`. */
  predicate TiledFrom(events: seq<Event>, c0: Cursor, c1: Cursor, cfg: Config) {
    && Tiled(events, cfg)
    && (events == [] ==> c1 == c0)
    && (events != [] ==> StartsAt(events[0], c0, cfg) && EndsAt(events[|events| - 1], c1, cfg))
  }

  lemma {:induction false} ChunksTiled(t: Obj, remaining: int, c: Cursor, cfg: Config)
    requires cfg.hoursPerDay > 0 && Fits(c, cfg)
    ensures var q := Chunks(t, remaining, c, cfg); TiledFrom(q.0, c, q.1, cfg)
    decreases remaining
  {
    if remaining > 0 {
      var available := Min(remaining, c.capacity);
      var next := Advance(c, available, cfg);
      ChunksTiled(t, remaining - available, next, cfg);
      var q := Chunks(t, remaining, c, cfg);
      var rest := Chunks(t, remaining - available, next, cfg);
      var e := q.0[0];
      assert q.0 == [e] + rest.0;
      assert StartsAt(e, c, cfg) && WithinDay(e, cfg);
      assert EndsAt(e, next, cfg);
      if rest.0 != [] {
        assert Follows(e, rest.0[0], cfg);
      }
    }
  }

  lemma TiledFromAppend(a: seq<Event>, b: seq<Event>, c0: Cursor, c1: Cursor, c2: Cursor, cfg: Config)
    requires TiledFrom(a, c0, c1, cfg) && TiledFrom(b, c1, c2, cfg)
    ensures TiledFrom(a + b, c0, c2, cfg)
  {
    var ab := a + b;
    if a != [] && b != [] {
      assert Follows(a[|a| - 1], b[0], cfg);
      forall i | 0 < i < |ab| ensures Follows(ab[i - 1], ab[i], cfg) {
        if i < |a| {
          assert ab[i - 1] == a[i - 1] && ab[i] == a[i];
        } else if i > |a| {
          assert ab[i - 1] == b[i - 1 - |a|] && ab[i] == b[i - |a|];
        }
      }
    } else if a == [] {
      assert ab == b;
    } else {
      assert ab == a;
    }
  }

  lemma {:induction false} PlanTiled(tasks: seq<Obj>, c: Cursor, cfg: Config)
    requires cfg.hoursPerDay > 0 && Fits(c, cfg)
    ensures var p := Plan(tasks, c, cfg); TiledFrom(p.0, c, p.1, cfg)
    decreases |tasks|
  {
    if tasks != [] {
      var last := tasks[|tasks| - 1];
      var p := Plan(tasks[..|tasks| - 1], c, cfg);
      PlanTiled(tasks[..|tasks| - 1], c, cfg);
      ChunksTiled(last, Hours(last), p.1, cfg);
      var q := Chunks(last, Hours(last), p.1, cfg);
      TiledFromAppend(p.0, q.0, c, p.1, q.1, cfg);
    }
  }

  /**
    Every event of a schedule lies in its day's working window, each follows
    the previous one without a gap on the same day, and the day advances by
    one exactly when the previous event filled its day.  The first event
    starts today at the start of the working day.
  */
  lemma ScheduleTiled(tasks: seq<Obj>, cfg: Config, today: int)
    requires cfg.hoursPerDay > 0
    ensures var events := Schedule(tasks, cfg, today);
      && Tiled(events, cfg)
      && (events != [] ==> events[0].day == today && events[0].start == cfg.clock)
  {
    PlanTiled(SchedulingOrder(tasks), Cursor(today, cfg.hoursPerDay), cfg);
  }

  // ---------------------------------------------------------------------
  // Order and non-overlap

  /** `a` is on an earlier day than `b`, or on the same day and over before `b` begins. */
  predicate Earlier(a: Event, b: Event) {
    a.day < b.day || (a.day == b.day && a.end <= b.start)
  }

  lemma {:induction false} TiledEarlier(events: seq<Event>, cfg: Config, i: nat, j: nat)
    requires Tiled(events, cfg) && i < j < |events|
    ensures Earlier(events[i], events[j])
    decreases j - i
  {
    if j > i + 1 {
      TiledEarlier(events, cfg, i, j - 1);
      assert Earlier(events[j - 1], events[j]);
    }
  }

  /**
    Events come out in (day, time) order, and two events of the same day
    never overlap.
  */
  lemma ScheduleOrdered(events: seq<Event>, cfg: Config)
    requires Tiled(events, cfg)
    ensures forall i, j :: 0 <= i < j < |events| ==> Earlier(events[i], events[j])
    ensures forall i, j :: 0 <= i < j < |events| && events[i].day == events[j].day ==>
      events[i].end <= events[j].start
  {
    forall i, j | 0 <= i < j < |events| ensures Earlier(events[i], events[j]) {
      TiledEarlier(events, cfg, i, j);
    }
  }

  /**
    Measured on one time line (1440 minutes a day), events do not overlap
    provided a working day fits in a calendar day.
  */
  lemma ScheduleDisjointInTime(events: seq<Event>, cfg: Config)
    requires Tiled(events, cfg) && cfg.hoursPerDay <= 24
    ensures forall i, j :: 0 <= i < j < |events| ==>
      1440 * events[i].day + events[i].end <= 1440 * events[j].day + events[j].start
  {
    ScheduleOrdered(events, cfg);
  }

  /**
    With a working day longer than a calendar day, the last event of one day
    overlaps the first event of the next: a 31-hour task on a 30-hour day
    from 9:00 runs until 15:00 the next day, but its second chunk starts the
    next day at 9:00.
  */
  lemma LongDayOverlaps()
    ensures var cfg := Config(30, StartClock(9, 0));
      var events := Schedule([map[Estimated_time := Num(31)]], cfg, 0);
      |events| == 2 && 1440 * events[0].day + events[0].end > 1440 * events[1].day + events[1].start
  {
    var cfg := Config(30, StartClock(9, 0));
    var t: Obj := map[Estimated_time := Num(31)];
    assert Hours(t) == 31 && cfg.clock == 540;
    assert [t][..0] == [] && [t][..1] == [t];
    assert StableSort([t], OrderKey, Ascending) == [t];
    var e0 := Event(Title(t), 0, 540, 2340, DescriptionOf(t), PriorityOf(t));
    var e1 := Event(Title(t), 1, 540, 600, DescriptionOf(t), PriorityOf(t));
    // The second chunk: one hour at the start of day 1.
    assert Min(1, 30) == 1 && Advance(Cursor(1, 30), 1, cfg) == Cursor(1, 29);
    assert Chunks(t, 1, Cursor(1, 30), cfg).0 == [e1];
    // The first chunk fills day 0.
    assert Min(31, 30) == 30 && Advance(Cursor(0, 30), 30, cfg) == Cursor(1, 30);
    assert Chunks(t, 31, Cursor(0, 30), cfg).0 == [e0] + [e1];
    PlanStep([t], 0, Cursor(0, 30), cfg);
    assert [] + ([e0] + [e1]) == [e0, e1];
  }

  // ---------------------------------------------------------------------
  // Daily capacity

  /** Minutes booked on day `d`. */
  function DayMinutes(events: seq<Event>, d: int): int {
    if events == [] then 0
    else
      var e := events[|events| - 1];
      DayMinutes(events[..|events| - 1], d) + (if e.day == d then e.end - e.start else 0)
  }

  lemma {:induction false} DayMinutesLater(events: seq<Event>, d: int)
    requires forall i :: 0 <= i < |events| ==> events[i].day < d
    ensures DayMinutes(events, d) == 0
    decreases |events|
  {
    if events != [] {
      DayMinutesLater(events[..|events| - 1], d);
    }
  }

  lemma {:induction false} DayMinutesTiled(events: seq<Event>, cfg: Config, d: int)
    requires Tiled(events, cfg) && events != []
    ensures var last := events[|events| - 1];
      DayMinutes(events, last.day) <= last.end - cfg.clock
      && DayMinutes(events, d) <= 60 * cfg.hoursPerDay
    decreases |events|
  {
    var n := |events|;
    var init, last := events[..n - 1], events[n - 1];
    assert Tiled(init, cfg);
    if init == [] {
      assert DayMinutes(init, d) == 0 && DayMinutes(init, last.day) == 0;
    } else {
      var prev := init[|init| - 1];
      assert prev == events[n - 2];
      assert Follows(prev, last, cfg);
      DayMinutesTiled(init, cfg, d);
      DayMinutesTiled(init, cfg, last.day);
      if prev.end == WindowEnd(cfg) {
        forall i | 0 <= i < |init| ensures init[i].day < last.day {
          if i < |init| - 1 {
            TiledEarlier(init, cfg, i, |init| - 1);
          }
        }
        DayMinutesLater(init, last.day);
      }
    }
  }

  /** No day is booked for more than `hoursPerDay` hours. */
  lemma ScheduleCapacity(events: seq<Event>, cfg: Config, d: int)
    requires Tiled(events, cfg) && cfg.hoursPerDay > 0
    ensures DayMinutes(events, d) <= 60 * cfg.hoursPerDay
  {
    if events != [] {
      DayMinutesTiled(events, cfg, d);
    }
  }

  // ---------------------------------------------------------------------
  // What one task contributes

  /** Minutes booked in total. */
  function Minutes(events: seq<Event>): int {
    if events == [] then 0 else Minutes(events[..|events| - 1]) + (events[|events| - 1].end - events[|events| - 1].start)
  }

  lemma {:induction false} MinutesAppend(a: seq<Event>, b: seq<Event>)
    ensures Minutes(a + b) == Minutes(a) + Minutes(b)
    decreases |b|
  {
    if b == [] {
      assert a + b == a;
    } else {
      var n := |b|;
      assert (a + b)[..|a + b| - 1] == a + b[..n - 1];
      MinutesAppend(a, b[..n - 1]);
    }
  }

  /**
    The events booked for one task all carry its title, description and
    priority, and together last exactly its hours; a task with no positive
    hours gets no event.
  */
  lemma {:induction false} ChunksConserve(t: Obj, remaining: int, c: Cursor, cfg: Config)
    requires remaining > 0 ==> Fits(c, cfg)
    ensures var q := Chunks(t, remaining, c, cfg).0;
      && Minutes(q) == (if remaining > 0 then 60 * remaining else 0)
      && (forall i :: 0 <= i < |q| ==>
            q[i].title == Title(t) && q[i].description == DescriptionOf(t) && q[i].priority == PriorityOf(t))
    decreases remaining
  {
    if remaining > 0 {
      var available := Min(remaining, c.capacity);
      var next := Advance(c, available, cfg);
      ChunksConserve(t, remaining - available, next, cfg);
      var rest := Chunks(t, remaining - available, next, cfg).0;
      var q := Chunks(t, remaining, c, cfg).0;
      assert q == [q[0]] + rest;
      MinutesAppend([q[0]], rest);
      assert [q[0]][..0] == [];
    }
  }

  /**
    A task longer than what is left of the current day is split: its first
    event fills the day and the next one starts the following day.
  */
  lemma ChunksSplit(t: Obj, remaining: int, c: Cursor, cfg: Config)
    requires cfg.hoursPerDay > 0 && Fits(c, cfg) && remaining > c.capacity
    ensures var q := Chunks(t, remaining, c, cfg).0;
      |q| >= 2 && q[0].day == c.day && q[0].end == WindowEnd(cfg)
      && q[1].day == c.day + 1 && q[1].start == cfg.clock
  {
    var next := Advance(c, c.capacity, cfg);
    assert next == Cursor(c.day + 1, cfg.hoursPerDay);
    var rest := Chunks(t, remaining - c.capacity, next, cfg).0;
    assert rest[0].start == cfg.clock;
  }

  function TotalHours(tasks: seq<Obj>): int {
    if tasks == [] then 0
    else
      var h := Hours(tasks[|tasks| - 1]);
      TotalHours(tasks[..|tasks| - 1]) + (if h > 0 then h else 0)
  }

  /** The plan books exactly the positive hours of its tasks. */
  lemma {:induction false} PlanConserves(tasks: seq<Obj>, c: Cursor, cfg: Config)
    requires CanStart(tasks, c, cfg)
    ensures Minutes(Plan(tasks, c, cfg).0) == 60 * TotalHours(tasks)
    decreases |tasks|
  {
    if tasks != [] {
      var init, last := tasks[..|tasks| - 1], tasks[|tasks| - 1];
      PlanConserves(init, c, cfg);
      var p := Plan(init, c, cfg);
      ChunksConserve(last, Hours(last), p.1, cfg);
      MinutesAppend(p.0, Chunks(last, Hours(last), p.1, cfg).0);
    }
  }
  lemma {:induction false} TotalHoursAppend(a: seq<Obj>, b: seq<Obj>)
    ensures TotalHours(a + b) == TotalHours(a) + TotalHours(b)
    decreases |b|
  {
    if b == [] {
      assert a + b == a;
    } else {
      assert (a + b)[..|a + b| - 1] == a + b[..|b| - 1];
      TotalHoursAppend(a, b[..|b| - 1]);
    }
  }

  /** The hours to book do not depend on the order of the tasks. */
  lemma {:induction false} TotalHoursPermutation(a: seq<Obj>, b: seq<Obj>)
    requires multiset(a) == multiset(b)
    ensures TotalHours(a) == TotalHours(b)
    decreases |a|
  {
    if a != [] {
      var n := |a|;
      var init, x := a[..n - 1], a[n - 1];
      assert a == init + [x];
      assert multiset(init) == multiset(a) - multiset{x};
      assert x in multiset(b);
      var k :| 0 <= k < |b| && b[k] == x;
      var rest := b[..k] + b[k + 1..];
      RemoveAt(b, k);
      TotalHoursPermutation(init, rest);
      TotalHoursRemoveAt(b, k);
    }
  }

  /** Removing the element at index `k` removes one copy of it from the multiset. */
  lemma RemoveAt<T>(b: seq<T>, k: nat)
    requires k < |b|
    ensures multiset(b[..k] + b[k + 1..]) == multiset(b) - multiset{b[k]}
  {
    assert b == b[..k] + [b[k]] + b[k + 1..];
    assert multiset(b) == multiset(b[..k]) + multiset{b[k]} + multiset(b[k + 1..]);
  }

  /** The total without the task at index `k`, plus that task's positive hours, is the whole total. */
  lemma TotalHoursRemoveAt(b: seq<Obj>, k: nat)
    requires k < |b|
    ensures var h := Hours(b[k]);
      TotalHours(b) == TotalHours(b[..k] + b[k + 1..]) + (if h > 0 then h else 0)
  {
    var x := b[k];
    assert b == (b[..k] + [x]) + b[k + 1..];
    TotalHoursAppend(b[..k] + [x], b[k + 1..]);
    TotalHoursAppend(b[..k], [x]);
    TotalHoursAppend(b[..k], b[k + 1..]);
    assert [x][..0] == [];
  }

  /** A schedule books, in total, exactly the positive hours of all the tasks. */
  lemma ScheduleConserves(tasks: seq<Obj>, cfg: Config, today: int)
    requires cfg.hoursPerDay > 0 || forall i :: 0 <= i < |tasks| ==> Hours(tasks[i]) <= 0
    ensures Minutes(Schedule(tasks, cfg, today)) == 60 * TotalHours(tasks)
  {
    var sorted := SchedulingOrder(tasks);
    NoWorkPermutation(tasks, sorted);
    PlanConserves(sorted, Cursor(today, cfg.hoursPerDay), cfg);
    TotalHoursPermutation(sorted, tasks);
  }
}
