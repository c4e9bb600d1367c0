/**
 * The temporal rings: a small time-aware sample of one user's tasks.
 * Ring 1 is the (at most) three tasks due today closest to now; ring 2 is
 * one task from each of the three previous days, ring 3 one task from the
 * same weekday one, two and three weeks back, each pick being the task whose
 * time of day is closest to now's.
 *
 * Each query is modelled as a filter over the table's rows followed by an
 * ordering and a limit. Instants are milliseconds in one fixed time zone, so
 * a day is a whole multiple of `DayMs`.
 */
module TemporalRings {
  import opened Common
  import opened TaskModel

  const DayMs: int := 86_400_000
  const HourMs: int := 3_600_000
  const MinuteMs: int := 60_000
  const SecondMs: int := 1_000

  /** The day number of an instant. */
  function DayOf(t: Millis): int
  {
    t / DayMs
  }

  /** Milliseconds since the start of the instant's day. */
  function TimeOfDay(t: Millis): (r: int)
    ensures 0 <= r < DayMs
  {
    t % DayMs
  }

  /** The first instant of a day. */
  function DayStart(day: int): Millis
  {
    day * DayMs
  }

  /** The instant `r` milliseconds into `day` lies on that day. */
  lemma DayOfStartPlus(day: int, r: int)
    requires 0 <= r < DayMs
    ensures DayOf(DayStart(day) + r) == day
    ensures TimeOfDay(DayStart(day) + r) == r
  {
  }

  /** A JavaScript `Date`, which the ring code changes in place. */
  class Clock {
    var ms: Millis

    constructor (t: Millis)
      ensures ms == t
    {
      ms := t;
    }

    /**
     * `setHours(h, m, s, ms)`: keeps the day and sets the time of day; parts
     * out of their usual range carry into the neighbouring days.
     */
    method SetHours(h: int, m: int, s: int, milli: int)
      modifies this
      ensures ms == DayStart(DayOf(old(ms))) + h * HourMs + m * MinuteMs + s * SecondMs + milli
    {
      ms := DayStart(DayOf(ms)) + h * HourMs + m * MinuteMs + s * SecondMs + milli;
    }

    /** `setDate(d)`, read as moving to day number `day` at the same time of day. */
    method SetDay(day: int)
      modifies this
      ensures DayOf(ms) == day && TimeOfDay(ms) == TimeOfDay(old(ms))
    {
      DayOfStartPlus(day, TimeOfDay(ms));
      ms := DayStart(day) + TimeOfDay(ms);
    }
  }

  /** `getDateRange`: 00:00:00.000 and 23:59:59.999 of the day of `date`. */
  method GetDateRange(date: Millis) returns (start: Millis, end: Millis)
    ensures DayOf(start) == DayOf(date) && TimeOfDay(start) == 0
    ensures DayOf(end) == DayOf(date) && TimeOfDay(end) == DayMs - 1
    ensures start <= date <= end
  {
    var s := new Clock(date);
    s.SetHours(0, 0, 0, 0);
    var e := new Clock(date);
    e.SetHours(23, 59, 59, 999);
    DayOfStartPlus(DayOf(date), 0);
    DayOfStartPlus(DayOf(date), DayMs - 1);
    start, end := s.ms, e.ms;
  }

  /** The last instant of a day, as `getDateRange` computes it. */
  function DayEnd(day: int): Millis
  {
    DayStart(day) + DayMs - 1
  }

  /** The `WHERE uid = ... AND dueAt BETWEEN start AND end` condition. */
  predicate InWindow(t: Task, uid: Uid, start: Millis, end: Millis)
  {
    t.uid == uid && start <= t.dueAt <= end
  }

  /** A day's inclusive window holds exactly the instants of that day. */
  lemma DayWindowIsDay(t: Task, uid: Uid, day: int)
    ensures InWindow(t, uid, DayStart(day), DayEnd(day)) <==> t.uid == uid && DayOf(t.dueAt) == day
  {
    DayOfStartPlus(day, 0);
    DayOfStartPlus(day, DayMs - 1);
    if DayStart(day) <= t.dueAt <= DayEnd(day) {
      DayOfStartPlus(day, t.dueAt - DayStart(day));
    }
  }

  /** The rows that satisfy a window condition, in table order. */
  function Candidates(table: seq<Task>, uid: Uid, start: Millis, end: Millis): (c: seq<Task>)
    ensures forall t :: t in c <==> t in table && InWindow(t, uid, start, end)
    ensures multiset(c) <= multiset(table)
  {
    if table == [] then []
    else
      var rest := Candidates(table[1..], uid, start, end);
      assert table == [table[0]] + table[1..];
      if InWindow(table[0], uid, start, end) then [table[0]] + rest else rest
  }

  /** `ORDER BY ABS(EXTRACT(EPOCH FROM (dueAt - now)))` as a key. */
  function DueDistance(now: Millis): Task -> int
  {
    (t: Task) => Abs(t.dueAt - now)
  }

  /**
   * `now.toTimeString().split(' ')[0]`: now's time of day as `HH:MM:SS`,
   * so without its milliseconds.
   */
  function NowClock(now: Millis): (c: int)
    ensures 0 <= c <= TimeOfDay(now) < c + SecondMs
    ensures c % SecondMs == 0
  {
    TimeOfDay(now) / SecondMs * SecondMs
  }

  /**
   * `ORDER BY ABS(EXTRACT(EPOCH FROM (dueAt::time - nowTime::time)))` as a
   * key: the distance between times of day, with no wrap-around at midnight.
   */
  function ClockDistance(nowClock: int): Task -> int
  {
    (t: Task) => Abs(TimeOfDay(t.dueAt) - nowClock)
  }

  /** Non-decreasing in `key`. */
  predicate SortedBy(s: seq<Task>, key: Task -> int)
  {
    forall i, j :: 0 <= i < j < |s| ==> key(s[i]) <= key(s[j])
  }

  /** Inserts `x` into `s` ahead of the first element of larger key. */
  function InsertByKey(x: Task, s: seq<Task>, key: Task -> int): (r: seq<Task>)
    ensures multiset(r) == multiset(s) + multiset{x}
  {
    if s == [] then [x]
    else if key(x) <= key(s[0]) then [x] + s
    else
      assert s == [s[0]] + s[1..];
      [s[0]] + InsertByKey(x, s[1..], key)
  }

  lemma {:induction false} InsertKeepsSorted(x: Task, s: seq<Task>, key: Task -> int)
    requires SortedBy(s, key)
    ensures SortedBy(InsertByKey(x, s, key), key)
  {
    if s != [] && key(x) > key(s[0]) {
      var rest := InsertByKey(x, s[1..], key);
      InsertKeepsSorted(x, s[1..], key);
      forall j | 0 <= j < |rest| ensures key(s[0]) <= key(rest[j]) {
        assert rest[j] in multiset(s[1..]) + multiset{x};
        if rest[j] != x {
          assert rest[j] in s[1..];
        }
      }
    }
  }

  /** `ORDER BY key`: a sorted permutation of `s`. */
  function SortByKey(s: seq<Task>, key: Task -> int): (r: seq<Task>)
    ensures multiset(r) == multiset(s)
    ensures |r| == |s|
    ensures SortedBy(r, key)
  {
    if s == [] then []
    else
      assert s == [s[0]] + s[1..];
      var sorted := SortByKey(s[1..], key);
      InsertKeepsSorted(s[0], sorted, key);
      InsertByKey(s[0], sorted, key)
  }

  /** `ORDER BY key LIMIT k`. */
  function Closest(s: seq<Task>, key: Task -> int, k: nat): (r: seq<Task>)
    ensures |r| == if k < |s| then k else |s|
  {
    var sorted := SortByKey(s, key);
    sorted[..if k < |s| then k else |s|]
  }

  /** What `ORDER BY key LIMIT k` leaves out. */
  function Leftover(s: seq<Task>, key: Task -> int, k: nat): seq<Task>
  {
    var sorted := SortByKey(s, key);
    sorted[if k < |s| then k else |s|..]
  }

  /** The selection and what it leaves out together make up `s`. */
  lemma ClosestSplits(s: seq<Task>, key: Task -> int, k: nat)
    ensures multiset(Closest(s, key, k)) + multiset(Leftover(s, key, k)) == multiset(s)
    ensures multiset(Closest(s, key, k)) <= multiset(s)
  {
    var sorted := SortByKey(s, key);
    var n := if k < |s| then k else |s|;
    assert sorted == sorted[..n] + sorted[n..];
  }

  /**
   * The selection is in non-decreasing key order, and no element left out
   * has a strictly smaller key than one taken.
   */
  lemma ClosestOrdered(s: seq<Task>, key: Task -> int, k: nat)
    ensures SortedBy(Closest(s, key, k), key)
    ensures forall x, i :: x in Leftover(s, key, k) && 0 <= i < |Closest(s, key, k)| ==>
      key(Closest(s, key, k)[i]) <= key(x)
  {
    var sorted := SortByKey(s, key);
    var n := if k < |s| then k else |s|;
    forall x, i | x in sorted[n..] && 0 <= i < n ensures key(sorted[i]) <= key(x) {
      var j :| n <= j < |s| && sorted[j] == x;
    }
  }

  /**
   * What the selection means for membership: it takes only elements of `s`;
   * every element of `s` it leaves out is at least as far as each one taken;
   * and when it takes fewer than `k` it takes all of `s`.
   */
  lemma ClosestSelects(s: seq<Task>, key: Task -> int, k: nat)
    ensures forall x :: x in Closest(s, key, k) ==> x in s
    ensures forall x, i :: x in s && x !in Closest(s, key, k) && 0 <= i < |Closest(s, key, k)| ==>
      key(Closest(s, key, k)[i]) <= key(x)
    ensures |Closest(s, key, k)| < k ==> forall x :: x in s ==> x in Closest(s, key, k)
  {
    ClosestSplits(s, key, k);
    var c, l := Closest(s, key, k), Leftover(s, key, k);
    forall x | x in c ensures x in s {
      assert x in multiset(c);
    }
    forall x | x in s && x !in c ensures x in l {
      assert x in multiset(s);
      assert x !in multiset(c);
    }
    if |c| < k {
      assert l == [];
      assert multiset(c) == multiset(s);
      forall x | x in s ensures x in c {
        assert x in multiset(s);
      }
    }
  }

  /**
   * A windowed `ORDER BY key LIMIT k` query: it returns at most `k` of the
   * caller's rows in the window, and when it returns fewer than `k` it
   * returns the whole window.
   */
  lemma WindowSelect(table: seq<Task>, uid: Uid, start: Millis, end: Millis, key: Task -> int, k: nat)
    ensures |Closest(Candidates(table, uid, start, end), key, k)| <= k
    ensures multiset(Closest(Candidates(table, uid, start, end), key, k)) <= multiset(table)
    ensures forall t :: t in Closest(Candidates(table, uid, start, end), key, k) ==>
      t in table && InWindow(t, uid, start, end)
    ensures |Closest(Candidates(table, uid, start, end), key, k)| < k ==>
      forall t :: t in table && InWindow(t, uid, start, end) ==> t in Closest(Candidates(table, uid, start, end), key, k)
  {
    var c := Candidates(table, uid, start, end);
    ClosestSplits(c, key, k);
    ClosestSelects(c, key, k);
  }

  /** The same query's order: by key, with no row of the window left out that has a strictly smaller key. */
  lemma WindowOrder(table: seq<Task>, uid: Uid, start: Millis, end: Millis, key: Task -> int, k: nat)
    ensures SortedBy(Closest(Candidates(table, uid, start, end), key, k), key)
    ensures forall t, i ::
      t in table && InWindow(t, uid, start, end) && t !in Closest(Candidates(table, uid, start, end), key, k) &&
      0 <= i < |Closest(Candidates(table, uid, start, end), key, k)| ==>
      key(Closest(Candidates(table, uid, start, end), key, k)[i]) <= key(t)
  {
    var c := Candidates(table, uid, start, end);
    ClosestOrdered(c, key, k);
    ClosestSelects(c, key, k);
  }

  /**
   * One per-day query, `back` days before day `today`: the caller's task that
   * day whose time of day is closest to `nowClock`.
   */
  function DayPick(table: seq<Task>, uid: Uid, today: int, back: int, nowClock: int): seq<Task>
  {
    var day := today - back;
    Closest(Candidates(table, uid, DayStart(day), DayEnd(day)), ClockDistance(nowClock), 1)
  }

  datatype TemporalTasks = TemporalTasks(ring1: seq<Task>, ring2: seq<Task>, ring3: seq<Task>)

  function Ring1(table: seq<Task>, uid: Uid, now: Millis): seq<Task>
  {
    Closest(Candidates(table, uid, DayStart(DayOf(now)), DayEnd(DayOf(now))), DueDistance(now), 3)
  }

  /** The picks `a`, `b` and `c` days before day `today`, concatenated in that order. */
  function Picks(table: seq<Task>, uid: Uid, today: int, nowClock: int, a: int, b: int, c: int): seq<Task>
  {
    DayPick(table, uid, today, a, nowClock) + DayPick(table, uid, today, b, nowClock)
      + DayPick(table, uid, today, c, nowClock)
  }

  /** The rings the retriever returns when every query succeeds. */
  function Rings(table: seq<Task>, uid: Uid, now: Millis): TemporalTasks
  {
    TemporalTasks(
      Ring1(table, uid, now),
      Picks(table, uid, DayOf(now), NowClock(now), 1, 2, 3),
      Picks(table, uid, DayOf(now), NowClock(now), 7, 14, 21))
  }

  const NoRings := TemporalTasks([], [], [])

  /**
   * Ring 1 holds at most three of the caller's tasks due inside today's
   * window, each at most as often as the table does; with fewer than three it
   * holds all of them.
   */
  lemma Ring1Members(table: seq<Task>, uid: Uid, now: Millis)
    ensures |Ring1(table, uid, now)| <= 3
    ensures multiset(Ring1(table, uid, now)) <= multiset(table)
    ensures forall t :: t in Ring1(table, uid, now) ==>
      t in table && InWindow(t, uid, DayStart(DayOf(now)), DayEnd(DayOf(now)))
    ensures |Ring1(table, uid, now)| < 3 ==> forall t ::
      t in table && InWindow(t, uid, DayStart(DayOf(now)), DayEnd(DayOf(now))) ==> t in Ring1(table, uid, now)
  {
    WindowSelect(table, uid, DayStart(DayOf(now)), DayEnd(DayOf(now)), DueDistance(now), 3);
  }

  /**
   * Ring 1 is in order of distance from now, and no task of today's window
   * that it leaves out is strictly closer to now than one it holds.
   */
  lemma Ring1Closest(table: seq<Task>, uid: Uid, now: Millis)
    ensures SortedBy(Ring1(table, uid, now), DueDistance(now))
    ensures forall t, i ::
      t in table && InWindow(t, uid, DayStart(DayOf(now)), DayEnd(DayOf(now))) && t !in Ring1(table, uid, now) &&
      0 <= i < |Ring1(table, uid, now)| ==>
      DueDistance(now)(Ring1(table, uid, now)[i]) <= DueDistance(now)(t)
  {
    WindowOrder(table, uid, DayStart(DayOf(now)), DayEnd(DayOf(now)), DueDistance(now), 3);
  }

  /**
   * A per-day pick holds at most one task, one of the caller's from that
   * day's window, and none exactly when the window has none of them.
   */
  lemma DayPickSpec(table: seq<Task>, uid: Uid, today: int, back: int, nowClock: int)
    ensures |DayPick(table, uid, today, back, nowClock)| <= 1
    ensures forall t :: t in DayPick(table, uid, today, back, nowClock) ==>
      t in table && InWindow(t, uid, DayStart(today - back), DayEnd(today - back))
    ensures DayPick(table, uid, today, back, nowClock) == [] <==>
      forall t :: t in table ==> !InWindow(t, uid, DayStart(today - back), DayEnd(today - back))
  {
    var start, end := DayStart(today - back), DayEnd(today - back);
    var p := DayPick(table, uid, today, back, nowClock);
    WindowSelect(table, uid, start, end, ClockDistance(nowClock), 1);
    if p != [] {
      assert p[0] in p;
    }
  }

  /**
   * When the caller has tasks in that day's window, the pick is one whose
   * time of day is closest to `nowClock` (whichever of several equally close
   * ones).
   */
  lemma DayPickClosest(table: seq<Task>, uid: Uid, today: int, back: int, nowClock: int)
    ensures forall t :: t in table && InWindow(t, uid, DayStart(today - back), DayEnd(today - back)) ==>
      DayPick(table, uid, today, back, nowClock) != [] &&
      ClockDistance(nowClock)(DayPick(table, uid, today, back, nowClock)[0]) <= ClockDistance(nowClock)(t)
  {
    var start, end := DayStart(today - back), DayEnd(today - back);
    var p := DayPick(table, uid, today, back, nowClock);
    WindowSelect(table, uid, start, end, ClockDistance(nowClock), 1);
    WindowOrder(table, uid, start, end, ClockDistance(nowClock), 1);
    forall t | t in table && InWindow(t, uid, start, end)
      ensures p != [] && ClockDistance(nowClock)(p[0]) <= ClockDistance(nowClock)(t)
    {
      if t !in p {
        assert 0 < |p|;
      }
    }
  }

  /** Each task is due strictly before the one ahead of it. */
  ghost predicate DueDescending(s: seq<Task>)
  {
    forall i, j :: 0 <= i < j < |s| ==> s[j].dueAt < s[i].dueAt
  }

  lemma ConcatDescending(s: seq<Task>, u: seq<Task>)
    requires DueDescending(s) && DueDescending(u)
    requires forall x, y :: x in s && y in u ==> y.dueAt < x.dueAt
    ensures DueDescending(s + u)
  {
    forall i, j | 0 <= i < j < |s + u| ensures (s + u)[j].dueAt < (s + u)[i].dueAt {
      if i < |s| && |s| <= j {
        assert (s + u)[i] in s && (s + u)[j] in u;
      } else if |s| <= i {
        assert (s + u)[i] == u[i - |s|] && (s + u)[j] == u[j - |s|];
      }
    }
  }

  /** The window of a later day lies wholly after the window of an earlier one. */
  lemma WindowsOrdered(t: Task, u: Task, uid: Uid, today: int, a: int, b: int)
    requires a < b
    requires InWindow(t, uid, DayStart(today - a), DayEnd(today - a))
    requires InWindow(u, uid, DayStart(today - b), DayEnd(today - b))
    ensures u.dueAt < t.dueAt
  {
  }

  /**
   * Three picks make a ring of at most three of the caller's tasks, each
   * inside the window of one of the three days.
   */
  lemma PicksMembers(table: seq<Task>, uid: Uid, today: int, nowClock: int, a: int, b: int, c: int)
    ensures |Picks(table, uid, today, nowClock, a, b, c)| <= 3
    ensures forall t :: t in Picks(table, uid, today, nowClock, a, b, c) ==>
      t in table &&
      (InWindow(t, uid, DayStart(today - a), DayEnd(today - a)) ||
       InWindow(t, uid, DayStart(today - b), DayEnd(today - b)) ||
       InWindow(t, uid, DayStart(today - c), DayEnd(today - c)))
  {
    DayPickSpec(table, uid, today, a, nowClock);
    DayPickSpec(table, uid, today, b, nowClock);
    DayPickSpec(table, uid, today, c, nowClock);
  }

  /** With `a < b < c` days back, the ring lists the most recent day's pick first. */
  lemma PicksOrdered(table: seq<Task>, uid: Uid, today: int, nowClock: int, a: int, b: int, c: int)
    requires a < b < c
    ensures forall i, j :: 0 <= i < j < |Picks(table, uid, today, nowClock, a, b, c)| ==>
      Picks(table, uid, today, nowClock, a, b, c)[j].dueAt < Picks(table, uid, today, nowClock, a, b, c)[i].dueAt
  {
    var pa, pb, pc := DayPick(table, uid, today, a, nowClock), DayPick(table, uid, today, b, nowClock),
      DayPick(table, uid, today, c, nowClock);
    DayPickSpec(table, uid, today, a, nowClock);
    DayPickSpec(table, uid, today, b, nowClock);
    DayPickSpec(table, uid, today, c, nowClock);
    forall x, y | x in pa && y in pb ensures y.dueAt < x.dueAt {
      WindowsOrdered(x, y, uid, today, a, b);
    }
    ConcatDescending(pa, pb);
    forall x, y | x in pa + pb && y in pc ensures y.dueAt < x.dueAt {
      if x in pa {
        WindowsOrdered(x, y, uid, today, a, c);
      } else {
        WindowsOrdered(x, y, uid, today, b, c);
      }
    }
    ConcatDescending(pa + pb, pc);
  }

  /** A caller with no tasks gets three empty rings. */
  lemma NoTasksNoRings(table: seq<Task>, uid: Uid, now: Millis)
    requires forall t :: t in table ==> t.uid != uid
    ensures Rings(table, uid, now) == NoRings
  {
    var r1 := Ring1(table, uid, now);
    Ring1Members(table, uid, now);
    if r1 != [] {
      assert r1[0] in r1;
    }
    NoPicks(table, uid, DayOf(now), NowClock(now), 1, 2, 3);
    NoPicks(table, uid, DayOf(now), NowClock(now), 7, 14, 21);
  }

  lemma NoPicks(table: seq<Task>, uid: Uid, today: int, nowClock: int, a: int, b: int, c: int)
    requires forall t :: t in table ==> t.uid != uid
    ensures Picks(table, uid, today, nowClock, a, b, c) == []
  {
    DayPickSpec(table, uid, today, a, nowClock);
    DayPickSpec(table, uid, today, b, nowClock);
    DayPickSpec(table, uid, today, c, nowClock);
  }

  /** `createSet2Query` / `createSet3Query`: the pick for the day of `target`, `back` days before `today`. */
  method DayQuery(table: seq<Task>, uid: Uid, target: Millis, ghost today: int, ghost back: int, nowClock: int)
    returns (r: seq<Task>)
    requires DayOf(target) == today - back
    ensures r == DayPick(table, uid, today, back, nowClock)
  {
    var start, end := GetDateRange(target);
    DayOfStartPlus(today - back, 0);
    DayOfStartPlus(today - back, DayMs - 1);
    assert start == DayStart(today - back) && end == DayEnd(today - back);
    r := Closest(Candidates(table, uid, start, end), ClockDistance(nowClock), 1);
  }

  /** A clock moved `back` days before `now`, as `d.setDate(now.getDate() - back)` does. */
  method DaysBefore(now: Millis, back: int) returns (target: Millis)
    ensures DayOf(target) == DayOf(now) - back && TimeOfDay(target) == TimeOfDay(now)
  {
    var d := new Clock(now);
    d.SetDay(DayOf(now) - back);
    target := d.ms;
  }

  /**
   * The picks `a`, `b` and `c` days before `now`, spread into one ring in
   * that order; `nowClock` is now's time of day.
   */
  method PicksQuery(table: seq<Task>, uid: Uid, now: Millis, nowClock: int, a: int, b: int, c: int) returns (ring: seq<Task>)
    ensures ring == Picks(table, uid, DayOf(now), nowClock, a, b, c)
  {
    var dateA := DaysBefore(now, a);
    var dateB := DaysBefore(now, b);
    var dateC := DaysBefore(now, c);
    var pickA := DayQuery(table, uid, dateA, DayOf(now), a, nowClock);
    var pickB := DayQuery(table, uid, dateB, DayOf(now), b, nowClock);
    var pickC := DayQuery(table, uid, dateC, DayOf(now), c, nowClock);
    ring := pickA + pickB + pickC;
  }

  /**
   * `getTemporalRings`. `queryFails` says that one of the seven queries
   * raised an error, which collapses the answer to three empty rings.
   */
  method GetTemporalRings(table: seq<Task>, uid: Uid, now: Millis, queryFails: bool) returns (rings: TemporalTasks)
    ensures queryFails ==> rings == NoRings
    ensures !queryFails ==> rings == Rings(table, uid, now)
  {
    var todayStart, todayEnd := GetDateRange(now);
    DayOfStartPlus(DayOf(now), 0);
    DayOfStartPlus(DayOf(now), DayMs - 1);
    assert todayStart == DayStart(DayOf(now)) && todayEnd == DayEnd(DayOf(now));
    var set1 := Closest(Candidates(table, uid, todayStart, todayEnd), DueDistance(now), 3);
    assert set1 == Ring1(table, uid, now);
    var nowClock := NowClock(now);
    var set2 := PicksQuery(table, uid, now, nowClock, 1, 2, 3);
    var set3 := PicksQuery(table, uid, now, nowClock, 7, 14, 21);
    if queryFails {
      return NoRings;
    }
    rings := TemporalTasks(set1, set2, set3);
  }
}
