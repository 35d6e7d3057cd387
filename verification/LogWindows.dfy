/** The access-log exporter: quarter-hour windows over the last thirty days, one sorted file for each window
    that got any request. Instants are microseconds of UTC since a midnight. */
module LogWindows {
  import opened Common

  const WINDOW_MINUTES := 15
  const WINDOW := WINDOW_MINUTES * MINUTE

  // ----- _window_floor -----

  /** Clock fields of an instant, as `datetime` holds them. */
  datatype Clock = Clock(hours: int, minute: int, second: int, microsecond: int)

  function ToClock(value: int): Clock {
    Clock(value / HOUR, value / MINUTE % 60, value / SECOND % 60, value % SECOND)
  }

  function FromClock(c: Clock): int {
    c.hours * HOUR + c.minute * MINUTE + c.second * SECOND + c.microsecond
  }

  /** The minute is rounded down to a quarter, the smaller fields are cleared. */
  function WindowFloor(value: int): int {
    var clock := ToClock(value);
    FromClock(clock.(minute := clock.minute - clock.minute % WINDOW_MINUTES, second := 0, microsecond := 0))
  }

  /** In whole minutes: the quarter hour that has begun. */
  lemma QuarterOf(minutes: int)
    ensures minutes / 60 * 60 + (minutes % 60 - minutes % 60 % 15) == minutes / 15 * 15
  {
  }

  lemma MinuteOf(value: int)
    ensures value / HOUR == value / MINUTE / 60
    ensures value / MINUTE * MINUTE <= value < value / MINUTE * MINUTE + MINUTE
  {
  }

  lemma FloorIsMultiple(value: int)
    ensures WindowFloor(value) % WINDOW == 0
    ensures WindowFloor(value) <= value < WindowFloor(value) + WINDOW
  {
    MinuteOf(value);
    FloorOfMinutes(value / HOUR, value / MINUTE);
  }

  /** `hours` and `minutes` are the whole hours and minutes of an instant. */
  lemma FloorOfMinutes(hours: int, minutes: int)
    requires hours == minutes / 60
    ensures var floor := hours * HOUR + (minutes % 60 - minutes % 60 % 15) * MINUTE;
            floor == minutes / 15 * WINDOW && floor % WINDOW == 0 &&
            floor <= minutes * MINUTE && minutes * MINUTE + MINUTE <= floor + WINDOW
  {
    QuarterOf(minutes);
  }

  /** A quarter hour does not cross an hour. */
  lemma QuarterStaysInHour(window: int, value: int)
    requires window % WINDOW == 0 && window <= value < window + WINDOW
    ensures value / HOUR == window / HOUR
  {
    var q := window / WINDOW;
    HourOf(q / 4, window);
    HourOf(q / 4, value);
  }

  lemma HourOf(hour: int, value: int)
    requires hour * HOUR <= value < hour * HOUR + HOUR
    ensures value / HOUR == hour
  {
  }

  // ----- the windows -----

  predicate Tiles(windows: seq<int>, start: int, end: int) {
    (forall k :: 0 <= k < |windows| ==>
       windows[k] % WINDOW == 0 && windows[k] < end && start < windows[k] + WINDOW) &&
    (forall k :: 0 <= k < |windows| - 1 ==> windows[k + 1] == windows[k] + WINDOW) &&
    (start < end ==> windows != [] && windows[0] <= start && end <= windows[|windows| - 1] + WINDOW)
  }

  lemma MultiplesAdd(first: int, k: nat)
    requires first % WINDOW == 0
    ensures (first + k * WINDOW) % WINDOW == 0
  {
  }

  lemma TilesFrom(first: int, windows: seq<int>, start: int, end: int)
    requires first % WINDOW == 0 && first <= start < first + WINDOW
    requires forall k :: 0 <= k < |windows| ==> windows[k] == first + k * WINDOW && windows[k] < end
    requires end <= first + |windows| * WINDOW
    ensures Tiles(windows, start, end)
  {
    forall k | 0 <= k < |windows|
      ensures windows[k] % WINDOW == 0 && windows[k] < end && start < windows[k] + WINDOW
    {
      MultiplesAdd(first, k);
    }
  }

  method Windows(start: int, end: int) returns (windows: seq<int>)
    ensures Tiles(windows, start, end)
  {
    FloorIsMultiple(start);
    var cursor := WindowFloor(start);
    windows := [];
    while cursor < end
      invariant cursor == WindowFloor(start) + |windows| * WINDOW
      invariant forall k :: 0 <= k < |windows| ==> windows[k] == WindowFloor(start) + k * WINDOW && windows[k] < end
    {
      windows := windows + [cursor];
      cursor := cursor + WINDOW;
    }
    TilesFrom(WindowFloor(start), windows, start, end);
  }

  /** `k` windows further on, the start has moved by `k` window lengths. */
  lemma {:induction false} WindowAt(windows: seq<int>, start: int, end: int, k: nat)
    requires Tiles(windows, start, end) && k < |windows|
    ensures windows[k] == windows[0] + k * WINDOW
  {
    if k > 0 {
      WindowAt(windows, start, end, k - 1);
    }
  }

  predicate In(window: int, t: int) {
    window <= t < window + WINDOW
  }

  lemma WindowsAreDisjoint(windows: seq<int>, start: int, end: int, t: int, k: nat, l: nat)
    requires Tiles(windows, start, end) && k < |windows| && l < |windows| && In(windows[k], t) && In(windows[l], t)
    ensures k == l
  {
    WindowAt(windows, start, end, k);
    WindowAt(windows, start, end, l);
  }

  lemma SomeWindow(windows: seq<int>, start: int, end: int, t: int) returns (k: nat)
    requires Tiles(windows, start, end) && start <= t < end
    ensures k < |windows| && In(windows[k], t)
  {
    k := (t - windows[0]) / WINDOW;
    WindowAt(windows, start, end, |windows| - 1);
    WindowAt(windows, start, end, k);
  }

  /** Every instant of the history lies in exactly one window. */
  lemma EveryInstantHasOneWindow(windows: seq<int>, start: int, end: int, t: int)
    requires Tiles(windows, start, end) && start <= t < end
    ensures exists k :: 0 <= k < |windows| && In(windows[k], t)
    ensures forall k, l :: 0 <= k < |windows| && 0 <= l < |windows| && In(windows[k], t) && In(windows[l], t) ==> k == l
  {
    var found := SomeWindow(windows, start, end, t);
    assert In(windows[found], t);
    forall k, l | 0 <= k < |windows| && 0 <= l < |windows| && In(windows[k], t) && In(windows[l], t)
      ensures k == l
    {
      WindowsAreDisjoint(windows, start, end, t, k, l);
    }
  }

  // ----- events -----

  datatype Event = Event(index: nat, at: int)

  datatype File = File(window: int, events: seq<Event>)

  /** Random draws: requests arriving in a window, and a raw number behind the offset of each request. */
  datatype Draws = Draws(arrivals: int -> nat, raw: nat -> nat)

  /** Windows in the first local hour of a campaign day are never left empty. */
  function Count(draws: Draws, midnight: int -> bool, window: int): nat {
    if midnight(window) && draws.arrivals(window) == 0 then 1 else draws.arrivals(window)
  }

  /** The order of the lines of a file: timestamp, then request identifier, which `id` ranks. */
  predicate NotAfter(id: nat -> int, a: Event, b: Event) {
    a.at < b.at || (a.at == b.at && id(a.index) <= id(b.index))
  }

  predicate Sorted(id: nat -> int, events: seq<Event>) {
    forall k, l :: 0 <= k < l < |events| ==> NotAfter(id, events[k], events[l])
  }

  function Insert(id: nat -> int, events: seq<Event>, e: Event): (r: seq<Event>)
    requires Sorted(id, events)
    ensures Sorted(id, r) && multiset(r) == multiset(events) + multiset{e}
  {
    if events == [] then [e]
    else
      var n := |events| - 1;
      assert events == events[..n] + [events[n]];
      if NotAfter(id, events[n], e) then events + [e]
      else
        var rest := Insert(id, events[..n], e);
        AllBelow(id, events, e, rest);
        rest + [events[n]]
  }

  lemma AllBelow(id: nat -> int, events: seq<Event>, e: Event, rest: seq<Event>)
    requires Sorted(id, events) && events != [] && NotAfter(id, e, events[|events| - 1])
    requires multiset(rest) == multiset(events[..|events| - 1]) + multiset{e}
    ensures forall k :: 0 <= k < |rest| ==> NotAfter(id, rest[k], events[|events| - 1])
  {
    var n := |events| - 1;
    forall k | 0 <= k < |rest|
      ensures NotAfter(id, rest[k], events[n])
    {
      assert rest[k] in multiset(rest);
    }
  }

  function Sort(id: nat -> int, events: seq<Event>): (r: seq<Event>)
    ensures Sorted(id, r) && multiset(r) == multiset(events)
  {
    if events == [] then []
    else
      var n := |events| - 1;
      assert events == events[..n] + [events[n]];
      Insert(id, Sort(id, events[..n]), events[n])
  }

  /** The unsorted events of one window: consecutive indices, times within the window and the history. */
  predicate Drawn(events: seq<Event>, first: nat, window: int, start: int, end: int) {
    forall k :: 0 <= k < |events| ==>
      events[k].index == first + k && In(window, events[k].at) && start <= events[k].at < end
  }

  method DrawEvents(count: nat, first: nat, window: int, start: int, end: int, raw: nat -> nat)
    returns (events: seq<Event>)
    requires window < end && start < window + WINDOW && start < end
    ensures |events| == count && Drawn(events, first, window, start, end)
  {
    var windowEnd := Min(window + WINDOW, end);
    var effectiveStart := Max(window, start);
    var span := Max(1, windowEnd - effectiveStart);
    events := [];
    for i := 0 to count
      invariant |events| == i && Drawn(events, first, window, start, end)
    {
      var completedAt := effectiveStart + raw(first + i) % span;
      events := events + [Event(first + i, completedAt)];
    }
  }

  // ----- the files -----

  /** A file holds sorted events of its own window, hour and history. */
  predicate Right(id: nat -> int, f: File, start: int, end: int) {
    f.events != [] && Sorted(id, f.events) &&
    forall k :: 0 <= k < |f.events| ==>
      In(f.window, f.events[k].at) && f.events[k].at / HOUR == f.window / HOUR && start <= f.events[k].at < end
  }

  predicate AllRight(id: nat -> int, files: seq<File>, start: int, end: int) {
    forall k :: 0 <= k < |files| ==> Right(id, files[k], start, end)
  }

  /** The windows with requests, in order. */
  function Busy(draws: Draws, midnight: int -> bool, windows: seq<int>): seq<int> {
    if windows == [] then []
    else
      var n := |windows| - 1;
      Busy(draws, midnight, windows[..n]) + if Count(draws, midnight, windows[n]) > 0 then [windows[n]] else []
  }

  function WindowsOf(files: seq<File>): seq<int> {
    seq(|files|, k requires 0 <= k < |files| => files[k].window)
  }

  function AllEvents(files: seq<File>): seq<Event> {
    if files == [] then [] else AllEvents(files[..|files| - 1]) + files[|files| - 1].events
  }

  function Requests(draws: Draws, midnight: int -> bool, windows: seq<int>): nat {
    if windows == [] then 0
    else
      Requests(draws, midnight, windows[..|windows| - 1]) + Count(draws, midnight, windows[|windows| - 1])
  }

  predicate Uses(events: seq<Event>, i: nat) {
    exists k :: 0 <= k < |events| && events[k].index == i
  }

  predicate UsesAll(events: seq<Event>, from: nat, to: nat) {
    forall i: nat :: from <= i < to ==> Uses(events, i)
  }

  /** Each of the indices below `n` is used once: there are `n` events, and none of the indices is missing. */
  predicate UsesEach(events: seq<Event>, n: nat) {
    |events| == n && UsesAll(events, 0, n)
  }

  predicate TimesAscend(events: seq<Event>) {
    forall k, l :: 0 <= k < l < |events| ==> events[k].at <= events[l].at
  }

  predicate Until(events: seq<Event>, t: int) {
    forall k :: 0 <= k < |events| ==> events[k].at < t
  }

  lemma SameMembers(a: seq<Event>, b: seq<Event>)
    requires multiset(a) == multiset(b)
    ensures |a| == |b|
    ensures forall k :: 0 <= k < |a| ==> a[k] in b
    ensures forall k :: 0 <= k < |b| ==> b[k] in a
  {
    assert |multiset(a)| == |a| && |multiset(b)| == |b|;
    forall k | 0 <= k < |a|
      ensures a[k] in b
    {
      assert a[k] in multiset(b);
    }
    forall k | 0 <= k < |b|
      ensures b[k] in a
    {
      assert b[k] in multiset(a);
    }
  }

  lemma SortedIsRight(id: nat -> int, events: seq<Event>, first: nat, window: int, start: int, end: int)
    requires Drawn(events, first, window, start, end) && window % WINDOW == 0 && events != []
    ensures Right(id, File(window, Sort(id, events)), start, end)
    ensures |Sort(id, events)| == |events|
  {
    var s := Sort(id, events);
    SameMembers(s, events);
    forall k | 0 <= k < |s|
      ensures In(window, s[k].at) && s[k].at / HOUR == window / HOUR && start <= s[k].at < end
    {
      var l :| 0 <= l < |events| && events[l] == s[k];
      QuarterStaysInHour(window, events[l].at);
    }
  }

  lemma SortedUsesAll(id: nat -> int, events: seq<Event>, first: nat, window: int, start: int, end: int)
    requires Drawn(events, first, window, start, end)
    ensures UsesAll(Sort(id, events), first, first + |events|)
  {
    var s := Sort(id, events);
    SameMembers(s, events);
    forall i: nat | first <= i < first + |events|
      ensures Uses(s, i)
    {
      assert events[i - first] in s && events[i - first].index == i;
      var k :| 0 <= k < |s| && s[k] == events[i - first];
      assert s[k].index == i;
    }
  }

  lemma UsesJoin(a: seq<Event>, b: seq<Event>, before: nat)
    requires UsesEach(a, before) && UsesAll(b, before, before + |b|)
    ensures UsesEach(a + b, before + |b|)
  {
    forall i: nat | i < before + |b|
      ensures Uses(a + b, i)
    {
      if i < before {
        assert Uses(a, i);
        var k :| 0 <= k < |a| && a[k].index == i;
        assert (a + b)[k].index == i;
      } else {
        assert Uses(b, i);
        var k :| 0 <= k < |b| && b[k].index == i;
        assert (a + b)[|a| + k].index == i;
      }
    }
  }

  lemma TimesJoin(id: nat -> int, a: seq<Event>, f: File, start: int, end: int)
    requires TimesAscend(a) && Until(a, f.window) && Right(id, f, start, end)
    ensures TimesAscend(a + f.events) && Until(a + f.events, f.window + WINDOW)
  {
    var all := a + f.events;
    assert forall k :: 0 <= k < |f.events| ==> all[|a| + k] == f.events[k] && In(f.window, f.events[k].at);
    forall k, l | 0 <= k < l < |all|
      ensures all[k].at <= all[l].at
    {
      if |a| <= k {
        assert NotAfter(id, f.events[k - |a|], f.events[l - |a|]);
      }
    }
  }

  /** What is written after the first windows. */
  ghost predicate Written(files: seq<File>, emitted: nat, windows: seq<int>, start: int, end: int, draws: Draws,
                          midnight: int -> bool, id: nat -> int)
  {
    AllRight(id, files, start, end) && WindowsOf(files) == Busy(draws, midnight, windows) &&
    emitted == Requests(draws, midnight, windows) && UsesEach(AllEvents(files), emitted) &&
    TimesAscend(AllEvents(files)) && HoldCounts(draws, midnight, files)
  }

  predicate HoldCounts(draws: Draws, midnight: int -> bool, files: seq<File>) {
    forall f :: f in files ==> |f.events| == Count(draws, midnight, f.window)
  }

  /** The number of requests of a window is what arrived, but at least one in a campaign's first hour: exactly so many
      are in its file, and a window without any has no file. */
  predicate HasRequests(draws: Draws, midnight: int -> bool, files: seq<File>, window: int) {
    (draws.arrivals(window) > 0 ==> exists f :: f in files && f.window == window && |f.events| == draws.arrivals(window)) &&
    (draws.arrivals(window) == 0 && midnight(window) ==> exists f :: f in files && f.window == window && |f.events| == 1) &&
    (draws.arrivals(window) == 0 && !midnight(window) ==> forall f :: f in files ==> f.window != window)
  }

  lemma {:induction false} BusyAre(draws: Draws, midnight: int -> bool, windows: seq<int>, window: int)
    ensures window in Busy(draws, midnight, windows) <==> window in windows && Count(draws, midnight, window) > 0
  {
    if windows != [] {
      var n := |windows| - 1;
      BusyAre(draws, midnight, windows[..n], window);
      assert windows == windows[..n] + [windows[n]];
    }
  }

  lemma WindowHasItsRequests(files: seq<File>, emitted: nat, windows: seq<int>, start: int, end: int, draws: Draws,
                             midnight: int -> bool, id: nat -> int, window: int)
    requires Written(files, emitted, windows, start, end, draws, midnight, id) && window in windows
    ensures HasRequests(draws, midnight, files, window)
  {
    BusyAre(draws, midnight, windows, window);
    if Count(draws, midnight, window) > 0 {
      var k :| 0 <= k < |WindowsOf(files)| && WindowsOf(files)[k] == window;
      assert files[k] in files && |files[k].events| == Count(draws, midnight, window);
    } else {
      forall f | f in files
        ensures f.window != window
      {
        var k :| 0 <= k < |files| && files[k] == f;
        assert WindowsOf(files)[k] == f.window;
      }
    }
  }

  lemma FileWritten(files: seq<File>, emitted: nat, windows: seq<int>, window: int, start: int, end: int, draws: Draws,
                    midnight: int -> bool, id: nat -> int, events: seq<Event>)
    requires Written(files, emitted, windows, start, end, draws, midnight, id) && Until(AllEvents(files), window)
    requires window % WINDOW == 0 && |events| == Count(draws, midnight, window) > 0
    requires Drawn(events, emitted, window, start, end)
    ensures var more := files + [File(window, Sort(id, events))];
            Written(more, emitted + |events|, windows + [window], start, end, draws, midnight, id) &&
            Until(AllEvents(more), window + WINDOW)
  {
    var f := File(window, Sort(id, events));
    SortedIsRight(id, events, emitted, window, start, end);
    SortedUsesAll(id, events, emitted, window, start, end);
    UsesJoin(AllEvents(files), f.events, emitted);
    TimesJoin(id, AllEvents(files), f, start, end);
    OneMoreWindow(windows, window, draws, midnight);
    OneMoreFile(files, f);
  }

  lemma OneMoreWindow(windows: seq<int>, window: int, draws: Draws, midnight: int -> bool)
    ensures Requests(draws, midnight, windows + [window]) == Requests(draws, midnight, windows) + Count(draws, midnight, window)
    ensures Busy(draws, midnight, windows + [window]) ==
              Busy(draws, midnight, windows) + if Count(draws, midnight, window) > 0 then [window] else []
  {
    assert (windows + [window])[..|windows|] == windows;
  }

  lemma OneMoreFile(files: seq<File>, f: File)
    ensures AllEvents(files + [f]) == AllEvents(files) + f.events
    ensures WindowsOf(files + [f]) == WindowsOf(files) + [f.window]
  {
    assert (files + [f])[..|files|] == files;
  }

  lemma WindowSkipped(files: seq<File>, emitted: nat, windows: seq<int>, window: int, start: int, end: int,
                      draws: Draws, midnight: int -> bool, id: nat -> int)
    requires Written(files, emitted, windows, start, end, draws, midnight, id) && Count(draws, midnight, window) == 0
    ensures Written(files, emitted, windows + [window], start, end, draws, midnight, id)
  {
    OneMoreWindow(windows, window, draws, midnight);
  }

  /** `export_logs`: the history is the thirty days before `end`; the guard for windows before it never fires. */
  method ExportLogs(end: int, draws: Draws, midnight: int -> bool, id: nat -> int)
    returns (windows: seq<int>, files: seq<File>, emitted: nat)
    ensures Tiles(windows, end - 30 * DAY, end)
    ensures Written(files, emitted, windows, end - 30 * DAY, end, draws, midnight, id)
    ensures forall window :: window in windows ==> HasRequests(draws, midnight, files, window)
  {
    var start := end - 30 * DAY;
    windows := Windows(start, end);
    files, emitted := [], 0;
    for n := 0 to |windows|
      invariant Written(files, emitted, windows[..n], start, end, draws, midnight, id)
      invariant n < |windows| ==> Until(AllEvents(files), windows[n])
    {
      var window := windows[n];
      assert windows[..n + 1] == windows[..n] + [window];
      var windowEnd := Min(window + WINDOW, end);
      assert windowEnd > start;
      var count := draws.arrivals(window);
      if midnight(window) && count == 0 {
        count := 1;
      }
      if count == 0 {
        WindowSkipped(files, emitted, windows[..n], window, start, end, draws, midnight, id);
        assert Until(AllEvents(files), window + WINDOW);
        continue;
      }
      var events := DrawEvents(count, emitted, window, start, end, draws.raw);
      FileWritten(files, emitted, windows[..n], window, start, end, draws, midnight, id, events);
      files := files + [File(window, Sort(id, events))];
      emitted := emitted + |events|;
    }
    assert windows[..|windows|] == windows;
    forall window | window in windows
      ensures HasRequests(draws, midnight, files, window)
    {
      WindowHasItsRequests(files, emitted, windows, start, end, draws, midnight, id, window);
    }
  }

  /** A midnight window of a campaign always has a file. */
  lemma {:induction false} CampaignsLeaveEvidence(draws: Draws, midnight: int -> bool, windows: seq<int>, k: nat)
    requires k < |windows| && midnight(windows[k])
    ensures windows[k] in Busy(draws, midnight, windows)
  {
    var n := |windows| - 1;
    if k < n {
      CampaignsLeaveEvidence(draws, midnight, windows[..n], k);
    }
  }
}
