/** The fixed-window request limiter, with eviction of stale clients. */
module Limiter {

  /** The instant the clock calls zero: no entry was ever started then. */
  const ZERO_TIME := 0

  const EVICTION_SIZE := 2000

  datatype Window = Window(started: int, count: int)

  datatype Call = Call(key: string, now: int, allowed: bool)

  type Clients = map<string, Window>

  function Entry(clients: Clients, key: string): Window {
    if key in clients then clients[key] else Window(ZERO_TIME, 0)
  }

  /** The entry after one more request: a fresh window if the old one has run out. */
  function Counted(entry: Window, now: int, window: int): Window {
    if entry.started == ZERO_TIME || now - entry.started >= window then Window(now, 1)
    else Window(entry.started, entry.count + 1)
  }

  /** The clients a limiter that never evicts would hold. */
  ghost function Unevicted(history: seq<Call>, window: int): Clients {
    if |history| == 0 then map[]
    else
      var call := history[|history| - 1];
      var before := Unevicted(history[..|history| - 1], window);
      before[call.key := Counted(Entry(before, call.key), call.now, window)]
  }

  /** What a limiter that never evicts answers to the last call. */
  ghost predicate UnevictedAllows(history: seq<Call>, window: int, capacity: int)
    requires |history| > 0
  {
    Entry(Unevicted(history, window), history[|history| - 1].key).count <= capacity
  }

  /** The latest time any call carried. */
  ghost function Peak(history: seq<Call>): int {
    if |history| == 0 then ZERO_TIME
    else
      var before, now := Peak(history[..|history| - 1]), history[|history| - 1].now;
      if before <= now then now else before
  }

  /** The clock is read before the lock is taken, so calls may carry times out of order; here none is
      further behind an earlier one than the lag. */
  ghost predicate Tolerable(history: seq<Call>, lag: int) {
    |history| == 0 ||
    var before, now := history[..|history| - 1], history[|history| - 1].now;
    Tolerable(before, lag) && now > ZERO_TIME && now >= Peak(before) - lag
  }

  ghost predicate Started(history: seq<Call>) {
    forall n :: 0 <= n < |history| ==> history[n].now > ZERO_TIME
  }

  /** Calls carry times after zero, in non-decreasing order. */
  ghost predicate Ordered(history: seq<Call>) {
    && (forall n :: 0 <= n < |history| ==> history[n].now > ZERO_TIME)
    && (forall m, n :: 0 <= m < n < |history| ==> history[m].now <= history[n].now)
  }

  /** Every recorded answer is the one a limiter that never evicts would have given. */
  ghost predicate Faithful(history: seq<Call>, window: int, capacity: int) {
    forall n :: 0 <= n < |history| ==>
      (history[n].allowed <==> UnevictedAllows(history[..n + 1], window, capacity))
  }

  /** The clients held are those never evicted, less some whose window has long run out. */
  ghost predicate Agrees(clients: Clients, all: Clients, peak: int, window: int) {
    && (forall key :: key in clients ==> key in all && clients[key] == all[key])
    && (forall key :: key in all ==> ZERO_TIME < all[key].started <= peak)
    && (forall key :: key in all && key !in clients ==> peak - all[key].started > window * 2)
  }

  ghost function Kept(clients: Clients, now: int, window: int): Clients {
    map key | key in clients && now - clients[key].started <= window * 2 :: clients[key]
  }

  lemma AgreesAfter(clients: Clients, all: Clients, peak: int, window: int, key: string, now: int)
    requires window >= 0 && Agrees(clients, all, peak, window)
    requires now > ZERO_TIME && now >= peak - window
    ensures Counted(Entry(clients, key), now, window) == Counted(Entry(all, key), now, window)
    ensures var entry := Counted(Entry(clients, key), now, window);
            var later := if peak <= now then now else peak;
            && Agrees(clients[key := entry], all[key := entry], later, window)
            && Agrees(Kept(clients[key := entry], now, window), all[key := entry], later, window)
  {
  }

  class RateLimiter {
    const capacity: int
    const window: int
    var clients: Clients
    ghost var history: seq<Call>

    constructor (capacity: int, window: int)
      ensures Valid() && history == [] && this.capacity == capacity && this.window == window
    {
      this.capacity, this.window := capacity, window;
      clients := map[];
      history := [];
    }

    /** While the clock keeps within a window, every answer has been the one given without eviction,
        and the clients missing have long run out. */
    ghost predicate Valid()
      reads this
    {
      window >= 0 && Tolerable(history, window) ==>
        && Faithful(history, window, capacity)
        && Agrees(clients, Unevicted(history, window), Peak(history), window)
    }

    method Evict(now: int)
      modifies this`clients
      ensures clients == Kept(old(clients), now, window)
    {
      var pending := clients.Keys;
      while pending != {}
        invariant pending <= clients.Keys <= old(clients).Keys
        invariant forall key :: key in clients ==> clients[key] == old(clients)[key]
        invariant forall key :: key in old(clients) && key !in pending ==>
                    (key in clients <==> now - old(clients)[key].started <= window * 2)
        decreases pending
      {
        var key :| key in pending;
        pending := pending - {key};
        if now - clients[key].started > window * 2 {
          clients := clients - {key};
        }
      }
    }

    /** Answers one request; eviction never changes an answer while the clock keeps within a window. */
    method Allow(key: string, now: int) returns (allowed: bool)
      requires Valid() && now > ZERO_TIME
      modifies this
      ensures Valid()
      ensures history == old(history) + [Call(key, now, allowed)]
      ensures allowed <==> Counted(Entry(old(clients), key), now, window).count <= capacity
      ensures var counted := old(clients)[key := Counted(Entry(old(clients), key), now, window)];
              clients == if |counted| > EVICTION_SIZE then Kept(counted, now, window) else counted
      ensures window >= 0 && Tolerable(history, window) ==> (allowed <==> UnevictedAllows(history, window, capacity))
      ensures |clients| > 2000 ==> forall key :: key in clients ==> now - clients[key].started <= 2 * window
    {
      var entry := Entry(clients, key);
      if entry.started == ZERO_TIME || now - entry.started >= window {
        entry := Window(now, 0);
      }
      entry := entry.(count := entry.count + 1);
      assert entry == Counted(Entry(clients, key), now, window);
      hide Agrees, Counted, Faithful, Kept, Unevicted, UnevictedAllows, Tolerable, Peak;
      ghost var before := clients;
      clients := clients[key := entry];
      if |clients| > EVICTION_SIZE {
        Evict(now);
      }
      var remaining := capacity - entry.count;
      allowed := remaining >= 0;
      ghost var call := Call(key, now, allowed);
      if window >= 0 && Tolerable(history + [call], window) {
        Shorter(history, call, window);
        AgreesAfter(before, Unevicted(history, window), Peak(history), window, key, now);
        Extend(history, call, window, capacity);
      }
      history := history + [call];
    }
  }

  lemma Shorter(history: seq<Call>, call: Call, lag: int)
    ensures var longer := history + [call];
            && (Tolerable(longer, lag) <==>
                  Tolerable(history, lag) && call.now > ZERO_TIME && call.now >= Peak(history) - lag)
            && Peak(longer) == if Peak(history) <= call.now then call.now else Peak(history)
  {
    assert (history + [call])[..|history|] == history;
  }

  /** Calls in order of time are calls without lag. */
  lemma {:induction false} OrderedIsTolerable(history: seq<Call>)
    requires Ordered(history)
    ensures Tolerable(history, 0)
    ensures |history| > 0 ==> Peak(history) == history[|history| - 1].now
  {
    if |history| > 0 {
      OrderedIsTolerable(history[..|history| - 1]);
    }
  }

  lemma Extend(history: seq<Call>, call: Call, window: int, capacity: int)
    requires Faithful(history, window, capacity)
    requires call.allowed <==>
               Counted(Entry(Unevicted(history, window), call.key), call.now, window).count <= capacity
    ensures var longer := history + [call];
            && Faithful(longer, window, capacity)
            && (call.allowed <==> UnevictedAllows(longer, window, capacity))
            && var all := Unevicted(history, window);
               Unevicted(longer, window) == all[call.key := Counted(Entry(all, call.key), call.now, window)]
  {
    LastUnevicted(history, call, window, capacity);
    hide Counted, Unevicted, UnevictedAllows;
    var longer := history + [call];
    forall n | 0 <= n < |longer|
      ensures longer[n].allowed <==> UnevictedAllows(longer[..n + 1], window, capacity)
    {
      if n < |history| {
        assert longer[..n + 1] == history[..n + 1];
        assert history[n].allowed <==> UnevictedAllows(history[..n + 1], window, capacity);
      } else {
        assert longer[..n + 1] == longer;
      }
    }
  }

  lemma LastUnevicted(history: seq<Call>, call: Call, window: int, capacity: int)
    ensures var longer, all := history + [call], Unevicted(history, window);
            var entry := Counted(Entry(all, call.key), call.now, window);
            Unevicted(longer, window) == all[call.key := entry]
            && (UnevictedAllows(longer, window, capacity) <==> entry.count <= capacity)
  {
    hide Counted;
    assert (history + [call])[..|history|] == history;
  }

  lemma StartedPrefix(history: seq<Call>)
    requires Started(history) && |history| > 0
    ensures Started(history[..|history| - 1])
  {
  }

  // ----- one client's windows

  /** The request that opened the window request i falls in. */
  ghost function StartOf(times: seq<int>, window: int, i: nat): (s: nat)
    requires i < |times|
    ensures s <= i
  {
    if i == 0 then 0
    else
      var s := StartOf(times, window, i - 1);
      if times[i] - times[s] >= window then i else s
  }

  /** Request i is among the first capacity requests of its window. */
  ghost predicate Admitted(times: seq<int>, window: int, capacity: int, i: nat)
    requires i < |times|
  {
    i - StartOf(times, window, i) < capacity
  }

  /** No time is further behind an earlier one than the lag. */
  ghost predicate Lags(times: seq<int>, lag: int) {
    forall i, j :: 0 <= i <= j < |times| ==> times[j] >= times[i] - lag
  }

  lemma {:induction false} StartsMonotone(times: seq<int>, window: int, i: nat, j: nat)
    requires i <= j < |times|
    ensures StartOf(times, window, i) <= StartOf(times, window, j)
  {
    if i < j {
      StartsMonotone(times, window, i, j - 1);
    }
  }

  lemma {:induction false} StartStarts(times: seq<int>, window: int, i: nat)
    requires i < |times|
    ensures StartOf(times, window, StartOf(times, window, i)) == StartOf(times, window, i)
  {
    if i > 0 {
      StartStarts(times, window, i - 1);
    }
  }

  /** Later windows open at least one window length after earlier ones, whatever the order of times. */
  lemma {:induction false} WindowsApart(times: seq<int>, window: int, s: nat, c: nat)
    requires window >= 0 && s < c < |times|
    requires StartOf(times, window, s) == s && StartOf(times, window, c) == c
    ensures times[c] - times[s] >= window
    decreases c
  {
    StartsMonotone(times, window, s, c - 1);
    var previous := StartOf(times, window, c - 1);
    StartStarts(times, window, c - 1);
    if s < previous {
      WindowsApart(times, window, s, previous);
    }
  }

  /** A request of a window comes less than a window length after the one that opened it. */
  lemma WithinWindow(times: seq<int>, window: int, i: nat)
    requires window > 0 && i < |times|
    ensures times[i] < times[StartOf(times, window, i)] + window
  {
  }

  ghost function Members(times: seq<int>, window: int, s: nat): set<nat> {
    set i: nat | i < |times| && StartOf(times, window, i) == s
  }

  predicate Reached(low: nat, i: nat) { low <= i }

  ghost function Range(low: nat, high: nat): set<nat> {
    set i: nat | i < high && Reached(low, i)
  }

  lemma {:induction false} RangeSize(low: nat, high: nat)
    requires low <= high
    ensures |Range(low, high)| == high - low
  {
    if low < high {
      RangeSize(low, high - 1);
      assert Range(low, high) == Range(low, high - 1) + {high - 1};
    }
  }

  /** A window holds consecutive requests, from the one that opened it. */
  lemma {:induction false} MembersAreConsecutive(times: seq<int>, window: int, s: nat, n: nat) returns (end: nat)
    requires s < n <= |times| && StartOf(times, window, s) == s
    ensures s < end <= n
    ensures forall i: nat :: i < n ==> (StartOf(times, window, i) == s <==> s <= i < end)
  {
    end := s + 1;
    while end < n && StartOf(times, window, end) == s
      invariant s < end <= n
      invariant forall i: nat :: s <= i < end ==> StartOf(times, window, i) == s
    {
      end := end + 1;
    }
    forall i: nat | end <= i < n ensures StartOf(times, window, i) != s {
      StartsMonotone(times, window, s, end);
      StartsMonotone(times, window, end, i);
    }
  }

  ghost function AdmittedMembers(times: seq<int>, window: int, capacity: int, s: nat): set<nat> {
    set i: nat | i < |times| && StartOf(times, window, i) == s && Admitted(times, window, capacity, i)
  }

  /** A window admits exactly the smaller of the capacity and the requests it receives. */
  lemma WindowAdmits(times: seq<int>, window: int, capacity: nat, s: nat)
    requires s < |times| && StartOf(times, window, s) == s
    ensures var received := |Members(times, window, s)|;
            |AdmittedMembers(times, window, capacity, s)| == if capacity <= received then capacity else received
  {
    var end := MembersAreConsecutive(times, window, s, |times|);
    var cut := if s + capacity <= end then s + capacity else end;
    assert Members(times, window, s) == Range(s, end);
    assert AdmittedMembers(times, window, capacity, s) == Range(s, cut);
    RangeSize(s, end);
    RangeSize(s, cut);
  }

  /** The admitted requests of one client in the half-open interval [t, t + window). */
  ghost function AdmittedWithin(times: seq<int>, window: int, capacity: int, t: int): set<nat> {
    set i: nat | i < |times| && t <= times[i] < t + window && Admitted(times, window, capacity, i)
  }

  /** The most requests admitted in an interval of one window length, by how far times may lag. */
  function Most(capacity: nat, lag: int): nat {
    if lag <= 1 || capacity <= 2 then 2 * capacity else 3 * capacity - 2
  }

  /** Where the window of a request counted in [t, t + window) can have opened. */
  lemma OpenedNear(times: seq<int>, window: int, lag: int, capacity: int, t: int, i: nat)
    requires Lags(times, lag) && window > 0 && i in AdmittedWithin(times, window, capacity, t)
    ensures var s := StartOf(times, window, i);
            && StartOf(times, window, s) == s
            && t - window < times[s] < t + window + lag
            && s <= i < s + capacity
  {
    WithinWindow(times, window, i);
    StartStarts(times, window, i);
  }

  lemma OpenedInOrder(times: seq<int>, window: int, i: nat, j: nat)
    requires window >= 0 && i <= j < |times| && StartOf(times, window, i) != StartOf(times, window, j)
    ensures StartOf(times, window, i) < StartOf(times, window, j)
    ensures times[StartOf(times, window, j)] - times[StartOf(times, window, i)] >= window
  {
    StartsMonotone(times, window, i, j);
    StartStarts(times, window, i);
    StartStarts(times, window, j);
    WindowsApart(times, window, StartOf(times, window, i), StartOf(times, window, j));
  }

  /** At most three windows can be met in an interval, and three only when times lag. */
  lemma ThreeWindows(times: seq<int>, window: int, lag: int, capacity: nat, t: int, i: nat, j: nat, k: nat)
    requires Lags(times, lag) && 0 <= lag <= window && window > 0 && i <= j <= k
    requires var s := AdmittedWithin(times, window, capacity, t); i in s && j in s && k in s
    requires StartOf(times, window, i) != StartOf(times, window, j) && StartOf(times, window, j) != StartOf(times, window, k)
    ensures lag > 1
    ensures times[StartOf(times, window, i)] < t && t + window < times[StartOf(times, window, k)]
    ensures forall m: nat :: k <= m && m in AdmittedWithin(times, window, capacity, t) ==>
              StartOf(times, window, m) == StartOf(times, window, k)
  {
    hide StartOf, Lags;
    OpenedNear(times, window, lag, capacity, t, i);
    OpenedNear(times, window, lag, capacity, t, k);
    OpenedInOrder(times, window, i, j);
    OpenedInOrder(times, window, j, k);
    forall m: nat | k <= m && m in AdmittedWithin(times, window, capacity, t)
      ensures StartOf(times, window, m) == StartOf(times, window, k)
    {
      OpenedNear(times, window, lag, capacity, t, m);
      if StartOf(times, window, m) != StartOf(times, window, k) {
        OpenedInOrder(times, window, k, m);
        assert false;
      }
    }
  }

  /** The requests counted whose windows opened at none of the given places. */
  ghost function Elsewhere(times: seq<int>, window: int, s: set<nat>, a: nat): set<nat>
    requires forall i :: i in s ==> i < |times|
  {
    set i | i in s && StartOf(times, window, i) != a
  }

  lemma InOneWindow(times: seq<int>, window: int, lag: int, capacity: nat, t: int, s: set<nat>, a: nat)
    requires Lags(times, lag) && window > 0 && a < |times|
    requires forall i :: i in s ==> i in AdmittedWithin(times, window, capacity, t) && StartOf(times, window, i) == a
    ensures |s| <= capacity
    ensures !(t <= times[a] < t + window) && s != {} ==> |s| <= capacity - 1
  {
    hide StartOf, Lags;
    forall i | i in s ensures i in Range(a, a + capacity) {
      OpenedNear(times, window, lag, capacity, t, i);
    }
    RangeSize(a, a + capacity);
    Subset(s, Range(a, a + capacity));
    if !(t <= times[a] < t + window) && s != {} {
      var i :| i in s;
      assert i in Range(a, a + capacity) && a !in s;
      RangeSize(a + 1, a + capacity);
      Subset(s, Range(a + 1, a + capacity));
    }
  }

  lemma SplitOff(times: seq<int>, window: int, s: set<nat>, a: nat)
    requires forall i :: i in s ==> i < |times|
    ensures var rest := Elsewhere(times, window, s, a);
            && rest <= s && |s| == |s - rest| + |rest|
            && (forall i :: i in s - rest ==> StartOf(times, window, i) == a)
            && (forall i :: i in rest ==> StartOf(times, window, i) != a)
  {
    hide StartOf;
    var rest := Elsewhere(times, window, s, a);
    assert s == (s - rest) + rest;
  }

  /** Any half-open interval of one window length sees at most twice the capacity admitted when times
      come in order, and at most one and a half times that, less two, when they lag by up to a window. */
  lemma SlidingBound(times: seq<int>, window: int, lag: int, capacity: nat, t: int)
    requires Lags(times, lag) && 0 <= lag <= window && window > 0
    ensures |AdmittedWithin(times, window, capacity, t)| <= Most(capacity, lag)
  {
    hide StartOf, Lags, AdmittedWithin, Elsewhere;
    var s := AdmittedWithin(times, window, capacity, t);
    InTimes(times, window, capacity, t);
    if s != {} {
      var i := Smallest(s);
      var a := StartOf(times, window, i);
      SplitOff(times, window, s, a);
      var rest := Elsewhere(times, window, s, a);
      InOneWindow(times, window, lag, capacity, t, s - rest, a);
      if rest != {} {
        var j := Smallest(rest);
        AfterFirst(times, window, lag, capacity, t, s - rest, rest, i, j);
      }
    }
  }

  /** What the requests of later windows add to those of the first. */
  lemma AfterFirst(times: seq<int>, window: int, lag: int, capacity: nat, t: int, first: set<nat>, rest: set<nat>, i: nat, j: nat)
    requires Lags(times, lag) && 0 <= lag <= window && window > 0
    requires i in first && j in rest && i <= j && j < |times| && |first| <= capacity
    requires forall m :: m in first || m in rest ==> m in AdmittedWithin(times, window, capacity, t) && m < |times|
    requires forall m :: m in first ==> StartOf(times, window, m) == StartOf(times, window, i)
    requires forall m :: m in rest ==> StartOf(times, window, m) != StartOf(times, window, i) && j <= m
    ensures |first| + |rest| <= Most(capacity, lag)
  {
    hide StartOf, Lags, AdmittedWithin, Elsewhere;
    var b := StartOf(times, window, j);
    SplitOff(times, window, rest, b);
    var last := Elsewhere(times, window, rest, b);
    InOneWindow(times, window, lag, capacity, t, rest - last, b);
    if last != {} {
      var k := Smallest(last);
      LastWindow(times, window, lag, capacity, t, first, last, i, j, k);
    }
  }

  lemma InTimes(times: seq<int>, window: int, capacity: int, t: int)
    ensures forall i :: i in AdmittedWithin(times, window, capacity, t) ==> i < |times|
  {
  }

  /** When a third window is met, the openings of the first and of the third are not. */
  lemma LastWindow(times: seq<int>, window: int, lag: int, capacity: nat, t: int, first: set<nat>, last: set<nat>,
                   i: nat, j: nat, k: nat)
    requires Lags(times, lag) && 0 <= lag <= window && window > 0 && i <= j <= k < |times|
    requires i in first && k in last && j in AdmittedWithin(times, window, capacity, t)
    requires StartOf(times, window, i) != StartOf(times, window, j) && StartOf(times, window, j) != StartOf(times, window, k)
    requires forall m :: m in first ==>
               m in AdmittedWithin(times, window, capacity, t) && StartOf(times, window, m) == StartOf(times, window, i)
    requires forall m :: m in last ==> m in AdmittedWithin(times, window, capacity, t) && k <= m
    ensures lag > 1 && |first| <= capacity - 1 && |last| <= capacity - 1
  {
    hide StartOf, Lags, AdmittedWithin;
    ThreeWindows(times, window, lag, capacity, t, i, j, k);
    InOneWindow(times, window, lag, capacity, t, first, StartOf(times, window, i));
    InOneWindow(times, window, lag, capacity, t, last, StartOf(times, window, k));
  }

  lemma Subset(small: set<nat>, big: set<nat>)
    requires small <= big
    ensures |small| <= |big|
  {
    assert big == small + (big - small);
  }

  lemma {:induction false} Smallest(s: set<nat>) returns (low: nat)
    requires s != {}
    ensures low in s && forall i :: i in s ==> low <= i
    decreases |s|
  {
    var x :| x in s;
    low := x;
    var rest := s - {x};
    if rest != {} {
      var y := Smallest(rest);
      if y < x {
        low := y;
      }
    }
    assert forall i :: i in s ==> i == x || i in rest;
  }

  // ----- from the limiter's history to one client's requests

  ghost function TimesOf(history: seq<Call>, key: string): seq<int> {
    if |history| == 0 then []
    else
      var call := history[|history| - 1];
      TimesOf(history[..|history| - 1], key) + if call.key == key then [call.now] else []
  }

  lemma {:induction false} StartOfPrefix(times: seq<int>, longer: seq<int>, window: int, i: nat)
    requires times <= longer && i < |times|
    ensures StartOf(times, window, i) == StartOf(longer, window, i)
  {
    if i > 0 {
      StartOfPrefix(times, longer, window, i - 1);
    }
  }

  lemma {:induction false} TimesStarted(history: seq<Call>, key: string)
    requires Started(history)
    ensures forall i :: 0 <= i < |TimesOf(history, key)| ==> TimesOf(history, key)[i] > ZERO_TIME
  {
    if |history| > 0 {
      TimesStarted(history[..|history| - 1], key);
    }
  }

  lemma {:induction false} TimesLag(history: seq<Call>, key: string, lag: int)
    requires Tolerable(history, lag) && lag >= 0
    ensures Started(history) && Lags(TimesOf(history, key), lag)
    ensures forall i :: 0 <= i < |TimesOf(history, key)| ==> TimesOf(history, key)[i] <= Peak(history)
  {
    if |history| > 0 {
      TimesLag(history[..|history| - 1], key, lag);
    }
  }

  lemma OneRequest(now: int, window: int)
    ensures StartOf([now], window, 0) == 0
    ensures Counted(Window(ZERO_TIME, 0), now, window) == Window(now, 1)
  {
  }

  lemma EntryStep(times: seq<int>, now: int, window: int)
    requires |times| > 0 && forall i :: 0 <= i < |times| ==> times[i] > ZERO_TIME
    ensures var s := StartOf(times, window, |times| - 1);
            var longer := times + [now];
            var next := StartOf(longer, window, |times|);
            Counted(Window(times[s], |times| - s), now, window) == Window(longer[next], |longer| - next)
  {
    StartOfPrefix(times, times + [now], window, |times| - 1);
  }

  /** The entry of a client counts the requests since its current window opened. */
  lemma {:induction false} UnevictedEntry(history: seq<Call>, window: int, key: string)
    requires Started(history)
    ensures var times := TimesOf(history, key);
            && (key in Unevicted(history, window) <==> |times| > 0)
            && (|times| > 0 ==>
                  var s := StartOf(times, window, |times| - 1);
                  Unevicted(history, window)[key] == Window(times[s], |times| - s))
  {
    hide Counted, StartOf, Started, Unevicted, TimesOf;
    if |history| > 0 {
      var n := |history| - 1;
      var before, call := history[..n], history[n];
      StartedPrefix(history);
      UnevictedEntry(before, window, key);
      LastCall(history, window, key);
      var earlier := TimesOf(before, key);
      if call.key == key && |earlier| > 0 {
        TimesStarted(before, key);
        EntryStep(earlier, call.now, window);
      } else if call.key == key {
        assert TimesOf(history, key) == [call.now];
        OneRequest(call.now, window);
      } else {
        assert TimesOf(history, key) == earlier;
      }
    } else {
      NoCalls(window, key);
    }
  }

  lemma NoCalls(window: int, key: string)
    ensures Unevicted([], window) == map[] && TimesOf([], key) == []
  {
  }

  /** What the last call adds to the clients and to the times of a key. */
  lemma LastCall(history: seq<Call>, window: int, key: string)
    requires |history| > 0
    ensures var before, call := history[..|history| - 1], history[|history| - 1];
            var all := Unevicted(before, window);
            && Unevicted(history, window) == all[call.key := Counted(Entry(all, call.key), call.now, window)]
            && TimesOf(history, key) == TimesOf(before, key) + if call.key == key then [call.now] else []
  {
    hide Counted;
  }

  /** How many calls of a client the history allowed within [t, t + window). */
  ghost function AllowedWithin(history: seq<Call>, key: string, t: int, window: int): nat {
    if |history| == 0 then 0
    else
      var call := history[|history| - 1];
      AllowedWithin(history[..|history| - 1], key, t, window)
      + if call.key == key && call.allowed && t <= call.now < t + window then 1 else 0
  }

  lemma {:induction false} AllowedAreAdmitted(history: seq<Call>, window: int, capacity: int, key: string, t: int)
    requires Started(history) && Faithful(history, window, capacity)
    ensures AllowedWithin(history, key, t, window)
         == |AdmittedWithin(TimesOf(history, key), window, capacity, t)|
  {
    hide Counted, StartOf, AdmittedWithin;
    if |history| > 0 {
      var n := |history| - 1;
      var before, call := history[..n], history[n];
      FaithfulPrefix(history, window, capacity);
      AllowedAreAdmitted(before, window, capacity, key, t);
      if call.key == key {
        LastAnswer(history, window, capacity, key);
        AdmittedStep(TimesOf(before, key), call.now, window, capacity, t);
      } else {
        assert TimesOf(history, key) == TimesOf(before, key);
      }
    } else {
      NoneAdmitted(window, capacity, t);
    }
  }

  lemma NoneAdmitted(window: int, capacity: int, t: int)
    ensures AdmittedWithin([], window, capacity, t) == {}
  {
  }

  lemma LastAnswer(history: seq<Call>, window: int, capacity: int, key: string)
    requires Started(history) && Faithful(history, window, capacity)
    requires |history| > 0 && history[|history| - 1].key == key
    ensures |TimesOf(history, key)| > 0
    ensures history[|history| - 1].allowed
       <==> Admitted(TimesOf(history, key), window, capacity, |TimesOf(history, key)| - 1)
  {
    hide Counted, StartOf;
    assert history[..|history| - 1 + 1] == history;
    UnevictedEntry(history, window, key);
  }

  lemma FaithfulPrefix(history: seq<Call>, window: int, capacity: int)
    requires |history| > 0 && Started(history) && Faithful(history, window, capacity)
    ensures Started(history[..|history| - 1]) && Faithful(history[..|history| - 1], window, capacity)
  {
    var before := history[..|history| - 1];
    forall n | 0 <= n < |before|
      ensures before[n].allowed <==> UnevictedAllows(before[..n + 1], window, capacity)
    {
      assert before[..n + 1] == history[..n + 1];
    }
  }

  lemma AdmittedStep(times: seq<int>, now: int, window: int, capacity: int, t: int)
    ensures var longer := times + [now];
            |AdmittedWithin(longer, window, capacity, t)|
            == |AdmittedWithin(times, window, capacity, t)|
               + if t <= now < t + window && Admitted(longer, window, capacity, |times|) then 1 else 0
  {
    hide StartOf;
    var longer, n := times + [now], |times|;
    var small, big := AdmittedWithin(times, window, capacity, t), AdmittedWithin(longer, window, capacity, t);
    forall i: nat | i < n ensures i in small <==> i in big {
      StartOfPrefix(times, longer, window, i);
    }
    if t <= now < t + window && Admitted(longer, window, capacity, n) {
      assert big == small + {n};
    } else {
      assert big == small;
    }
  }

  /** Whatever the other clients do and whatever is evicted, within any interval of one window length
      a client gets no more through than the bound for the lag of its calls. */
  lemma LaggingBound(history: seq<Call>, window: int, lag: int, capacity: nat, key: string, t: int)
    requires Tolerable(history, lag) && 0 <= lag <= window && window > 0
    requires Faithful(history, window, capacity)
    ensures AllowedWithin(history, key, t, window) <= Most(capacity, lag)
  {
    TimesLag(history, key, lag);
    AllowedAreAdmitted(history, window, capacity, key, t);
    SlidingBound(TimesOf(history, key), window, lag, capacity, t);
  }

  /** When calls carry their times in order, that is twice the capacity. */
  lemma NeverMoreThanTwice(history: seq<Call>, window: int, capacity: nat, key: string, t: int)
    requires Ordered(history) && Faithful(history, window, capacity) && window > 0
    ensures AllowedWithin(history, key, t, window) <= 2 * capacity
  {
    OrderedIsTolerable(history);
    LaggingBound(history, window, 0, capacity, key, t);
  }

  // ----- the bound is met

  /** The times of calls that get as many as possible into the window length after the first. */
  function BusyTime(window: int, capacity: nat, i: nat): int {
    if i == 0 then 1
    else if i < capacity then window
    else if i < 2 * capacity then window + 1
    else if i == 2 * capacity then 2 * window + 1
    else 2 * window - 1
  }

  ghost function BusyTimes(window: int, capacity: nat, n: nat): seq<int> {
    seq(n, i requires 0 <= i < n => BusyTime(window, capacity, i))
  }

  function Busy(window: int, capacity: nat, n: nat): seq<Call> {
    seq(n, i requires 0 <= i < n => Call("client", BusyTime(window, capacity, i), true))
  }

  lemma {:induction false} BusyStarts(window: int, capacity: nat, n: nat, i: nat)
    requires window >= 2 && capacity >= 1 && i < n <= 3 * capacity
    ensures StartOf(BusyTimes(window, capacity, n), window, i)
         == if i < capacity then 0 else if i < 2 * capacity then capacity else 2 * capacity
  {
    if i > 0 {
      BusyStarts(window, capacity, n, i - 1);
    }
  }

  lemma {:induction false} BusyOnes(window: int, capacity: nat, n: nat)
    requires window >= 2
    ensures TimesOf(Busy(window, capacity, n), "client") == BusyTimes(window, capacity, n)
  {
    if n > 0 {
      BusyOnes(window, capacity, n - 1);
      assert Busy(window, capacity, n)[..n - 1] == Busy(window, capacity, n - 1);
      assert BusyTimes(window, capacity, n) == BusyTimes(window, capacity, n - 1) + [BusyTime(window, capacity, n - 1)];
    }
  }

  lemma {:induction false} BusyTolerable(window: int, capacity: nat, n: nat)
    requires window >= 2
    ensures var history := Busy(window, capacity, n);
            Tolerable(history, 2) && Started(history) && Peak(history) <= 2 * window + 1
    ensures n <= 2 * capacity ==> Peak(Busy(window, capacity, n)) <= window + 1
  {
    if n > 0 {
      BusyTolerable(window, capacity, n - 1);
      assert Busy(window, capacity, n)[..n - 1] == Busy(window, capacity, n - 1);
    }
  }

  lemma BusyAllows(window: int, capacity: nat, n: nat)
    requires window >= 2 && capacity >= 1 && n < 3 * capacity
    ensures UnevictedAllows(Busy(window, capacity, n + 1), window, capacity)
  {
    hide Started, Unevicted, TimesOf, StartOf, BusyTime, Tolerable, Peak;
    BusyTolerable(window, capacity, n + 1);
    BusyOnes(window, capacity, n + 1);
    BusyStarts(window, capacity, n + 1, n);
    UnevictedEntry(Busy(window, capacity, n + 1), window, "client");
  }

  lemma BusyFaithful(window: int, capacity: nat)
    requires window >= 2 && capacity >= 1
    ensures Faithful(Busy(window, capacity, 3 * capacity), window, capacity)
  {
    hide UnevictedAllows, BusyTime;
    var history := Busy(window, capacity, 3 * capacity);
    forall n | 0 <= n < |history|
      ensures history[n].allowed <==> UnevictedAllows(history[..n + 1], window, capacity)
    {
      BusyAllows(window, capacity, n);
      assert history[..n + 1] == Busy(window, capacity, n + 1);
    }
  }

  /** No smaller bound holds: for every window of at least two ticks and every capacity, calls that lag
      by two ticks get three times the capacity, less two, through within one window length. */
  lemma LagBoundMet(window: int, capacity: nat) returns (history: seq<Call>)
    requires window >= 2 && capacity >= 1
    ensures Tolerable(history, 2) && Faithful(history, window, capacity)
    ensures AllowedWithin(history, "client", window, window) == 3 * capacity - 2
  {
    var n := 3 * capacity;
    history := Busy(window, capacity, n);
    BusyTolerable(window, capacity, n);
    BusyOnes(window, capacity, n);
    BusyFaithful(window, capacity);
    AllowedAreAdmitted(history, window, capacity, "client", window);
    BusyAdmitted(window, capacity);
  }

  lemma BusyCounts(window: int, capacity: nat, i: nat)
    requires window >= 2 && i < 3 * capacity
    ensures i in AdmittedWithin(BusyTimes(window, capacity, 3 * capacity), window, capacity, window)
       <==> i != 0 && i != 2 * capacity
  {
    BusyStarts(window, capacity, 3 * capacity, i);
    hide StartOf;
  }

  lemma BusyAdmitted(window: int, capacity: nat)
    requires window >= 2 && capacity >= 1
    ensures |AdmittedWithin(BusyTimes(window, capacity, 3 * capacity), window, capacity, window)| == 3 * capacity - 2
  {
    hide AdmittedWithin, BusyTime;
    var n := 3 * capacity;
    var times := BusyTimes(window, capacity, n);
    var counted := AdmittedWithin(times, window, capacity, window);
    var early, late := Range(1, 2 * capacity), Range(2 * capacity + 1, n);
    InTimes(times, window, capacity, window);
    forall i: nat ensures i in counted <==> i in early + late {
      if i < n {
        BusyCounts(window, capacity, i);
      }
    }
    RangeSize(1, 2 * capacity);
    RangeSize(2 * capacity + 1, n);
    assert counted == early + late;
    assert early !! late;
  }
}
