/** The relay's fixed-window rate limiter (relay-server/main.go allowRateLimitedAction and the first half
    of cleanupExpiredRooms). Times are nanoseconds of a clock that never goes back. */
module RateLimiter {

  const MINUTE: int := 60_000_000_000

  datatype Window = Window(start: int, count: int)

  type Windows = map<string, Window>

  datatype Decision = Decision(allowed: bool, windows: Windows)

  function Allow(windows: Windows, limit: int, ip: string, now: int): Decision {
    if limit <= 0 then Decision(true, windows)
    else if ip !in windows || now - windows[ip].start >= MINUTE then Decision(true, windows[ip := Window(now, 1)])
    else if windows[ip].count >= limit then Decision(false, windows)
    else Decision(true, windows[ip := Window(windows[ip].start, windows[ip].count + 1)])
  }

  function Cleanup(windows: Windows, now: int): Windows {
    map ip | ip in windows && now - windows[ip].start < 2 * MINUTE :: windows[ip]
  }

  class Limiter {
    const rateLimit: int
    var rateLimits: Windows

    constructor (rateLimit: int)
      ensures this.rateLimit == rateLimit && rateLimits == map[]
    {
      this.rateLimit := rateLimit;
      rateLimits := map[];
    }

    method AllowRateLimitedAction(ip: string, now: int) returns (allowed: bool)
      modifies this
      ensures Decision(allowed, rateLimits) == Allow(old(rateLimits), rateLimit, ip, now)
    {
      if rateLimit <= 0 {
        return true;
      }
      if ip !in rateLimits || now - rateLimits[ip].start >= MINUTE {
        rateLimits := rateLimits[ip := Window(now, 1)];
        return true;
      }
      var window := rateLimits[ip];
      if window.count >= rateLimit {
        return false;
      }
      rateLimits := rateLimits[ip := window.(count := window.count + 1)];
      return true;
    }

    method CleanupRateLimits(now: int)
      modifies this
      ensures rateLimits == Cleanup(old(rateLimits), now)
    {
      var pending := rateLimits.Keys;
      while pending != {}
        invariant pending <= old(rateLimits).Keys
        invariant rateLimits.Keys <= old(rateLimits).Keys
        invariant forall ip :: ip in old(rateLimits) ==>
                  (ip in rateLimits <==> ip in pending || now - old(rateLimits)[ip].start < 2 * MINUTE)
        invariant forall ip :: ip in rateLimits ==> rateLimits[ip] == old(rateLimits)[ip]
        invariant pending <= rateLimits.Keys
        decreases pending
      {
        var ip :| ip in pending;
        if now - rateLimits[ip].start >= 2 * MINUTE {
          rateLimits := rateLimits - {ip};
        }
        pending := pending - {ip};
      }
    }
  }

  /** What happens to a limiter: an address asks, or the cleanup runs. */
  datatype Event = Asks(ip: string, now: int) | Cleans(now: int)

  function After(windows: Windows, limit: int, event: Event): Windows {
    match event
    case Asks(ip, now) => Allow(windows, limit, ip, now).windows
    case Cleans(now) => Cleanup(windows, now)
  }

  /** The clock never goes back. */
  predicate InOrder(now: int, events: seq<Event>)
    decreases |events|
  {
    events == [] || (now <= events[0].now && InOrder(events[0].now, events[1..]))
  }

  /** The answers given over a run. */
  function Answers(windows: Windows, limit: int, events: seq<Event>): seq<bool>
    decreases |events|
  {
    if events == [] then []
    else
      (if events[0].Asks? then [Allow(windows, limit, events[0].ip, events[0].now).allowed] else [])
      + Answers(After(windows, limit, events[0]), limit, events[1..])
  }

  /** The same limiter without cleanup. */
  function AnswersOfUnforgetting(windows: Windows, limit: int, events: seq<Event>): seq<bool>
    decreases |events|
  {
    if events == [] then []
    else if events[0].Cleans? then AnswersOfUnforgetting(windows, limit, events[1..])
    else
      [Allow(windows, limit, events[0].ip, events[0].now).allowed]
      + AnswersOfUnforgetting(After(windows, limit, events[0]), limit, events[1..])
  }

  /** `kept` is `all` without some windows that are over. */
  predicate Forgot(kept: Windows, all: Windows, now: int) {
    && (forall ip :: ip in kept ==> ip in all && kept[ip] == all[ip])
    && (forall ip :: ip in all && ip !in kept ==> now - all[ip].start >= MINUTE)
  }

  lemma {:induction false} ForgettingGivesSameAnswers(kept: Windows, all: Windows, limit: int, now: int, events: seq<Event>)
    requires Forgot(kept, all, now) && InOrder(now, events)
    ensures Answers(kept, limit, events) == AnswersOfUnforgetting(all, limit, events)
    decreases |events|
  {
    if events != [] {
      var event := events[0];
      var all' := if event.Cleans? then all else After(all, limit, event);
      ForgettingGivesSameAnswers(After(kept, limit, event), all', limit, event.now, events[1..]);
    }
  }

  /** Deleting windows two minutes old never changes an answer, over any run from the start. */
  lemma CleanupIsInvisible(limit: int, now: int, events: seq<Event>)
    requires InOrder(now, events)
    ensures Answers(map[], limit, events) == AnswersOfUnforgetting(map[], limit, events)
  {
    ForgettingGivesSameAnswers(map[], map[], limit, now, events);
  }

  /** Allowed actions of `ip` at times from `t` up to, but not including, `t + MINUTE`. */
  function AllowedWithin(windows: Windows, limit: int, events: seq<Event>, ip: string, t: int): nat
    decreases |events|
  {
    if events == [] then 0
    else
      var event := events[0];
      (if event.Asks? && event.ip == ip && t <= event.now < t + MINUTE
          && Allow(windows, limit, event.ip, event.now).allowed then 1 else 0)
      + AllowedWithin(After(windows, limit, event), limit, events[1..], ip, t)
  }

  /** How many more actions of an address the interval from `t` can still see at time `now`. */
  function StillPossible(windows: Windows, limit: int, ip: string, t: int, now: int): int {
    if now >= t + MINUTE then 0
    else if now < t then 2 * limit - 1
    else if ip !in windows then limit
    else if windows[ip].start < t then 2 * limit - windows[ip].count
    else limit - windows[ip].count
  }

  predicate Counts(windows: Windows, limit: int, now: int) {
    forall ip :: ip in windows ==> windows[ip].start <= now && 1 <= windows[ip].count <= limit
  }

  lemma {:induction false} AllowedIsBounded(windows: Windows, limit: int, events: seq<Event>, ip: string, t: int, now: int)
    requires limit > 0 && Counts(windows, limit, now) && InOrder(now, events)
    ensures AllowedWithin(windows, limit, events, ip, t) <= StillPossible(windows, limit, ip, t, now)
    decreases |events|
  {
    if events != [] {
      AllowedIsBounded(After(windows, limit, events[0]), limit, events[1..], ip, t, events[0].now);
    }
  }

  /** Over every run of the limiter with a positive limit, no interval of a minute contains more than
      twice the limit, less one, allowed actions of an address: the first action of a window is at its
      very start, so an interval that reaches into the next window has missed it. */
  lemma AtMostTwiceLessOne(limit: int, now: int, events: seq<Event>, ip: string, t: int)
    requires limit > 0 && InOrder(now, events)
    ensures AllowedWithin(map[], limit, events, ip, t) <= 2 * limit - 1
  {
    AllowedIsBounded(map[], limit, events, ip, t, now);
  }

  function Times(n: nat, event: Event): seq<Event> {
    if n == 0 then [] else [event] + Times(n - 1, event)
  }

  /** Requests inside an open window with room for all of them are all allowed. */
  lemma {:induction false} RoomForAll(limit: int, window: Window, n: nat, ip: string, now: int, t: int, later: seq<Event>)
    requires limit > 0 && 0 <= now - window.start < MINUTE && window.count + n <= limit
    requires t <= now < t + MINUTE && InOrder(now, later)
    ensures var events := Times(n, Asks(ip, now)) + later;
            && InOrder(now, events)
            && AllowedWithin(map[ip := window], limit, events, ip, t)
               == n + AllowedWithin(map[ip := Window(window.start, window.count + n)], limit, later, ip, t)
    decreases n
  {
    if n == 0 {
      assert [] + later == later;
    } else {
      var next := Window(window.start, window.count + 1);
      var asks, rest := Asks(ip, now), Times(n - 1, Asks(ip, now)) + later;
      RoomForAll(limit, next, n - 1, ip, now, t, later);
      assert Times(n, asks) + later == [asks] + rest;
      assert ([asks] + rest)[1..] == rest;
      assert map[ip := window][ip := next] == map[ip := next];
      assert Allow(map[ip := window], limit, ip, now) == Decision(true, map[ip := next]);
    }
  }

  /** One request that opens a window, followed by others. */
  lemma OpensWindow(windows: Windows, limit: int, ip: string, now: int, t: int, later: seq<Event>)
    requires limit > 0 && windows.Keys <= {ip}
    requires ip in windows ==> now - windows[ip].start >= MINUTE
    ensures AllowedWithin(windows, limit, [Asks(ip, now)] + later, ip, t)
         == (if t <= now < t + MINUTE then 1 else 0) + AllowedWithin(map[ip := Window(now, 1)], limit, later, ip, t)
  {
    assert ([Asks(ip, now)] + later)[1..] == later;
    assert windows[ip := Window(now, 1)] == map[ip := Window(now, 1)];
  }

  /** The bound is reached for every positive limit: one request at time 0, all the others of its window
      in its last nanosecond, and a full window right after. */
  lemma BoundIsReached(limit: int, ip: string)
    requires limit > 0
    ensures exists events: seq<Event>, t: int :: Reaches(limit, ip, events, t)
  {
    hide AllowedWithin, Times;
    var t := MINUTE - 1;
    var last := Times(limit - 1, Asks(ip, MINUTE));
    RoomForAll(limit, Window(MINUTE, 1), limit - 1, ip, MINUTE, t, []);
    assert last + [] == last;
    NothingAllowed(map[ip := Window(MINUTE, limit)], limit, ip, t);
    var second := [Asks(ip, MINUTE)] + last;
    assert second[1..] == last;
    OpensWindow(map[ip := Window(0, limit)], limit, ip, MINUTE, t, last);
    RoomForAll(limit, Window(0, 1), limit - 1, ip, t, t, second);
    var middle := Times(limit - 1, Asks(ip, t)) + second;
    var events := [Asks(ip, 0)] + middle;
    assert events[1..] == middle;
    OpensWindow(map[], limit, ip, 0, t, middle);
    EarlierOrder(0, t, middle);
    assert Reaches(limit, ip, events, t);
  }

  lemma NothingAllowed(windows: Windows, limit: int, ip: string, t: int)
    ensures AllowedWithin(windows, limit, [], ip, t) == 0
  {
  }

  lemma EarlierOrder(earlier: int, now: int, events: seq<Event>)
    requires earlier <= now && InOrder(now, events)
    ensures InOrder(earlier, events)
  {
  }

  predicate Reaches(limit: int, ip: string, events: seq<Event>, t: int) {
    InOrder(0, events) && AllowedWithin(map[], limit, events, ip, t) == 2 * limit - 1
  }

  // ---- No address is refused without cause, and none is forgotten too early ----

  function WindowsAfter(windows: Windows, limit: int, events: seq<Event>): Windows
    decreases |events|
  {
    if events == [] then windows else WindowsAfter(After(windows, limit, events[0]), limit, events[1..])
  }

  /** The run comes to no later time. */
  predicate Until(events: seq<Event>, now: int) {
    forall i :: 0 <= i < |events| ==> events[i].now <= now
  }

  /** What the table holds against an address of the time from `t` on. */
  function Held(windows: Windows, ip: string, t: int): int {
    if ip in windows && windows[ip].start >= t then windows[ip].count else 0
  }

  lemma {:induction false} HeldIsAllowed(windows: Windows, limit: int, events: seq<Event>, ip: string, t: int, now: int)
    requires limit > 0 && Counts(windows, limit, now) && InOrder(now, events) && Until(events, t + MINUTE - 1)
    ensures Held(WindowsAfter(windows, limit, events), ip, t)
         <= Held(windows, ip, t) + AllowedWithin(windows, limit, events, ip, t)
    decreases |events|
  {
    if events != [] {
      HeldIsAllowed(After(windows, limit, events[0]), limit, events[1..], ip, t, events[0].now);
    }
  }

  /** Over every run of the limiter with a positive limit, an action is refused only if at least that many
      actions of its address were allowed in the minute that ends with it. */
  lemma RefusedForCause(limit: int, start: int, events: seq<Event>, ip: string, now: int)
    requires limit > 0 && InOrder(start, events) && Until(events, now)
    requires !Allow(WindowsAfter(map[], limit, events), limit, ip, now).allowed
    ensures AllowedWithin(map[], limit, events, ip, now - MINUTE + 1) >= limit
  {
    HeldIsAllowed(map[], limit, events, ip, now - MINUTE + 1, start);
  }

  /** So an address is let in again after a minute without an allowed action, however often it was refused
      in that minute. */
  lemma LetInAgain(limit: int, start: int, events: seq<Event>, ip: string, now: int)
    requires limit > 0 && InOrder(start, events) && Until(events, now)
    requires AllowedWithin(map[], limit, events, ip, now - MINUTE + 1) == 0
    ensures Allow(WindowsAfter(map[], limit, events), limit, ip, now).allowed
  {
    if !Allow(WindowsAfter(map[], limit, events), limit, ip, now).allowed {
      RefusedForCause(limit, start, events, ip, now);
    }
  }

  lemma {:induction false} RecentIsKept(windows: Windows, limit: int, events: seq<Event>, ip: string, t: int, now: int)
    requires limit > 0 && Counts(windows, limit, now) && InOrder(now, events) && Until(events, t + MINUTE - 1)
    ensures var end := WindowsAfter(windows, limit, events);
            AllowedWithin(windows, limit, events, ip, t) > 0 || (ip in windows && windows[ip].start > t - MINUTE && now >= t) ==>
              ip in end && end[ip].start > t - MINUTE
    decreases |events|
  {
    if events != [] {
      RecentIsKept(After(windows, limit, events[0]), limit, events[1..], ip, t, events[0].now);
    }
  }

  lemma {:induction false} StartWasAllowed(windows: Windows, limit: int, events: seq<Event>, ip: string, now: int)
    requires limit > 0 && InOrder(now, events)
    ensures var end := WindowsAfter(windows, limit, events);
            ip in end ==>
              || (ip in windows && windows[ip].start == end[ip].start)
              || (now <= end[ip].start && AllowedWithin(windows, limit, events, ip, end[ip].start) > 0)
    decreases |events|
  {
    if events != [] {
      StartWasAllowed(After(windows, limit, events[0]), limit, events[1..], ip, events[0].now);
    }
  }

  /** After a cleanup the table lists every address that was allowed an action in the last minute, and none
      that was not allowed one in the last two. */
  lemma CleanupKeepsRecent(limit: int, start: int, events: seq<Event>, ip: string, now: int)
    requires limit > 0 && InOrder(start, events) && Until(events, now)
    ensures var table := Cleanup(WindowsAfter(map[], limit, events), now);
            && (AllowedWithin(map[], limit, events, ip, now - MINUTE + 1) > 0 ==> ip in table)
            && (ip in table ==> exists t :: now - 2 * MINUTE < t <= now && AllowedWithin(map[], limit, events, ip, t) > 0)
  {
    hide AllowedWithin, WindowsAfter, InOrder;
    RecentIsKept(map[], limit, events, ip, now - MINUTE + 1, start);
    StartWasAllowed(map[], limit, events, ip, start);
    StartsAreOver(map[], limit, events, ip, now);
  }

  lemma {:induction false} StartsAreOver(windows: Windows, limit: int, events: seq<Event>, ip: string, now: int)
    requires Until(events, now) && (ip in windows ==> windows[ip].start <= now)
    ensures var end := WindowsAfter(windows, limit, events); ip in end ==> end[ip].start <= now
    decreases |events|
  {
    if events != [] {
      StartsAreOver(After(windows, limit, events[0]), limit, events[1..], ip, now);
    }
  }

  /** Without a positive limit every action is allowed. */
  lemma {:induction false} NoLimitRefusesNothing(windows: Windows, limit: int, events: seq<Event>)
    requires limit <= 0
    ensures forall i :: 0 <= i < |Answers(windows, limit, events)| ==> Answers(windows, limit, events)[i]
    decreases |events|
  {
    if events != [] {
      NoLimitRefusesNothing(After(windows, limit, events[0]), limit, events[1..]);
    }
  }
}
