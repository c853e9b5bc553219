/** The limit on e-mails to one recipient: a map of recent sends that is pruned now and then, against a
    log that keeps every send. */
module EmailWindow {
  import opened JsString

  const MAX_EMAILS: nat := 5
  const WINDOW: int := 10 * 60 * 1000
  const MAP_LIMIT: nat := 5000

  function Normalised(to: string): string {
    Lowered(Trim(to))
  }

  datatype Send = Send(to: string, at: int)

  // ---- the log ----

  /** The times of the sends to one recipient since `from`. */
  function Since(log: seq<Send>, to: string, from: int): (times: seq<int>)
    ensures |times| <= |log| && forall t <- times :: t >= from
    decreases |log|
  {
    if log == [] then []
    else
      var last := log[|log| - 1];
      Since(log[..|log| - 1], to, from) + if last.to == to && last.at >= from then [last.at] else []
  }

  /** What is sent is decided by the last ten minutes of the log. */
  predicate Allowed(log: seq<Send>, to: string, now: int) {
    |Since(log, to, now - WINDOW + 1)| < MAX_EMAILS
  }

  function Sent(log: seq<Send>, to: string, now: int): seq<Send> {
    if Allowed(log, to, now) then log + [Send(to, now)] else log
  }

  /** The log after some requests. */
  function LogOf(requests: seq<Send>): seq<Send>
    decreases |requests|
  {
    if requests == [] then []
    else
      var last := requests[|requests| - 1];
      Sent(LogOf(requests[..|requests| - 1]), last.to, last.at)
  }

  ghost predicate Rising(s: seq<Send>) {
    forall i, j | 0 <= i < j < |s| :: s[i].at <= s[j].at
  }

  /** The sends to one recipient in the half-open window that starts at `from`. */
  function InWindow(log: seq<Send>, to: string, from: int): nat
    decreases |log|
  {
    if log == [] then 0
    else
      var last := log[|log| - 1];
      InWindow(log[..|log| - 1], to, from) + if last.to == to && from <= last.at < from + WINDOW then 1 else 0
  }

  lemma {:induction false} WindowIsRecent(log: seq<Send>, to: string, from: int, since: int)
    requires since <= from
    ensures InWindow(log, to, from) <= |Since(log, to, since)|
    decreases |log|
  {
    if log != [] { WindowIsRecent(log[..|log| - 1], to, from, since); }
  }

  lemma {:induction false} LogIsLater(requests: seq<Send>)
    requires Rising(requests)
    ensures Rising(LogOf(requests))
    ensures forall s <- LogOf(requests) :: s in requests
    decreases |requests|
  {
    if requests != [] {
      var before, last := requests[..|requests| - 1], requests[|requests| - 1];
      LogIsLater(before);
      forall s <- LogOf(before) ensures s in requests && s.at <= last.at {
        var i :| 0 <= i < |before| && before[i] == s;
        assert requests[i] == s;
      }
    }
  }

  /** In every run, no window of ten minutes holds more than five sends to one recipient. */
  lemma {:induction false} WindowHoldsFive(requests: seq<Send>, to: string, from: int)
    requires Rising(requests)
    ensures InWindow(LogOf(requests), to, from) <= MAX_EMAILS
    decreases |requests|
  {
    if requests != [] {
      var before, last := requests[..|requests| - 1], requests[|requests| - 1];
      WindowHoldsFive(before, to, from);
      var log := LogOf(before);
      if Allowed(log, last.to, last.at) {
        assert LogOf(requests)[..|log|] == log;
        if last.to == to && from <= last.at < from + WINDOW {
          WindowIsRecent(log, to, from, last.at - WINDOW + 1);
        }
      }
    }
  }

  lemma {:induction false} RecentIsWindow(log: seq<Send>, to: string, from: int)
    requires forall s <- log :: s.at < from + WINDOW
    ensures InWindow(log, to, from) == |Since(log, to, from)|
    decreases |log|
  {
    if log != [] {
      assert log[|log| - 1] in log;
      RecentIsWindow(log[..|log| - 1], to, from);
    }
  }

  /** An e-mail is held back exactly when five went to its recipient in the ten minutes up to it. */
  lemma HeldBackIff(requests: seq<Send>, to: string, now: int)
    requires Rising(requests + [Send(to, now)])
    ensures !Allowed(LogOf(requests), to, now) <==> InWindow(LogOf(requests), to, now - WINDOW + 1) == MAX_EMAILS
  {
    RisingPrefix(requests, Send(to, now));
    LogIsBefore(requests, to, now);
    hide Rising;
    RecentIsWindow(LogOf(requests), to, now - WINDOW + 1);
    WindowHoldsFive(requests, to, now - WINDOW + 1);
  }

  lemma RisingPrefix(s: seq<Send>, last: Send)
    requires Rising(s + [last])
    ensures Rising(s) && forall x <- s :: x.at <= last.at
  {
    var all := s + [last];
    assert forall i | 0 <= i < |s| :: s[i] == all[i];
    forall x <- s ensures x.at <= last.at {
      var i :| 0 <= i < |s| && s[i] == x;
      assert all[i].at <= all[|s|].at;
    }
  }

  lemma LogIsBefore(requests: seq<Send>, to: string, now: int)
    requires Rising(requests) && forall x <- requests :: x.at <= now
    ensures forall x <- LogOf(requests) :: x.at <= now
  {
    LogIsLater(requests);
    hide Rising;
  }

  // ---- the limiter ----

  /** What a list of times leaves for a decision at `now`. */
  function Active(times: seq<int>, now: int): seq<int> {
    if times == [] then []
    else (if now - times[0] < WINDOW then [times[0]] else []) + Active(times[1..], now)
  }

  lemma {:induction false} ActiveJoins(a: seq<int>, b: seq<int>, now: int)
    ensures Active(a + b, now) == Active(a, now) + Active(b, now)
  {
    if a == [] { assert a + b == b; }
    else {
      assert (a + b)[1..] == a[1..] + b;
      ActiveJoins(a[1..], b, now);
    }
  }

  /** What is not active now is not active later. */
  lemma {:induction false} ActiveLater(times: seq<int>, now: int, later: int)
    requires now <= later
    ensures Active(Active(times, now), later) == Active(times, later)
  {
    if times != [] {
      ActiveLater(times[1..], now, later);
      ActiveJoins(if now - times[0] < WINDOW then [times[0]] else [], Active(times[1..], now), later);
    }
  }

  /** From `clock` on, a list and the log give the same recent sends. */
  ghost predicate Agrees(times: seq<int>, log: seq<Send>, to: string, clock: int) {
    forall now | clock <= now :: Active(times, now) == Since(log, to, now - WINDOW + 1)
  }

  lemma AgreesPruned(times: seq<int>, log: seq<Send>, to: string, now: int)
    requires Agrees(times, log, to, now)
    ensures Agrees(Active(times, now), log, to, now)
  {
    forall later | now <= later ensures Active(Active(times, now), later) == Since(log, to, later - WINDOW + 1) {
      ActiveLater(times, now, later);
    }
  }

  lemma AgreesSent(times: seq<int>, log: seq<Send>, to: string, now: int)
    requires Agrees(times, log, to, now)
    ensures Agrees(times + [now], log + [Send(to, now)], to, now)
  {
    var more := log + [Send(to, now)];
    assert more[..|log|] == log;
    forall later | now <= later ensures Active(times + [now], later) == Since(more, to, later - WINDOW + 1) {
      ActiveJoins(times, [now], later);
    }
  }

  lemma AgreesOther(times: seq<int>, log: seq<Send>, to: string, other: string, now: int)
    requires other != to && Agrees(times, log, other, now)
    ensures Agrees(times, log + [Send(to, now)], other, now)
  {
    var more := log + [Send(to, now)];
    assert more[..|log|] == log;
  }

  lemma AgreesFrom(times: seq<int>, log: seq<Send>, to: string, clock: int, now: int)
    requires Agrees(times, log, to, clock) && clock <= now
    ensures Agrees(times, log, to, now)
  {
  }

  function StampsOf(stamps: map<string, seq<int>>, to: string): seq<int> {
    if to in stamps then stamps[to] else []
  }

  ghost predicate MapAgrees(stamps: map<string, seq<int>>, log: seq<Send>, clock: int) {
    forall to :: Agrees(StampsOf(stamps, to), log, to, clock)
  }

  lemma MapLater(stamps: map<string, seq<int>>, log: seq<Send>, clock: int, now: int)
    requires MapAgrees(stamps, log, clock) && clock <= now
    ensures MapAgrees(stamps, log, now)
  {
    forall to ensures Agrees(StampsOf(stamps, to), log, to, now) {
      AgreesFrom(StampsOf(stamps, to), log, to, clock, now);
    }
  }

  lemma MapSent(stamps: map<string, seq<int>>, log: seq<Send>, to: string, now: int)
    requires MapAgrees(stamps, log, now)
    ensures MapAgrees(stamps[to := Active(StampsOf(stamps, to), now) + [now]], log + [Send(to, now)], now)
  {
    var after := stamps[to := Active(StampsOf(stamps, to), now) + [now]];
    forall other ensures Agrees(StampsOf(after, other), log + [Send(to, now)], other, now) {
      if other == to {
        AgreesPruned(StampsOf(stamps, to), log, to, now);
        AgreesSent(Active(StampsOf(stamps, to), now), log, to, now);
      } else {
        AgreesOther(StampsOf(stamps, other), log, to, other, now);
        assert StampsOf(after, other) == StampsOf(stamps, other);
      }
    }
  }

  lemma MapPruned(stamps: map<string, seq<int>>, log: seq<Send>, key: string, now: int)
    requires MapAgrees(stamps, log, now) && key in stamps
    ensures MapAgrees(PrunedAt(stamps, key, now), log, now)
  {
    var after := PrunedAt(stamps, key, now);
    forall to ensures Agrees(StampsOf(after, to), log, to, now) {
      AgreesPruned(StampsOf(stamps, key), log, key, now);
      assert StampsOf(after, to) == if to == key then Active(stamps[key], now) else StampsOf(stamps, to);
    }
  }

  function PrunedAt(stamps: map<string, seq<int>>, key: string, now: int): map<string, seq<int>>
    requires key in stamps
  {
    var active := Active(stamps[key], now);
    if active == [] then stamps - {key} else stamps[key := active]
  }

  class EmailLimiter {
    var stamps: map<string, seq<int>>
    ghost var log: seq<Send>
    ghost var clock: int

    /** From now on, the map and the log give the same recent sends. */
    ghost predicate Valid()
      reads this
    {
      MapAgrees(stamps, log, clock)
    }

    constructor (start: int)
      ensures Valid() && log == [] && clock == start
    {
      stamps := map[];
      log := [];
      clock := start;
    }

    /** A send is decided as the log decides it, whatever has been pruned. */
    method DeliverMail(recipient: string, now: int) returns (sent: bool)
      requires Valid() && clock <= now
      modifies this
      ensures Valid() && clock == now
      ensures sent == Allowed(old(log), Normalised(recipient), now)
      ensures log == Sent(old(log), Normalised(recipient), now)
    {
      var to := Normalised(recipient);
      var timestamps := Active(StampsOf(stamps, to), now);
      assert Agrees(StampsOf(stamps, to), log, to, clock);
      assert |timestamps| < MAX_EMAILS <==> Allowed(log, to, now);
      MapLater(stamps, log, clock, now);
      clock := now;
      if |timestamps| >= MAX_EMAILS {
        return false;
      }
      MapSent(stamps, log, to, now);
      timestamps := timestamps + [now];
      stamps := stamps[to := timestamps];
      log := log + [Send(to, now)];
      if |stamps| > MAP_LIMIT {
        Prune(now);
      }
      sent := true;
    }

    /** Lists with nothing active go, the others keep what is active; no later decision changes. */
    method Prune(now: int)
      requires Valid() && clock == now
      modifies this`stamps
      ensures Valid()
      ensures forall to :: StampsOf(stamps, to) == Active(StampsOf(old(stamps), to), now)
    {
      hide Active, MapAgrees;
      var keys := stamps.Keys;
      PrunedAtStart(stamps, now);
      while keys != {}
        invariant Valid() && keys <= stamps.Keys
        invariant PrunedBut(old(stamps), stamps, keys, now)
        decreases |keys|
      {
        var key :| key in keys;
        MapPruned(stamps, log, key, now);
        PrunedNext(old(stamps), stamps, keys, key, now);
        keys := keys - {key};
        var active := Active(stamps[key], now);
        if active == [] {
          stamps := stamps - {key};
        } else {
          stamps := stamps[key := active];
        }
      }
    }
  }

  /** Every list is cut to what is active, but those still to come. */
  ghost predicate PrunedBut(was: map<string, seq<int>>, stamps: map<string, seq<int>>, keys: set<string>, now: int) {
    forall to :: StampsOf(stamps, to) == if to in keys then StampsOf(was, to) else Active(StampsOf(was, to), now)
  }

  lemma PrunedAtStart(stamps: map<string, seq<int>>, now: int)
    ensures PrunedBut(stamps, stamps, stamps.Keys, now)
  {
  }

  lemma PrunedNext(was: map<string, seq<int>>, stamps: map<string, seq<int>>, keys: set<string>, key: string, now: int)
    requires PrunedBut(was, stamps, keys, now) && key in keys && key in stamps
    ensures PrunedBut(was, PrunedAt(stamps, key, now), keys - {key}, now)
  {
    var after := PrunedAt(stamps, key, now);
    forall to ensures StampsOf(after, to) ==
        (if to in keys - {key} then StampsOf(was, to) else Active(StampsOf(was, to), now)) {
      assert StampsOf(after, to) == if to == key then Active(stamps[key], now) else StampsOf(stamps, to);
    }
  }
}
