/** The collector's sliding-window rate limiter and its reading over the history of calls. */
module RateLimiter {

  const WINDOW_S := 60.0
  const PRUNE_INTERVAL_S := 60.0

  type Client = string

  datatype Limiter = Limiter(hits: map<Client, seq<real>>, lastPrune: real)

  /** A window without the hits at its front that are older than the cutoff. */
  function DropOld(w: seq<real>, cutoff: real): seq<real> {
    if w != [] && w[0] < cutoff then DropOld(w[1..], cutoff) else w
  }

  predicate Stale(w: seq<real>, cutoff: real) { w == [] || w[|w| - 1] < cutoff }

  function WithoutStale(hits: map<Client, seq<real>>, cutoff: real): map<Client, seq<real>> {
    map k | k in hits && !Stale(hits[k], cutoff) :: hits[k]
  }

  function Pruned(v: Limiter, now: real): Limiter {
    if now - v.lastPrune < PRUNE_INTERVAL_S then v else Limiter(WithoutStale(v.hits, now - WINDOW_S), now)
  }

  function Window(v: Limiter, client: Client): seq<real> {
    if client in v.hits then v.hits[client] else []
  }

  predicate Accepts(v: Limiter, perMinute: int, client: Client, now: real) {
    perMinute <= 0 || |DropOld(Window(v, client), now - WINDOW_S)| < perMinute
  }

  /** The state after a call. */
  function Called(v: Limiter, perMinute: int, client: Client, now: real): Limiter {
    if perMinute <= 0 then v
    else
      var w := DropOld(Window(v, client), now - WINDOW_S);
      v.(hits := v.hits[client := if |w| < perMinute then w + [now] else w])
  }

  class RateLimiter {
    const perMinute: int
    var hits: map<Client, seq<real>>
    var lastPrune: real

    function View(): Limiter
      reads this
    {
      Limiter(hits, lastPrune)
    }

    constructor (perMinute: int, now: real)
      ensures this.perMinute == perMinute && View() == Limiter(map[], now)
    {
      this.perMinute := perMinute;
      hits, lastPrune := map[], now;
    }

    method Allow(client: Client, now: real) returns (ok: bool)
      modifies this
      ensures
        var v := if perMinute <= 0 then old(View()) else Pruned(old(View()), now);
        ok == Accepts(v, perMinute, client, now) && View() == Called(v, perMinute, client, now)
    {
      if perMinute <= 0 { return true; }
      MaybePrune(now);
      ghost var before := Window(View(), client);
      if client !in hits { hits := hits[client := []]; }
      var window := hits[client];
      var cutoff := now - WINDOW_S;
      while window != [] && window[0] < cutoff
        invariant DropOld(window, cutoff) == DropOld(before, cutoff)
        decreases |window|
      {
        window := window[1..];
      }
      hits := hits[client := window];
      if |window| >= perMinute { return false; }
      hits := hits[client := window + [now]];
      return true;
    }

    method MaybePrune(now: real)
      modifies this
      ensures View() == Pruned(old(View()), now)
    {
      if now - lastPrune < PRUNE_INTERVAL_S { return; }
      var cutoff := now - WINDOW_S;
      var stale := StaleKeys(hits, cutoff);
      for i := 0 to |stale|
        invariant hits == old(hits) - SetOf(stale[..i])
      {
        Removed(old(hits), stale, i);
        hits := hits - {stale[i]};
      }
      assert stale[..|stale|] == stale;
      assert hits == WithoutStale(old(hits), cutoff);
      lastPrune := now;
    }
  }

  function SetOf(keys: seq<Client>): set<Client> { set k | k in keys }

  lemma {:induction false} Removed(hits: map<Client, seq<real>>, keys: seq<Client>, i: nat)
    requires i < |keys|
    ensures hits - SetOf(keys[..i + 1]) == hits - SetOf(keys[..i]) - {keys[i]}
  {
    assert keys[..i + 1] == keys[..i] + [keys[i]];
  }

  /** The keys whose window has fully expired. */
  method StaleKeys(hits: map<Client, seq<real>>, cutoff: real) returns (stale: seq<Client>)
    ensures forall k :: k in stale <==> k in hits && Stale(hits[k], cutoff)
  {
    stale := [];
    var rest := hits.Keys;
    while rest != {}
      invariant rest <= hits.Keys
      invariant forall k :: k in stale <==> k in hits && k !in rest && Stale(hits[k], cutoff)
      decreases |rest|
    {
      var k :| k in rest;
      if hits[k] == [] || hits[k][|hits[k]| - 1] < cutoff { stale := stale + [k]; }
      rest := rest - {k};
    }
  }

  // ---- Runs ----

  datatype Call = Call(client: Client, now: real)

  /** The clock never runs backwards. */
  ghost predicate Monotone(start: real, calls: seq<Call>) {
    && (forall i :: 0 <= i < |calls| ==> start <= calls[i].now)
    && (forall i, j :: 0 <= i < j < |calls| ==> calls[i].now <= calls[j].now)
  }

  /** The state after the first n calls, of a limiter that prunes or of one that never does. */
  function After(start: real, perMinute: int, calls: seq<Call>, n: nat, prunes: bool): Limiter
    requires n <= |calls|
    decreases n, 0
  {
    if n == 0 then Limiter(map[], start)
    else Called(Before(start, perMinute, calls, n - 1, prunes), perMinute, calls[n - 1].client, calls[n - 1].now)
  }

  /** The state in which the n-th call is decided. */
  function Before(start: real, perMinute: int, calls: seq<Call>, n: nat, prunes: bool): Limiter
    requires n < |calls|
    decreases n, 1
  {
    var v := After(start, perMinute, calls, n, prunes);
    if prunes && perMinute > 0 then Pruned(v, calls[n].now) else v
  }

  /** The answer to the n-th call. */
  predicate Answer(start: real, perMinute: int, calls: seq<Call>, n: nat, prunes: bool)
    requires n < |calls|
  {
    Accepts(Before(start, perMinute, calls, n, prunes), perMinute, calls[n].client, calls[n].now)
  }

  // ---- The rule, over the history alone ----

  /** How many of the times lie in a closed interval. */
  function CountIn(times: seq<real>, from: real, upto: real): nat {
    if times == [] then 0
    else
      var n := |times| - 1;
      CountIn(times[..n], from, upto) + if from <= times[n] <= upto then 1 else 0
  }

  /** The n-th call is accepted when fewer than the limit were in the last minute. */
  predicate Rule(perMinute: int, calls: seq<Call>, n: nat)
    requires n < |calls|
    decreases n, 1
  {
    var now := calls[n].now;
    perMinute <= 0 || CountIn(AcceptedTimes(perMinute, calls, calls[n].client, n), now - 60.0, now) < perMinute
  }

  /** When a client's calls among the first n were accepted. */
  function AcceptedTimes(perMinute: int, calls: seq<Call>, client: Client, n: nat): seq<real>
    requires n <= |calls|
    decreases n, 0
  {
    if n == 0 then []
    else
      var before := AcceptedTimes(perMinute, calls, client, n - 1);
      if calls[n - 1].client == client && Rule(perMinute, calls, n - 1) then before + [calls[n - 1].now] else before
  }

  // ---- The limiter follows the rule ----

  ghost predicate Sorted(times: seq<real>, upto: real) {
    && (forall i, j :: 0 <= i < j < |times| ==> times[i] <= times[j])
    && (forall i :: 0 <= i < |times| ==> times[i] <= upto)
  }

  /** The clock when the n-th call came, or when the limiter was made. */
  function Clock(start: real, calls: seq<Call>, n: nat): real
    requires n <= |calls|
  {
    if n == 0 then start else calls[n - 1].now
  }

  lemma {:induction false} DropOldSuffix(w: seq<real>, cutoff: real)
    ensures |DropOld(w, cutoff)| <= |w| && DropOld(w, cutoff) == w[|w| - |DropOld(w, cutoff)|..]
    ensures forall t :: t in DropOld(w, cutoff) ==> t in w
    decreases |w|
  {
    if w != [] && w[0] < cutoff {
      DropOldSuffix(w[1..], cutoff);
      var k := |w| - |DropOld(w, cutoff)|;
      assert w[1..][k - 1..] == w[k..];
    }
  }

  lemma {:induction false} DropOldSorted(w: seq<real>, cutoff: real, upto: real)
    requires Sorted(w, upto)
    ensures Sorted(DropOld(w, cutoff), upto)
    decreases |w|
  {
    if w != [] && w[0] < cutoff {
      DropOldSorted(w[1..], cutoff, upto);
    }
  }

  /** Dropping by an earlier cutoff first changes nothing. */
  lemma {:induction false} DropOldTwice(w: seq<real>, tail: seq<real>, early: real, late: real)
    requires early <= late
    ensures DropOld(DropOld(w, early) + tail, late) == DropOld(w + tail, late)
    decreases |w|
  {
    if w != [] && w[0] < early {
      DropOldTwice(w[1..], tail, early, late);
      assert (w + tail)[1..] == w[1..] + tail;
    }
  }

  lemma {:induction false} AllOld(w: seq<real>, cutoff: real)
    requires forall i :: 0 <= i < |w| ==> w[i] < cutoff
    ensures DropOld(w, cutoff) == []
    decreases |w|
  {
    if w != [] {
      AllOld(w[1..], cutoff);
    }
  }

  /** In a sorted window, what is left is what lies in the interval. */
  lemma {:induction false} CountIsLength(times: seq<real>, from: real, upto: real)
    requires Sorted(times, upto)
    ensures CountIn(times, from, upto) == |DropOld(times, from)|
    decreases |times|
  {
    if times != [] {
      var n := |times| - 1;
      var front, last := times[..n], times[n];
      assert times == front + [last];
      CountIsLength(front, from, upto);
      if last < from {
        assert forall i :: 0 <= i < n ==> times[i] <= times[n];
        AllOld(times, from);
        AllOld(front, from);
      } else {
        KeepsLast(front, last, from);
      }
    }
  }

  lemma {:induction false} KeepsLast(front: seq<real>, last: real, from: real)
    requires last >= from
    ensures DropOld(front + [last], from) == DropOld(front, from) + [last]
    decreases |front|
  {
    if front != [] && front[0] < from {
      assert (front + [last])[1..] == front[1..] + [last];
      KeepsLast(front[1..], last, from);
    }
  }

  /** Pruning hides no hit that a later call could see. */
  lemma {:induction false} PrunedWindow(v: Limiter, now: real, client: Client, cutoff: real, upto: real)
    requires cutoff >= now - WINDOW_S && Sorted(Window(v, client), upto)
    ensures DropOld(Window(Pruned(v, now), client), cutoff) == DropOld(Window(v, client), cutoff)
    ensures Sorted(Window(Pruned(v, now), client), upto)
  {
    var w := Window(v, client);
    if w != [] && w[|w| - 1] < now - WINDOW_S {
      assert forall i :: 0 <= i < |w| - 1 ==> w[i] <= w[|w| - 1];
      AllOld(w, cutoff);
    }
  }

  lemma {:induction false} TimesSorted(start: real, perMinute: int, calls: seq<Call>, client: Client, n: nat)
    requires Monotone(start, calls) && n <= |calls|
    ensures Sorted(AcceptedTimes(perMinute, calls, client, n), Clock(start, calls, n))
    decreases n
  {
    hide Rule;
    if n > 0 {
      TimesSorted(start, perMinute, calls, client, n - 1);
      ClockSteps(start, calls, n);
      SortedNext(AcceptedTimes(perMinute, calls, client, n - 1), Clock(start, calls, n - 1), calls[n - 1].now);
    }
  }

  lemma {:induction false} SortedNext(times: seq<real>, upto: real, now: real)
    requires Sorted(times, upto) && upto <= now
    ensures Sorted(times, now) && Sorted(times + [now], now)
  {
  }

  lemma {:induction false} WindowsSorted(
    start: real, perMinute: int, calls: seq<Call>, n: nat, prunes: bool, client: Client)
    requires Monotone(start, calls) && n <= |calls| && perMinute > 0
    ensures Sorted(Window(After(start, perMinute, calls, n, prunes), client), Clock(start, calls, n))
    decreases n
  {
    hide Sorted, DropOld, Pruned;
    if n > 0 {
      var now := calls[n - 1].now;
      WindowsSorted(start, perMinute, calls, n - 1, prunes, client);
      ClockSteps(start, calls, n);
      var w := Window(After(start, perMinute, calls, n - 1, prunes), client);
      SortedNext(w, Clock(start, calls, n - 1), now);
      PrunedWindow(After(start, perMinute, calls, n - 1, prunes), now, client, now - WINDOW_S, now);
      var b := Window(Before(start, perMinute, calls, n - 1, prunes), client);
      DropOldSorted(b, now - WINDOW_S, now);
      SortedNext(DropOld(b, now - WINDOW_S), now, now);
    } else {
      SortedNone(start);
    }
  }

  lemma {:induction false} SortedNone(upto: real)
    ensures Sorted([], upto)
  {
  }

  /** A window shows, from any cutoff that can still matter, exactly the accepted hits. */
  lemma {:induction false} Refines(
    start: real, perMinute: int, calls: seq<Call>, n: nat, prunes: bool, client: Client, cutoff: real)
    requires Monotone(start, calls) && n <= |calls| && perMinute > 0
    requires cutoff >= Clock(start, calls, n) - WINDOW_S
    ensures
      DropOld(Window(After(start, perMinute, calls, n, prunes), client), cutoff)
      == DropOld(AcceptedTimes(perMinute, calls, client, n), cutoff)
    decreases n, 0
  {
    hide Sorted, DropOld, Pruned, Accepts, Rule, Monotone;
    if n > 0 {
      var now := calls[n - 1].now;
      var times := AcceptedTimes(perMinute, calls, client, n - 1);
      ClockSteps(start, calls, n);
      BeforeRefines(start, perMinute, calls, n - 1, prunes, client, cutoff);
      if calls[n - 1].client == client {
        AnswerIsRule(start, perMinute, calls, n - 1, prunes);
        BeforeRefines(start, perMinute, calls, n - 1, prunes, client, now - WINDOW_S);
        DropOldTwice(times, [now], now - WINDOW_S, cutoff);
        DropOldTwice(times, [], now - WINDOW_S, cutoff);
        assert times + [] == times && DropOld(times, now - WINDOW_S) + [] == DropOld(times, now - WINDOW_S);
        AcceptsIs(Before(start, perMinute, calls, n - 1, prunes), perMinute, client, now);
      }
    }
  }

  lemma {:induction false} AcceptsIs(v: Limiter, perMinute: int, client: Client, now: real)
    requires perMinute > 0
    ensures Accepts(v, perMinute, client, now) == (|DropOld(Window(v, client), now - WINDOW_S)| < perMinute)
  {
  }

  lemma {:induction false} ClockSteps(start: real, calls: seq<Call>, n: nat)
    requires Monotone(start, calls) && 0 < n <= |calls|
    ensures Clock(start, calls, n - 1) <= calls[n - 1].now
  {
  }

  lemma {:induction false} BeforeRefines(
    start: real, perMinute: int, calls: seq<Call>, n: nat, prunes: bool, client: Client, cutoff: real)
    requires Monotone(start, calls) && n < |calls| && perMinute > 0 && cutoff >= calls[n].now - WINDOW_S
    ensures
      DropOld(Window(Before(start, perMinute, calls, n, prunes), client), cutoff)
      == DropOld(AcceptedTimes(perMinute, calls, client, n), cutoff)
    decreases n, 1
  {
    hide Sorted, DropOld, Pruned;
    ClockSteps(start, calls, n + 1);
    WindowsSorted(start, perMinute, calls, n, prunes, client);
    PrunedWindow(After(start, perMinute, calls, n, prunes), calls[n].now, client, cutoff, Clock(start, calls, n));
    Refines(start, perMinute, calls, n, prunes, client, cutoff);
  }

  /** The limiter accepts a call exactly when fewer than the limit were accepted in the last
      minute, whether or not it prunes. */
  lemma {:induction false} AnswerIsRule(start: real, perMinute: int, calls: seq<Call>, n: nat, prunes: bool)
    requires Monotone(start, calls) && n < |calls|
    ensures Answer(start, perMinute, calls, n, prunes) == Rule(perMinute, calls, n)
    decreases n, 2
  {
    hide DropOld, CountIn, Sorted, Pruned;
    if perMinute > 0 {
      var now, client := calls[n].now, calls[n].client;
      BeforeRefines(start, perMinute, calls, n, prunes, client, now - WINDOW_S);
      TimesSorted(start, perMinute, calls, client, n);
      ClockSteps(start, calls, n + 1);
      SortedNext(AcceptedTimes(perMinute, calls, client, n), Clock(start, calls, n), now);
      CountIsLength(AcceptedTimes(perMinute, calls, client, n), now - WINDOW_S, now);
    }
  }

  /** Pruning never changes an answer. */
  lemma {:induction false} PruningInvisible(start: real, perMinute: int, calls: seq<Call>, n: nat)
    requires Monotone(start, calls) && n < |calls|
    ensures Answer(start, perMinute, calls, n, true) == Answer(start, perMinute, calls, n, false)
  {
    AnswerIsRule(start, perMinute, calls, n, true);
    AnswerIsRule(start, perMinute, calls, n, false);
  }

  lemma {:induction false} CountInWithin(times: seq<real>, a: real, b: real, c: real, d: real)
    requires forall i :: 0 <= i < |times| && a <= times[i] <= b ==> c <= times[i] <= d
    ensures CountIn(times, a, b) <= CountIn(times, c, d)
    decreases |times|
  {
    if times != [] {
      CountInWithin(times[..|times| - 1], a, b, c, d);
    }
  }

  /** No minute, wherever it begins, holds more accepted calls of a client than the limit. */
  lemma {:induction false} NoBurst(start: real, perMinute: int, calls: seq<Call>, client: Client, n: nat, from: real)
    requires Monotone(start, calls) && n <= |calls| && perMinute > 0
    ensures CountIn(AcceptedTimes(perMinute, calls, client, n), from, from + 60.0) <= perMinute
    decreases n
  {
    hide Monotone, Sorted, Clock, CountIn, Rule;
    if n > 0 {
      NoBurst(start, perMinute, calls, client, n - 1, from);
      var before, now := AcceptedTimes(perMinute, calls, client, n - 1), calls[n - 1].now;
      CountOne(before, now, from, from + WINDOW_S);
      if calls[n - 1].client == client && Rule(perMinute, calls, n - 1) && from <= now <= from + WINDOW_S {
        RuleCounts(perMinute, calls, n - 1);
        EarlierWithin(start, perMinute, calls, client, n, from);
      }
    } else {
      CountNone([], from, from + WINDOW_S);
    }
  }

  lemma {:induction false} CountNone(times: seq<real>, from: real, upto: real)
    requires times == []
    ensures CountIn(times, from, upto) == 0
  {
  }

  lemma {:induction false} CountOne(times: seq<real>, t: real, from: real, upto: real)
    ensures CountIn(times + [t], from, upto) == CountIn(times, from, upto) + if from <= t <= upto then 1 else 0
  {
    assert (times + [t])[..|times|] == times;
  }

  lemma {:induction false} RuleCounts(perMinute: int, calls: seq<Call>, n: nat)
    requires n < |calls| && perMinute > 0 && Rule(perMinute, calls, n)
    ensures
      var now := calls[n].now;
      CountIn(AcceptedTimes(perMinute, calls, calls[n].client, n), now - WINDOW_S, now) < perMinute
  {
    hide CountIn, AcceptedTimes;
  }

  /** What was accepted before a call and lies in a minute with it was accepted in the minute
      that ends with it. */
  lemma {:induction false} EarlierWithin(
    start: real, perMinute: int, calls: seq<Call>, client: Client, n: nat, from: real)
    requires Monotone(start, calls) && 0 < n <= |calls| && from <= calls[n - 1].now <= from + WINDOW_S
    ensures
      var before, now := AcceptedTimes(perMinute, calls, client, n - 1), calls[n - 1].now;
      CountIn(before, from, from + WINDOW_S) <= CountIn(before, now - WINDOW_S, now)
  {
    hide Monotone, CountIn, AcceptedTimes;
    TimesSorted(start, perMinute, calls, client, n - 1);
    ClockSteps(start, calls, n);
    var before, now := AcceptedTimes(perMinute, calls, client, n - 1), calls[n - 1].now;
    CountInWithin(before, from, from + WINDOW_S, now - WINDOW_S, now);
  }

  // ---- What is kept ----

  /** Every window that is kept ends with its client's last accepted hit, which is not more than
      a minute older than the last pruning. */
  ghost predicate KeptRecent(perMinute: int, calls: seq<Call>, n: nat, v: Limiter)
    requires n <= |calls|
  {
    forall client :: client in v.hits ==>
      KeptWindow(v.hits[client], AcceptedTimes(perMinute, calls, client, n), v.lastPrune)
  }

  ghost predicate KeptWindow(w: seq<real>, times: seq<real>, lastPrune: real) {
    w != [] && times != [] && w[|w| - 1] == times[|times| - 1] && times[|times| - 1] >= lastPrune - 60.0
  }

  lemma {:induction false} PrunedKeepsRecent(perMinute: int, calls: seq<Call>, n: nat, v: Limiter, now: real)
    requires n <= |calls| && KeptRecent(perMinute, calls, n, v)
    ensures KeptRecent(perMinute, calls, n, Pruned(v, now))
  {
    hide AcceptedTimes;
    var p := Pruned(v, now);
    forall client | client in p.hits
      ensures KeptWindow(p.hits[client], AcceptedTimes(perMinute, calls, client, n), p.lastPrune)
    {
      assert client in v.hits && p.hits[client] == v.hits[client];
    }
  }

  /** Keys do not pile up: after any call, a client is remembered only if it had a call accepted
      within a minute before the last pruning, which was less than a minute ago. */
  lemma {:induction false} OnlyRecentClientsKept(start: real, perMinute: int, calls: seq<Call>, n: nat)
    requires Monotone(start, calls) && n <= |calls| && perMinute > 0
    ensures
      var v := After(start, perMinute, calls, n, true);
      && KeptRecent(perMinute, calls, n, v) && v.lastPrune <= Clock(start, calls, n)
      && Clock(start, calls, n) - v.lastPrune < 60.0
    decreases n
  {
    hide KeptRecent, DropOld, Rule, Accepts;
    if n == 0 {
      NoneKept(perMinute, calls, start);
    } else {
      OnlyRecentClientsKept(start, perMinute, calls, n - 1);
      var c := calls[n - 1];
      var b := Before(start, perMinute, calls, n - 1, true);
      PrunedKeepsRecent(perMinute, calls, n - 1, After(start, perMinute, calls, n - 1, true), c.now);
      AnswerIsRule(start, perMinute, calls, n - 1, true);
      ClockSteps(start, calls, n);
      CalledKeepsRecent(perMinute, calls, n, b);
    }
  }

  lemma {:induction false} NoneKept(perMinute: int, calls: seq<Call>, start: real)
    ensures KeptRecent(perMinute, calls, 0, Limiter(map[], start))
  {
  }

  lemma {:induction false} CalledKeepsRecent(perMinute: int, calls: seq<Call>, n: nat, b: Limiter)
    requires 0 < n <= |calls| && perMinute > 0 && KeptRecent(perMinute, calls, n - 1, b)
    requires b.lastPrune <= calls[n - 1].now
    requires Accepts(b, perMinute, calls[n - 1].client, calls[n - 1].now) == Rule(perMinute, calls, n - 1)
    ensures KeptRecent(perMinute, calls, n, Called(b, perMinute, calls[n - 1].client, calls[n - 1].now))
  {
    hide KeptWindow, DropOld, Rule;
    var c, v := calls[n - 1], Called(b, perMinute, calls[n - 1].client, calls[n - 1].now);
    var times := AcceptedTimes(perMinute, calls, c.client, n - 1);
    CalledWindow(Window(b, c.client), times, b.lastPrune, perMinute, c.now, c.client in b.hits);
    forall client | client in v.hits
      ensures KeptWindow(v.hits[client], AcceptedTimes(perMinute, calls, client, n), v.lastPrune)
    {
      var before := AcceptedTimes(perMinute, calls, client, n - 1);
      if client != c.client {
        assert client in b.hits && AcceptedTimes(perMinute, calls, client, n) == before;
      }
    }
  }

  lemma {:induction false} CalledWindow(
    w: seq<real>, times: seq<real>, lastPrune: real, perMinute: int, now: real, known: bool)
    requires perMinute > 0 && lastPrune <= now && (known ==> KeptWindow(w, times, lastPrune)) && (!known ==> w == [])
    ensures
      var kept := DropOld(w, now - WINDOW_S);
      if |kept| < perMinute then KeptWindow(kept + [now], times + [now], lastPrune)
      else KeptWindow(kept, times, lastPrune)
  {
    hide DropOld;
    DropOldSuffix(w, now - WINDOW_S);
    var kept := DropOld(w, now - WINDOW_S);
    if |kept| >= perMinute {
      assert w[|w| - |kept|..][|kept| - 1] == w[|w| - 1];
    }
  }
}
