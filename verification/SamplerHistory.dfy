/** A stripe is a function of its call history: it holds the most recently used distinct
    fingerprints, each with the state its hits since it was last inserted give. */
module SamplerHistory {
  import opened Sequences
  import opened Sampler

  datatype Call = Call(fp: Fingerprint, t: int)

  /** A stripe after a sequence of calls. */
  function RunStripe(cap: nat, calls: seq<Call>): StripeView {
    if calls == [] then StripeView(map[], [])
    else Decided(RunStripe(cap, Init(calls)), cap, Last(calls).fp, Last(calls).t)
  }

  // ---- The history ----

  /** The last call for a fingerprint, or -1. */
  function LastUse(calls: seq<Call>, fp: Fingerprint): int {
    if calls == [] then -1
    else if Last(calls).fp == fp then |calls| - 1
    else LastUse(Init(calls), fp)
  }

  /** The distinct fingerprints called, most recent first. */
  function Recency(calls: seq<Call>): seq<Fingerprint> {
    if calls == [] then [] else [Last(calls).fp] + Without(Recency(Init(calls)), Last(calls).fp)
  }

  /** The stamps of the hits of a fingerprint since it was last inserted. */
  function Stamps(cap: nat, calls: seq<Call>, fp: Fingerprint): seq<int> {
    if calls == [] then []
    else
      var before, c := Init(calls), Last(calls);
      if c.fp != fp then Stamps(cap, before, fp)
      else if fp in Take(cap, Recency(before)) then Stamps(cap, before, fp) + [c.t]
      else [c.t]
  }

  /** A fingerprint's state after hits at the given times. */
  function StateAfter(ts: seq<int>): (st: FpState)
    ensures st.total == |ts|
  {
    if ts == [] then FRESH else Hit(StateAfter(Init(ts)), Last(ts))
  }

  // ---- Recency is what it says ----

  lemma {:induction false} WithoutOrder(fps: seq<Fingerprint>, fp: Fingerprint, i: nat, j: nat)
    requires NoDuplicates(fps) && i < j < |Without(fps, fp)|
    ensures
      exists i', j' :: 0 <= i' < j' < |fps| && fps[i'] == Without(fps, fp)[i] && fps[j'] == Without(fps, fp)[j]
    decreases |fps|
  {
    if fps[0] == fp {
      WithoutOrder(fps[1..], fp, i, j);
      var i', j' :|
        0 <= i' < j' < |fps[1..]| && fps[1..][i'] == Without(fps, fp)[i] && fps[1..][j'] == Without(fps, fp)[j];
      assert fps[i' + 1] == fps[1..][i'] && fps[j' + 1] == fps[1..][j'];
    } else if i > 0 {
      WithoutOrder(fps[1..], fp, i - 1, j - 1);
      var i', j' :|
        0 <= i' < j' < |fps[1..]| && fps[1..][i'] == Without(fps, fp)[i] && fps[1..][j'] == Without(fps, fp)[j];
      assert fps[i' + 1] == fps[1..][i'] && fps[j' + 1] == fps[1..][j'];
    } else {
      var x := Without(fps, fp)[j];
      assert x == Without(fps[1..], fp)[j - 1];
      assert x in Without(fps[1..], fp);
      var j' :| 0 <= j' < |fps[1..]| && fps[1..][j'] == x;
      assert fps[0] == Without(fps, fp)[i] && fps[j' + 1] == x;
    }
  }

  lemma {:induction false} LastUseBound(calls: seq<Call>, fp: Fingerprint)
    ensures LastUse(calls, fp) < |calls|
    decreases |calls|
  {
    if calls != [] && Last(calls).fp != fp {
      LastUseBound(Init(calls), fp);
    }
  }

  /** Each called fingerprint appears once. */
  lemma {:induction false} RecencyMembers(calls: seq<Call>)
    ensures NoDuplicates(Recency(calls))
    ensures forall fp :: fp in Recency(calls) <==> LastUse(calls, fp) >= 0
    decreases |calls|
  {
    if calls != [] {
      RecencyMembers(Init(calls));
      WithoutNoDuplicates(Recency(Init(calls)), Last(calls).fp);
    }
  }

  /** Earlier in the list means used later. */
  lemma {:induction false} RecencyByLastUse(calls: seq<Call>, i: nat, j: nat)
    requires i < j < |Recency(calls)|
    ensures LastUse(calls, Recency(calls)[i]) > LastUse(calls, Recency(calls)[j])
    decreases |calls|
  {
    hide Without, NoDuplicates;
    var before, fp := Init(calls), Last(calls).fp;
    var r0 := Recency(before);
    var rest := Without(r0, fp);
    assert rest[j - 1] in rest;
    if i == 0 {
      LastUseBound(before, rest[j - 1]);
    } else {
      assert rest[i - 1] in rest;
      RecencyMembers(before);
      WithoutOrder(r0, fp, i - 1, j - 1);
      var i', j' :| 0 <= i' < j' < |r0| && r0[i'] == rest[i - 1] && r0[j'] == rest[j - 1];
      RecencyByLastUse(before, i', j');
    }
  }

  // ---- The stripe refines the history ----

  lemma {:induction false} WithoutTakeIn(fps: seq<Fingerprint>, fp: Fingerprint, n: nat)
    requires NoDuplicates(fps) && n < |fps| && fp in fps[..n + 1]
    ensures n <= |Without(fps, fp)| && Without(fps, fp)[..n] == Without(fps[..n + 1], fp)
    decreases |fps|
  {
    assert fps[..n + 1][1..] == fps[1..][..n];
    if fps[0] == fp {
      assert fp !in fps[1..];
      WithoutAbsent(fps[1..], fp);
      WithoutAbsent(fps[1..][..n], fp);
    } else {
      assert fp in fps[..n + 1][1..];
      WithoutTakeIn(fps[1..], fp, n - 1);
    }
  }

  lemma {:induction false} WithoutTakeOut(fps: seq<Fingerprint>, fp: Fingerprint, n: nat)
    requires n <= |fps| && fp !in fps[..n]
    ensures n <= |Without(fps, fp)| && Without(fps, fp)[..n] == fps[..n]
    decreases |fps|
  {
    if n > 0 {
      assert fps[0] == fps[..n][0];
      assert fps[..n][1..] == fps[1..][..n - 1];
      WithoutTakeOut(fps[1..], fp, n - 1);
    }
  }

  /** Move-to-front on a truncated list is truncation of move-to-front. */
  lemma {:induction false} TakeMoveToFront(fps: seq<Fingerprint>, fp: Fingerprint, cap: nat)
    requires NoDuplicates(fps) && cap > 0
    ensures
      var top := Take(cap, fps);
      Take(cap, [fp] + Without(fps, fp))
      == if fp in top then [fp] + Without(top, fp)
         else if |top| >= cap then [fp] + top[..|top| - 1]
         else [fp] + top
  {
    hide NoDuplicates, Without;
    var top := Take(cap, fps);
    WithoutNoDuplicates(fps, fp);
    if |fps| > cap {
      if fp in top {
        WithoutTakeIn(fps, fp, cap - 1);
        assert fps[..cap - 1 + 1] == top;
      } else {
        FrontOut(fps, fp, cap - 1);
      }
      assert ([fp] + Without(fps, fp))[..cap] == [fp] + Without(fps, fp)[..cap - 1];
    } else if fp !in fps {
      WithoutAbsent(fps, fp);
    }
  }

  lemma {:induction false} FrontOut(fps: seq<Fingerprint>, fp: Fingerprint, n: nat)
    requires n < |fps| && fp !in fps[..n + 1]
    ensures n <= |Without(fps, fp)| && Without(fps, fp)[..n] == fps[..n + 1][..n]
  {
    assert fps[..n + 1][..n] == fps[..n];
    assert fps[..n + 1] == fps[..n] + [fps[n]];
    WithoutTakeOut(fps, fp, n);
  }

  /** After any calls, a stripe's recency list is the cap most recently used distinct
      fingerprints, its map has exactly these keys, and each state is that of the
      fingerprint's hits since its last insertion; so the total counts exactly those. */
  lemma {:induction false} StripeRefinesHistory(cap: nat, calls: seq<Call>)
    requires cap > 0
    ensures
      var v := RunStripe(cap, calls);
      && Consistent(v, cap)
      && v.lru == Take(cap, Recency(calls))
      && (forall fp :: fp in v.states <==> fp in Take(cap, Recency(calls)))
      && (forall fp :: fp in v.states ==>
           v.states[fp] == StateAfter(Stamps(cap, calls, fp)) && v.states[fp].total == |Stamps(cap, calls, fp)|)
    decreases |calls|
  {
    if calls != [] {
      var before, c := Init(calls), Last(calls);
      StripeRefinesHistory(cap, before);
      DecidedConsistent(RunStripe(cap, before), cap, c.fp, c.t);
      RecencyMembers(before);
      TakeMoveToFront(Recency(before), c.fp, cap);
      LruStep(RunStripe(cap, before), cap, c);
      StatesStep(cap, calls);
    }
  }

  lemma {:induction false} LruStep(v: StripeView, cap: nat, c: Call)
    requires Consistent(v, cap)
    ensures
      Decided(v, cap, c.fp, c.t).lru
      == if c.fp in v.lru then [c.fp] + Without(v.lru, c.fp)
         else if |v.lru| >= cap then [c.fp] + v.lru[..|v.lru| - 1]
         else [c.fp] + v.lru
  {
    hide Without, NoDuplicates;
  }

  lemma {:induction false} StatesStep(cap: nat, calls: seq<Call>)
    requires cap > 0 && calls != []
    requires
      var v := RunStripe(cap, Init(calls));
      && Consistent(v, cap) && v.lru == Take(cap, Recency(Init(calls)))
      && forall fp :: fp in v.states ==> v.states[fp] == StateAfter(Stamps(cap, Init(calls), fp))
    ensures
      var v := RunStripe(cap, calls);
      forall fp :: fp in v.states ==> v.states[fp] == StateAfter(Stamps(cap, calls, fp))
  {
    hide Without, NoDuplicates, Recency, Hit, Take;
    var before, c := Init(calls), Last(calls);
    var v, w := RunStripe(cap, before), RunStripe(cap, calls);
    forall fp | fp in w.states ensures w.states[fp] == StateAfter(Stamps(cap, calls, fp)) {
      if fp == c.fp {
        if fp in v.states {
          assert Init(Stamps(cap, before, fp) + [c.t]) == Stamps(cap, before, fp);
        } else {
          assert Stamps(cap, calls, fp) == [c.t];
          assert Init([c.t]) == [];
        }
      } else {
        assert fp in v.states && w.states[fp] == v.states[fp];
      }
    }
  }

  // ---- All stripes ----

  /** The calls whose fingerprint hashes to stripe i of n. */
  function Routed(calls: seq<Call>, hash: Fingerprint -> nat, n: nat, i: nat): seq<Call>
    requires n > 0
  {
    if calls == [] then []
    else
      var c := Last(calls);
      Routed(Init(calls), hash, n, i) + if hash(c.fp) % n == i then [c] else []
  }

  /** The stripes of a sampler after any calls. */
  function RunSampler(n: nat, cap: nat, hash: Fingerprint -> nat, calls: seq<Call>): (views: seq<StripeView>)
    requires n > 0
    ensures |views| == n
  {
    if calls == [] then seq(n, _ => StripeView(map[], []))
    else AllDecided(RunSampler(n, cap, hash, Init(calls)), cap, hash, Last(calls).fp, Last(calls).t)
  }

  lemma {:induction false} RoutedNext(calls: seq<Call>, hash: Fingerprint -> nat, n: nat, i: nat)
    requires n > 0
    ensures
      Routed(calls, hash, n, i) ==
        if calls == [] then []
        else if hash(Last(calls).fp) % n == i then Routed(Init(calls), hash, n, i) + [Last(calls)]
        else Routed(Init(calls), hash, n, i)
  {
  }

  lemma {:induction false} SamplerNext(n: nat, cap: nat, hash: Fingerprint -> nat, calls: seq<Call>, i: nat)
    requires i < n
    ensures
      RunSampler(n, cap, hash, calls)[i] ==
        if calls == [] then StripeView(map[], [])
        else
          var before, c := RunSampler(n, cap, hash, Init(calls))[i], Last(calls);
          if hash(c.fp) % n == i then Decided(before, cap, c.fp, c.t) else before
  {
    hide Decided;
  }

  lemma {:induction false} RunNone(cap: nat)
    ensures RunStripe(cap, []) == StripeView(map[], [])
  {
  }

  lemma {:induction false} RunNext(cap: nat, calls: seq<Call>, c: Call)
    ensures RunStripe(cap, calls + [c]) == Decided(RunStripe(cap, calls), cap, c.fp, c.t)
  {
    hide Decided;
    Ends(calls, c);
  }

  lemma {:induction false} LastUseNext(calls: seq<Call>, c: Call, fp: Fingerprint)
    ensures LastUse(calls + [c], fp) == if c.fp == fp then |calls| else LastUse(calls, fp)
  {
    Ends(calls, c);
  }

  /** Each stripe is what its own calls make of it. */
  lemma {:induction false} StripesApart(n: nat, cap: nat, hash: Fingerprint -> nat, calls: seq<Call>, i: nat)
    requires i < n
    ensures RunSampler(n, cap, hash, calls)[i] == RunStripe(cap, Routed(calls, hash, n, i))
    decreases |calls|
  {
    hide Decided, RunStripe, RunSampler, Routed;
    SamplerNext(n, cap, hash, calls, i);
    RoutedNext(calls, hash, n, i);
    if calls == [] {
      RunNone(cap);
    } else {
      StripesApart(n, cap, hash, Init(calls), i);
      RunNext(cap, Routed(Init(calls), hash, n, i), Last(calls));
    }
  }

  /** After any calls to the sampler, each stripe holds the most recently used distinct
      fingerprints among those that hash to it, with totals since their last insertion. */
  lemma {:induction false} SamplerRefinesHistory(n: nat, cap: nat, hash: Fingerprint -> nat, calls: seq<Call>, i: nat)
    requires i < n && cap > 0
    ensures
      var v, own := RunSampler(n, cap, hash, calls)[i], Routed(calls, hash, n, i);
      && Consistent(v, cap) && v.lru == Take(cap, Recency(own))
      && (forall fp :: fp in v.states <==> fp in Take(cap, Recency(own)))
      && (forall fp :: fp in v.states ==> v.states[fp].total == |Stamps(cap, own, fp)|)
      && (forall fp :: fp in v.states ==> hash(fp) % n == i)
  {
    hide Consistent, Stamps, RunStripe, Take, StateAfter;
    var own := Routed(calls, hash, n, i);
    StripesApart(n, cap, hash, calls, i);
    StripeRefinesHistory(cap, own);
    forall fp | fp in RunStripe(cap, own).states ensures hash(fp) % n == i {
      TakeIn(cap, Recency(own), fp);
      RecencyMembers(own);
      RoutedHere(calls, hash, n, i, fp);
    }
  }

  lemma {:induction false} TakeIn<T>(n: nat, s: seq<T>, x: T)
    requires x in Take(n, s)
    ensures x in s
  {
  }

  lemma {:induction false} RoutedHere(calls: seq<Call>, hash: Fingerprint -> nat, n: nat, i: nat, fp: Fingerprint)
    requires n > 0 && LastUse(Routed(calls, hash, n, i), fp) >= 0
    ensures hash(fp) % n == i
    decreases |calls|
  {
    hide LastUse, Routed;
    RoutedNext(calls, hash, n, i);
    if calls == [] {
      NoUse(fp);
    } else {
      var c := Last(calls);
      LastUseNext(Routed(Init(calls), hash, n, i), c, fp);
      if hash(c.fp) % n != i || c.fp != fp { RoutedHere(Init(calls), hash, n, i, fp); }
    }
  }

  lemma {:induction false} NoUse(fp: Fingerprint)
    ensures LastUse([], fp) == -1
  {
  }
}
