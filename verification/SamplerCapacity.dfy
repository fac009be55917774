/** How much the sampler remembers: its capacity in numbers, and which fingerprints survive. */
module SamplerCapacity {
  import opened Sequences
  import opened Sampler
  import opened SamplerHistory
  import opened SamplerTiers

  // ---- The constructor's numbers ----

  /** One stripe for each 256 entries, at least one and at most sixteen. */
  lemma {:induction false} StripesAre(maxEntries: nat)
    ensures maxEntries < 512 ==> StripeCount(maxEntries) == 1
    ensures 512 <= maxEntries < 4096 ==> StripeCount(maxEntries) == maxEntries / 256
    ensures 4096 <= maxEntries ==> StripeCount(maxEntries) == 16
    ensures Effective(0) == 4096 && (maxEntries > 0 ==> Effective(maxEntries) == maxEntries)
  {
  }

  /** The stripes together hold all entries but for less than one to a stripe. */
  lemma {:induction false} NearlyAllEntries(maxEntries: nat)
    requires maxEntries > 0
    ensures
      StripeCount(maxEntries) * PerStripe(maxEntries) <= maxEntries
      < StripeCount(maxEntries) * (PerStripe(maxEntries) + 1)
  {
    StripesWithinLimit(maxEntries);
    var s := StripeCount(maxEntries);
    assert maxEntries == maxEntries / s * s + maxEntries % s;
  }

  /** From 256 entries on, each stripe holds at least 256. */
  lemma {:induction false} AtLeast256(maxEntries: nat)
    requires maxEntries == 0 || maxEntries >= 256
    ensures PerStripe(Effective(maxEntries)) >= 256
    ensures PerStripe(Effective(0)) == 256
  {
    var n := Effective(maxEntries);
    NearlyAllEntries(n);
    StripesAre(n);
    StripesAre(4096);
    NearlyAllEntries(4096);
    if PerStripe(n) < 256 {
      Scaled(StripeCount(n), PerStripe(n) + 1, 256);
    }
  }

  lemma {:induction false} Scaled(s: nat, a: nat, b: nat)
    ensures a <= b ==> s * a <= s * b
  {
  }

  // ---- What survives ----

  function Distinct(calls: seq<Call>): set<Fingerprint> {
    set c | c in calls :: c.fp
  }

  lemma {:induction false} LastUseAppend(pre: seq<Call>, post: seq<Call>, fp: Fingerprint)
    ensures fp !in Distinct(post) ==> LastUse(pre + post, fp) == LastUse(pre, fp)
    ensures LastUse(pre + post, fp) >= |pre| ==> fp in Distinct(post)
    decreases |post|
  {
    if post == [] {
      assert pre + post == pre;
      LastUseBound(pre, fp);
    } else {
      assert Init(pre + post) == pre + Init(post) && Last(pre + post) == Last(post);
      assert post == Init(post) + [Last(post)];
      LastUseAppend(pre, Init(post), fp);
    }
  }

  /** The fingerprints ahead of one in the recency list were all called after it. */
  lemma {:induction false} AheadIsLater(pre: seq<Call>, c: Call, post: seq<Call>, i: nat)
    requires c.fp !in Distinct(post)
    requires i < |Recency(pre + [c] + post)| && Recency(pre + [c] + post)[i] == c.fp
    ensures forall j :: 0 <= j < i ==> Recency(pre + [c] + post)[j] in Distinct(post)
  {
    hide Recency, LastUse, Distinct;
    var calls := pre + [c] + post;
    LastUseAppend(pre + [c], post, c.fp);
    LastUseNext(pre, c, c.fp);
    forall j | 0 <= j < i ensures Recency(calls)[j] in Distinct(post) {
      RecencyByLastUse(calls, j, i);
      LastUseAppend(pre + [c], post, Recency(calls)[j]);
    }
  }

  lemma {:induction false} DistinctMembers(xs: seq<Fingerprint>, s: set<Fingerprint>)
    requires NoDuplicates(xs) && forall i :: 0 <= i < |xs| ==> xs[i] in s
    ensures |xs| <= |s|
    decreases |xs|
  {
    if xs != [] {
      var n := |xs| - 1;
      assert forall i :: 0 <= i < n ==> xs[i] != xs[n];
      DistinctMembers(xs[..n], s - {xs[n]});
    }
  }

  /** A fingerprint is resident as long as fewer others than the capacity came since. */
  lemma {:induction false} StaysIn(cap: nat, pre: seq<Call>, c: Call, post: seq<Call>)
    requires c.fp !in Distinct(post) && |Distinct(post)| < cap
    ensures c.fp in Take(cap, Recency(pre + [c] + post))
  {
    hide Recency, LastUse, Distinct;
    var calls := pre + [c] + post;
    RecencyMembers(calls);
    LastUseAppend(pre + [c], post, c.fp);
    LastUseNext(pre, c, c.fp);
    var i :| 0 <= i < |Recency(calls)| && Recency(calls)[i] == c.fp;
    AheadIsLater(pre, c, post, i);
    DistinctMembers(Recency(calls)[..i], Distinct(post));
  }

  lemma {:induction false} StampsSkip(cap: nat, calls: seq<Call>, post: seq<Call>, fp: Fingerprint)
    requires fp !in Distinct(post)
    ensures Stamps(cap, calls + post, fp) == Stamps(cap, calls, fp)
    decreases |post|
  {
    hide Recency, Take;
    if post == [] {
      assert calls + post == calls;
    } else {
      assert Init(calls + post) == calls + Init(post) && Last(calls + post) == Last(post);
      assert post == Init(post) + [Last(post)];
      StampsSkip(cap, calls, Init(post), fp);
    }
  }

  /** Retention in a stripe: the next hit of a fingerprint goes on counting where the last one
      stopped, if fewer other fingerprints than the capacity came in between. */
  lemma {:induction false} CountGoesOn(cap: nat, pre: seq<Call>, c: Call, post: seq<Call>, t: int)
    requires cap > 0 && c.fp !in Distinct(post) && |Distinct(post)| < cap
    ensures
      Verdict(RunStripe(cap, pre + [c] + post), cap, c.fp, t).hitCount
      == Verdict(RunStripe(cap, pre), cap, c.fp, c.t).hitCount + 1
  {
    hide Recency, Distinct, Verdict, RunStripe, Take;
    var calls := pre + [c] + post;
    StaysIn(cap, pre, c, post);
    StampsSkip(cap, pre + [c], post, c.fp);
    VerdictIsAnswer(cap, pre, c.fp, c.t);
    VerdictIsAnswer(cap, calls, c.fp, t);
    Ends(calls, Call(c.fp, t));
    assert pre + [Call(c.fp, c.t)] == pre + [c];
  }

  // ---- The whole sampler ----

  lemma {:induction false} RoutedAppend(a: seq<Call>, b: seq<Call>, hash: Fingerprint -> nat, n: nat, i: nat)
    requires n > 0
    ensures Routed(a + b, hash, n, i) == Routed(a, hash, n, i) + Routed(b, hash, n, i)
    decreases |b|
  {
    hide Routed;
    RoutedNext(b, hash, n, i);
    RoutedNext(a + b, hash, n, i);
    if b == [] {
      assert a + b == a;
    } else {
      assert Init(a + b) == a + Init(b) && Last(a + b) == Last(b);
      RoutedAppend(a, Init(b), hash, n, i);
    }
  }

  lemma {:induction false} RoutedDistinct(calls: seq<Call>, hash: Fingerprint -> nat, n: nat, i: nat)
    requires n > 0
    ensures Distinct(Routed(calls, hash, n, i)) == set c | c in calls && hash(c.fp) % n == i :: c.fp
    decreases |calls|
  {
    hide Routed;
    RoutedNext(calls, hash, n, i);
    if calls != [] {
      var before, c := Routed(Init(calls), hash, n, i), Last(calls);
      RoutedDistinct(Init(calls), hash, n, i);
      assert calls == Init(calls) + [c];
      assert forall d :: d in calls <==> d in Init(calls) || d == c;
      DistinctNext(before, c);
    }
  }

  lemma {:induction false} DistinctNext(calls: seq<Call>, c: Call)
    ensures Distinct(calls + [c]) == Distinct(calls) + {c.fp}
  {
  }

  /** What the sampler answers to a hit after some calls. */
  function HitCount(n: nat, cap: nat, hash: Fingerprint -> nat, calls: seq<Call>, fp: Fingerprint, t: int): nat
    requires n > 0
  {
    Verdict(RunSampler(n, cap, hash, calls)[hash(fp) % n], cap, fp, t).hitCount
  }

  lemma {:induction false} SamplerCountGoesOn(
    n: nat, cap: nat, hash: Fingerprint -> nat, pre: seq<Call>, c: Call, post: seq<Call>, t: int)
    requires n > 0 && cap > 0 && forall d :: d in post ==> d.fp != c.fp
    requires |set d | d in post && hash(d.fp) % n == hash(c.fp) % n :: d.fp| < cap
    ensures HitCount(n, cap, hash, pre + [c] + post, c.fp, t) == HitCount(n, cap, hash, pre, c.fp, c.t) + 1
  {
    hide Routed, RunSampler, RunStripe, Verdict;
    var i := hash(c.fp) % n;
    var own, later := Routed(pre, hash, n, i), Routed(post, hash, n, i);
    RoutedDistinct(post, hash, n, i);
    RoutedAppend(pre + [c], post, hash, n, i);
    RoutedNext(pre + [c], hash, n, i);
    Ends(pre, c);
    StripesApart(n, cap, hash, pre, i);
    StripesApart(n, cap, hash, pre + [c] + post, i);
    CountGoesOn(cap, own, c, later, t);
  }

  /** With the default limit, or any of 256 entries or more, a fingerprint's count goes on as long
      as fewer than 256 others of its stripe came since its last hit. */
  lemma {:induction false} CountGoesOnFor256(
    maxEntries: nat, hash: Fingerprint -> nat, pre: seq<Call>, c: Call, post: seq<Call>, t: int)
    requires maxEntries == 0 || maxEntries >= 256
    requires forall d :: d in post ==> d.fp != c.fp
    requires
      var n := StripeCount(Effective(maxEntries));
      |set d | d in post && hash(d.fp) % n == hash(c.fp) % n :: d.fp| < 256
    ensures
      var n, cap := StripeCount(Effective(maxEntries)), PerStripe(Effective(maxEntries));
      HitCount(n, cap, hash, pre + [c] + post, c.fp, t) == HitCount(n, cap, hash, pre, c.fp, c.t) + 1
  {
    hide HitCount;
    AtLeast256(maxEntries);
    var n, cap := StripeCount(Effective(maxEntries)), PerStripe(Effective(maxEntries));
    SamplerCountGoesOn(n, cap, hash, pre, c, post, t);
  }
}
