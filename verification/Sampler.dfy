/** The adaptive sampler: per-fingerprint capture tiers in striped LRU maps. */
module Sampler {

  type Fingerprint = string

  const WINDOW_MS := 60000
  const FULL_PER_WINDOW := 10
  const RESAMPLE_MS := 300000
  const MAX_STRIPES := 16
  const MIN_ENTRIES_PER_STRIPE := 256
  const DEFAULT_MAX_ENTRIES := 4096

  datatype CaptureMode = FULL | REDUCED | COUNT_ONLY

  datatype Decision = Decision(mode: CaptureMode, hitCount: nat)

  datatype FpState = FpState(total: nat, windowHits: nat, windowStart: int, lastFull: int)

  const FRESH := FpState(0, 0, 0, 0)

  /** The state once a hit is counted and the window rolled. */
  function Counted(st: FpState, t: int): FpState {
    var st1 := st.(total := st.total + 1);
    var st2 := if st1.windowStart == 0 || t - st1.windowStart >= WINDOW_MS
               then st1.(windowStart := t, windowHits := 0) else st1;
    st2.(windowHits := st2.windowHits + 1)
  }

  /** Whether the five-minute rule asks for a full capture. */
  predicate ResampleDue(st: FpState, t: int) {
    st.lastFull == 0 || t - st.lastFull >= RESAMPLE_MS
  }

  function ModeOf(st: FpState, t: int): CaptureMode {
    if ResampleDue(st, t) || st.windowHits <= FULL_PER_WINDOW then FULL
    else if st.windowHits <= FULL_PER_WINDOW * 5 then REDUCED
    else COUNT_ONLY
  }

  /** One hit at time t. */
  function Hit(st: FpState, t: int): FpState {
    var c := Counted(st, t);
    if ModeOf(c, t) == FULL then c.(lastFull := t) else c
  }

  function Without(fps: seq<Fingerprint>, fp: Fingerprint): (r: seq<Fingerprint>)
    ensures fp !in r
    ensures forall x :: x in r <==> x in fps && x != fp
    ensures |r| <= |fps|
  {
    if fps == [] then []
    else if fps[0] == fp then Without(fps[1..], fp)
    else [fps[0]] + Without(fps[1..], fp)
  }

  ghost predicate NoDuplicates(fps: seq<Fingerprint>) {
    forall i, j :: 0 <= i < j < |fps| ==> fps[i] != fps[j]
  }

  /** A stripe as a value: the map and the recency list, most recent first. */
  datatype StripeView = StripeView(states: map<Fingerprint, FpState>, lru: seq<Fingerprint>)

  ghost predicate Consistent(v: StripeView, cap: nat) {
    && cap > 0 && |v.lru| <= cap && NoDuplicates(v.lru)
    && (forall fp :: fp in v.lru <==> fp in v.states)
  }

  /** The stripe after a fingerprint is made resident and most recent. */
  function Touched(v: StripeView, cap: nat, fp: Fingerprint): StripeView {
    if fp in v.states then v.(lru := [fp] + Without(v.lru, fp))
    else
      var kept := if |v.lru| >= cap && v.lru != [] then v.lru[..|v.lru| - 1] else v.lru;
      var states := if |v.lru| >= cap && v.lru != [] then v.states - {v.lru[|v.lru| - 1]} else v.states;
      StripeView(states[fp := FRESH], [fp] + kept)
  }

  function Decided(v: StripeView, cap: nat, fp: Fingerprint, t: int): StripeView {
    var u := Touched(v, cap, fp);
    if fp in u.states then u.(states := u.states[fp := Hit(u.states[fp], t)]) else u
  }

  /** What a stripe answers for a hit. */
  function Verdict(v: StripeView, cap: nat, fp: Fingerprint, t: int): Decision {
    var st := Touched(v, cap, fp).states[fp];
    Decision(ModeOf(Counted(st, t), t), Hit(st, t).total)
  }

  lemma {:induction false} WithoutNoDuplicates(fps: seq<Fingerprint>, fp: Fingerprint)
    requires NoDuplicates(fps)
    ensures NoDuplicates(Without(fps, fp)) && NoDuplicates([fp] + Without(fps, fp))
    ensures |Without(fps, fp)| == if fp in fps then |fps| - 1 else |fps|
    decreases |fps|
  {
    if fps != [] {
      WithoutNoDuplicates(fps[1..], fp);
      assert forall x :: x in fps[1..] ==> x != fps[0];
      if fps[0] == fp {
        WithoutAbsent(fps[1..], fp);
      } else {
        ConsNoDuplicates(fps[0], Without(fps[1..], fp));
      }
    }
    ConsNoDuplicates(fp, Without(fps, fp));
  }

  lemma {:induction false} ConsNoDuplicates(fp: Fingerprint, fps: seq<Fingerprint>)
    requires fp !in fps && NoDuplicates(fps)
    ensures NoDuplicates([fp] + fps)
  {
  }

  lemma {:induction false} WithoutAbsent(fps: seq<Fingerprint>, fp: Fingerprint)
    requires fp !in fps
    ensures Without(fps, fp) == fps
    decreases |fps|
  {
    if fps != [] {
      WithoutAbsent(fps[1..], fp);
    }
  }

  lemma {:induction false} KeysCount(v: StripeView)
    requires NoDuplicates(v.lru) && forall fp :: fp in v.lru <==> fp in v.states
    ensures |v.states| == |v.lru|
    decreases |v.lru|
  {
    if v.lru == [] {
      assert v.states == map[];
    } else {
      var fp := v.lru[0];
      var rest := StripeView(v.states - {fp}, v.lru[1..]);
      assert v.states.Keys == rest.states.Keys + {fp};
      KeysCount(rest);
    }
  }

  lemma {:induction false} DropLast(fps: seq<Fingerprint>)
    requires fps != [] && NoDuplicates(fps)
    ensures
      var kept, last := fps[..|fps| - 1], fps[|fps| - 1];
      NoDuplicates(kept) && forall x :: x in kept <==> x in fps && x != last
  {
    var kept, last := fps[..|fps| - 1], fps[|fps| - 1];
    assert fps == kept + [last];
    forall x | x in kept ensures x != last {
      var i :| 0 <= i < |kept| && kept[i] == x;
      assert fps[i] != fps[|fps| - 1];
    }
  }

  lemma {:induction false} TouchedConsistent(v: StripeView, cap: nat, fp: Fingerprint)
    requires Consistent(v, cap)
    ensures Consistent(Touched(v, cap, fp), cap) && fp in Touched(v, cap, fp).states
  {
    hide NoDuplicates, Without;
    if fp in v.states {
      WithoutNoDuplicates(v.lru, fp);
    } else if |v.lru| >= cap {
      DropLast(v.lru);
      ConsNoDuplicates(fp, v.lru[..|v.lru| - 1]);
    } else {
      ConsNoDuplicates(fp, v.lru);
    }
  }

  lemma {:induction false} DecidedConsistent(v: StripeView, cap: nat, fp: Fingerprint, t: int)
    requires Consistent(v, cap)
    ensures Consistent(Decided(v, cap, fp, t), cap)
  {
    TouchedConsistent(v, cap, fp);
  }

  class Stripe {
    var states: map<Fingerprint, FpState>
    var lru: seq<Fingerprint>

    constructor ()
      ensures View() == StripeView(map[], [])
    {
      states, lru := map[], [];
    }

    function View(): StripeView
      reads this
    {
      StripeView(states, lru)
    }

    method Decide(fp: Fingerprint, t: int, cap: nat) returns (d: Decision)
      requires Consistent(View(), cap)
      modifies this
      ensures View() == Decided(old(View()), cap, fp, t) && Consistent(View(), cap)
      ensures d == Verdict(old(View()), cap, fp, t) && fp in states && d.hitCount == states[fp].total
    {
      ghost var before := View();
      DecidedConsistent(before, cap, fp, t);
      Touch(fp, cap);
      var st, mode := Count(states[fp], t);
      states := states[fp := st];
      d := Decision(mode, st.total);
    }

    /** Makes a fingerprint resident, evicting the least recently used one if the stripe is
        full, and most recently used. */
    method Touch(fp: Fingerprint, cap: nat)
      requires Consistent(View(), cap)
      modifies this
      ensures View() == Touched(old(View()), cap, fp) && fp in states
    {
      KeysCount(View());
      if fp !in states {
        if |states| >= cap && lru != [] {
          var victim := lru[|lru| - 1];
          lru := lru[..|lru| - 1];
          states := states - {victim};
        }
        lru := [fp] + lru;
        states := states[fp := FRESH];
      } else {
        lru := [fp] + Without(lru, fp);
      }
    }

    /** Counts one hit and picks its tier. */
    static method Count(s: FpState, t: int) returns (st: FpState, mode: CaptureMode)
      ensures st == Hit(s, t) && mode == ModeOf(Counted(s, t), t)
    {
      st := s.(total := s.total + 1);
      if st.windowStart == 0 || t - st.windowStart >= WINDOW_MS {
        st := st.(windowStart := t, windowHits := 0);
      }
      st := st.(windowHits := st.windowHits + 1);
      if st.lastFull == 0 || t - st.lastFull >= RESAMPLE_MS {
        st := st.(lastFull := t);
        return st, FULL;
      }
      if st.windowHits <= FULL_PER_WINDOW {
        st := st.(lastFull := t);
        return st, FULL;
      }
      if st.windowHits <= FULL_PER_WINDOW * 5 {
        return st, REDUCED;
      }
      return st, COUNT_ONLY;
    }
  }

  function StripeCount(maxEntries: nat): (n: nat)
    ensures 1 <= n <= MAX_STRIPES
  {
    var wanted := if maxEntries / MIN_ENTRIES_PER_STRIPE < 1 then 1 else maxEntries / MIN_ENTRIES_PER_STRIPE;
    if MAX_STRIPES < wanted then MAX_STRIPES else wanted
  }

  function PerStripe(maxEntries: nat): (n: nat)
    ensures n >= 1
  {
    var n := maxEntries / StripeCount(maxEntries);
    if n < 1 then 1 else n
  }

  function Effective(maxEntries: nat): (n: nat)
    ensures n > 0
  {
    if maxEntries == 0 then DEFAULT_MAX_ENTRIES else maxEntries
  }

  /** The stripes together never exceed the configured number of entries. */
  lemma {:induction false} StripesWithinLimit(maxEntries: nat)
    requires maxEntries > 0
    ensures StripeCount(maxEntries) * PerStripe(maxEntries) <= maxEntries
  {
    var s := StripeCount(maxEntries);
    assert s <= maxEntries;
    assert s * (maxEntries / s) <= maxEntries;
    assert maxEntries / s >= 1;
  }

  /** All stripes after a hit: it goes to one of them. */
  function AllDecided(
    views: seq<StripeView>, cap: nat, hash: Fingerprint -> nat, fp: Fingerprint, t: int): (next: seq<StripeView>)
    requires views != []
    ensures |next| == |views|
  {
    var i := hash(fp) % |views|;
    views[i := Decided(views[i], cap, fp, t)]
  }

  class AdaptiveSampler {
    const stripes: seq<Stripe>
    const perStripeMax: nat
    /** The fingerprint hash. */
    const hash: Fingerprint -> nat
    ghost const maxEntries: nat

    ghost predicate Valid()
      reads this, stripes
    {
      && maxEntries > 0
      && |stripes| == StripeCount(maxEntries) && perStripeMax == PerStripe(maxEntries)
      && (forall i, j :: 0 <= i < j < |stripes| ==> stripes[i] != stripes[j])
      && (forall i :: 0 <= i < |stripes| ==> Consistent(stripes[i].View(), perStripeMax))
    }

    constructor (max: nat, hash: Fingerprint -> nat)
      ensures Valid() && maxEntries == Effective(max) && this.hash == hash
      ensures forall s :: s in stripes ==> fresh(s)
      ensures forall i :: 0 <= i < |stripes| ==> stripes[i].View() == StripeView(map[], [])
    {
      var entries := if max == 0 then DEFAULT_MAX_ENTRIES else max;
      var count := StripeCount(entries);
      var all: seq<Stripe> := [];
      for i := 0 to count
        invariant |all| == i && (forall s :: s in all ==> fresh(s))
        invariant forall j, k :: 0 <= j < k < i ==> all[j] != all[k]
        invariant forall j :: 0 <= j < i ==> all[j].View() == StripeView(map[], [])
      {
        var s := new Stripe();
        all := all + [s];
      }
      stripes := all;
      perStripeMax := PerStripe(entries);
      this.hash := hash;
      maxEntries := entries;
    }

    /** All stripes as values. */
    ghost function Views(): (views: seq<StripeView>)
      reads this, stripes
      ensures |views| == |stripes| && forall i :: 0 <= i < |stripes| ==> views[i] == stripes[i].View()
    {
      seq(|stripes|, i requires 0 <= i < |stripes| reads this, stripes => stripes[i].View())
    }

    function StripeFor(fp: Fingerprint): (i: nat)
      requires stripes != []
      ensures i < |stripes|
    {
      hash(fp) % |stripes|
    }

    /** Only the fingerprint's own stripe changes. */
    method Decide(fp: Fingerprint, t: int) returns (d: Decision)
      requires Valid()
      modifies stripes
      ensures Valid()
      ensures
        var i := StripeFor(fp);
        && stripes[i].View() == Decided(old(stripes[i].View()), perStripeMax, fp, t)
        && d == Verdict(old(stripes[i].View()), perStripeMax, fp, t)
        && fp in stripes[i].states && d.hitCount == stripes[i].states[fp].total
      ensures forall j :: 0 <= j < |stripes| && j != StripeFor(fp) ==> stripes[j].View() == old(stripes[j].View())
      ensures Views() == AllDecided(old(Views()), perStripeMax, hash, fp, t)
    {
      hide Decided, Verdict, Consistent;
      d := stripes[StripeFor(fp)].Decide(fp, t, perStripeMax);
    }

    /** The number of resident fingerprints, which is within the configured limit. */
    method Tracked() returns (n: nat)
      requires Valid()
      ensures n == Resident(stripes) && n <= maxEntries
    {
      hide Consistent;
      n := 0;
      for i := 0 to |stripes|
        invariant n == Resident(stripes[..i])
      {
        n := n + |stripes[i].states|;
        assert stripes[..i + 1][..i] == stripes[..i];
      }
      assert stripes[..|stripes|] == stripes;
      ResidentBound(stripes, perStripeMax);
      StripesWithinLimit(maxEntries);
    }
  }

  function Resident(stripes: seq<Stripe>): nat
    reads stripes
  {
    if stripes == [] then 0
    else Resident(stripes[..|stripes| - 1]) + |stripes[|stripes| - 1].states|
  }

  lemma {:induction false} ResidentBound(stripes: seq<Stripe>, cap: nat)
    requires forall i :: 0 <= i < |stripes| ==> Consistent(stripes[i].View(), cap)
    ensures Resident(stripes) <= |stripes| * cap
    decreases |stripes|
  {
    hide Consistent;
    if stripes != [] {
      var n := |stripes| - 1;
      ResidentBound(stripes[..n], cap);
      StripeBound(stripes[n], cap);
      OneMore(n, cap);
    }
  }

  lemma {:induction false} StripeBound(s: Stripe, cap: nat)
    requires Consistent(s.View(), cap)
    ensures |s.states| <= cap
  {
    KeysCount(s.View());
  }

  lemma {:induction false} OneMore(n: nat, cap: nat)
    ensures (n + 1) * cap == n * cap + cap
  {
  }
}
