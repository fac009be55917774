/** The tiers of one resident fingerprint: how the five-minute rule and the window rule
    interact, and how many captures a span of time can hold. */
module SamplerTiers {
  import opened Sequences
  import opened Sampler
  import opened SamplerHistory

  /** The largest lag for which the five-minute rule never changes an answer: stamps are
      taken before the lock, so a later call can carry an earlier stamp. */
  const MAX_LAG := RESAMPLE_MS - WINDOW_MS

  /** The tier by window hits alone. */
  function TierOf(hits: nat): CaptureMode {
    if hits <= FULL_PER_WINDOW then FULL
    else if hits <= FULL_PER_WINDOW * 5 then REDUCED
    else COUNT_ONLY
  }

  /** Positive stamps, none more than lag behind an earlier one. */
  ghost predicate Stamped(ts: seq<int>, lag: nat) {
    && (forall i :: 0 <= i < |ts| ==> ts[i] > 0)
    && (forall i, j :: 0 <= i < j < |ts| ==> ts[j] >= ts[i] - lag)
  }

  /** The answer to the last of a sequence of hits. */
  function Answer(ts: seq<int>): CaptureMode
    requires ts != []
  {
    ModeOf(Counted(StateAfter(Init(ts)), Last(ts)), Last(ts))
  }

  /** The window hits the last of a sequence of hits sees. */
  function HitsSeen(ts: seq<int>): nat
    requires ts != []
  {
    Counted(StateAfter(Init(ts)), Last(ts)).windowHits
  }

  /** The last full capture is not far behind the window. */
  predicate Sane(st: FpState, lag: nat) {
    st.windowHits > 0 && st.windowStart > 0 && st.lastFull > 0 && st.lastFull >= st.windowStart - lag
  }

  lemma {:induction false} HitSane(st: FpState, t: int, lag: nat)
    requires t > 0 && lag <= MAX_LAG && (st == FRESH || (Sane(st, lag) && t >= st.windowStart - lag))
    ensures Sane(Hit(st, t), lag)
    ensures Hit(st, t).windowStart == t || (st != FRESH && Hit(st, t).windowStart == st.windowStart)
    ensures ModeOf(Counted(st, t), t) == TierOf(Counted(st, t).windowHits)
  {
  }

  lemma {:induction false} StateSane(ts: seq<int>, lag: nat)
    requires Stamped(ts, lag) && lag <= MAX_LAG && ts != []
    ensures Sane(StateAfter(ts), lag) && StateAfter(ts).windowStart in ts
    ensures Answer(ts) == TierOf(HitsSeen(ts))
    decreases |ts|
  {
    hide Hit, Counted, ModeOf, TierOf, Sane;
    var before, t := Init(ts), Last(ts);
    assert ts == before + [t];
    assert t > 0;
    if before == [] {
      assert StateAfter(before) == FRESH;
      HitSane(FRESH, t, lag);
    } else {
      StateSane(before, lag);
      var ws := StateAfter(before).windowStart;
      var i :| 0 <= i < |before| && before[i] == ws;
      assert ts[i] == ws && ts[|ts| - 1] == t;
      HitSane(StateAfter(before), t, lag);
    }
  }

  /** With stamps lagging at most MAX_LAG the answer depends on the window hits alone. */
  lemma {:induction false} TierByWindowHits(ts: seq<int>)
    requires Stamped(ts, MAX_LAG) && ts != []
    ensures Answer(ts) == TierOf(HitsSeen(ts))
  {
    StateSane(ts, MAX_LAG);
  }

  /** One window opened at MAX_LAG + 2, nine hits stamped at 1, one just before the window
      closes: 300 000 ms after the last full capture, so the five-minute rule fires. */
  const LAGGING_STAMPS: seq<int> :=
    seq(11, i => if i == 0 then MAX_LAG + 2 else if i < 10 then 1 else MAX_LAG + 1 + WINDOW_MS)

  /** After k hits, the first of which opened the window. */
  function Lagging(k: nat): FpState { FpState(k, k, MAX_LAG + 2, if k == 1 then MAX_LAG + 2 else 1) }

  lemma {:induction false} LaggingHit(k: nat)
    requires 1 <= k < 10
    ensures Hit(Lagging(k), 1) == Lagging(k + 1)
  {
  }

  lemma {:induction false} LaggingState(k: nat)
    requires 1 <= k <= 10
    ensures StateAfter(LAGGING_STAMPS[..k]) == Lagging(k)
    decreases k
  {
    hide Hit, StateAfter, Lagging;
    var ts := LAGGING_STAMPS;
    if k == 1 {
      FirstHit(MAX_LAG + 2);
      assert ts[..1] == [MAX_LAG + 2];
      assert Lagging(1) == FpState(1, 1, MAX_LAG + 2, MAX_LAG + 2) by { LaggingOne(); }
    } else {
      LaggingState(k - 1);
      LaggingHit(k - 1);
      StateAfterNext(ts[..k - 1], 1);
      assert ts[..k] == ts[..k - 1] + [1];
    }
  }

  lemma {:induction false} LaggingOne()
    ensures Lagging(1) == FpState(1, 1, MAX_LAG + 2, MAX_LAG + 2)
  {
  }

  lemma {:induction false} FirstHit(t: int)
    requires t > 0
    ensures StateAfter([t]) == FpState(1, 1, t, t)
  {
    assert Init([t]) == [] && StateAfter([]) == FRESH;
  }

  lemma {:induction false} LagMatters()
    ensures Stamped(LAGGING_STAMPS, MAX_LAG + 1)
    ensures Answer(LAGGING_STAMPS) == FULL && TierOf(HitsSeen(LAGGING_STAMPS)) == REDUCED
  {
    hide StateAfter;
    LaggingState(10);
    assert Init(LAGGING_STAMPS) == LAGGING_STAMPS[..10];
  }

  lemma {:induction false} StateAfterNext(ts: seq<int>, t: int)
    ensures StateAfter(ts + [t]) == Hit(StateAfter(ts), t)
  {
    assert Init(ts + [t]) == ts;
  }

  lemma {:induction false} LagMonotone(ts: seq<int>, lag: nat, lag': nat)
    requires Stamped(ts, lag) && lag <= lag'
    ensures Stamped(ts, lag')
  {
  }

  /** MAX_LAG is exactly the lag up to which the five-minute rule is invisible. */
  lemma {:induction false} ResampleInvisibleExactly(lag: nat)
    ensures (forall ts :: Stamped(ts, lag) && ts != [] ==> Answer(ts) == TierOf(HitsSeen(ts)))
            <==> lag <= 240000
  {
    hide Stamped, Answer, HitsSeen;
    if lag <= MAX_LAG {
      forall ts | Stamped(ts, lag) && ts != [] ensures Answer(ts) == TierOf(HitsSeen(ts)) {
        StateSane(ts, lag);
      }
    } else {
      LagMatters();
      LagMonotone(LAGGING_STAMPS, MAX_LAG + 1, lag);
    }
  }

  // ---- The tiers in numbers ----

  lemma {:induction false} OneWindow(ts: seq<int>)
    requires Stamped(ts, 0) && ts != [] && Last(ts) - ts[0] < 60000
    ensures StateAfter(ts).windowStart == ts[0] && StateAfter(ts).windowHits == |ts|
    decreases |ts|
  {
    var before, t := Init(ts), Last(ts);
    if before == [] {
      FirstHit(t);
      assert ts == [t];
    } else {
      assert Stamped(before, 0) && before[0] == ts[0] && Last(before) <= t;
      OneWindow(before);
    }
  }

  /** Of the hits in one minute the first ten are captured in full, the next forty reduced, and
      the others counted. */
  lemma {:induction false} TiersOfAMinute(ts: seq<int>)
    requires Stamped(ts, 0) && ts != [] && Last(ts) - ts[0] < 60000
    ensures
      Answer(ts) == if |ts| <= 10 then FULL else if |ts| <= 50 then REDUCED else COUNT_ONLY
  {
    hide StateAfter, Answer, HitsSeen;
    TierByHits(ts);
    OneWindow(ts);
  }

  /** After a minute without a hit the next one is captured in full. */
  lemma {:induction false} FullAfterAMinute(ts: seq<int>)
    requires Stamped(ts, 0) && ts != [] && forall i :: 0 <= i < |ts| - 1 ==> ts[i] + 60000 <= Last(ts)
    ensures Answer(ts) == FULL
  {
    hide StateAfter;
    TierByHits(ts);
    if |ts| > 1 {
      var before := Init(ts);
      assert Stamped(before, 0);
      StateSane(before, 0);
      var i :| 0 <= i < |before| && before[i] == StateAfter(before).windowStart;
      assert ts[i] == before[i];
    } else {
      assert Init(ts) == [];
      FirstState();
    }
  }

  // ---- How much a span can capture ----

  /** How many of the hits from position i on got a mode. */
  function CountMode(ts: seq<int>, i: nat, mode: CaptureMode): nat
    requires i <= |ts|
  {
    if i == |ts| then 0
    else CountMode(Init(ts), i, mode) + if Answer(ts) == mode then 1 else 0
  }

  function AtMost(a: int, b: int): int { if a < b then a else b }

  /** Full and reduced captures still possible in the current window. */
  function UsedFull(hits: nat): int { AtMost(hits, FULL_PER_WINDOW) }
  function UsedReduced(hits: nat): int { AtMost(hits, FULL_PER_WINDOW * 5) - AtMost(hits, FULL_PER_WINDOW) }

  /** Stamps in order, the hits from i on within one window's length. */
  ghost predicate Span(ts: seq<int>, i: nat) {
    && i < |ts| && Stamped(ts, 0) && ts[|ts| - 1] - ts[i] < WINDOW_MS
  }

  lemma {:induction false} SpanInit(ts: seq<int>, i: nat)
    requires Span(ts, i) && i + 1 < |ts|
    ensures Span(Init(ts), i)
  {
    assert ts[|ts| - 2] <= ts[|ts| - 1];
  }

  /** Captures from a time on, within what the rest of one window and the start of the next hold. */
  predicate Uses(st: FpState, from: int, full: nat, reduced: nat) {
    if st.windowStart >= from
    then
      && full <= FULL_PER_WINDOW + UsedFull(st.windowHits)
      && reduced <= FULL_PER_WINDOW * 4 + UsedReduced(st.windowHits)
    else full <= UsedFull(st.windowHits) && reduced <= UsedReduced(st.windowHits)
  }

  lemma {:induction false} HitUses(st: FpState, from: int, t: int, full: nat, reduced: nat)
    requires 0 < from <= t < from + WINDOW_MS && 0 <= st.windowStart <= t
    requires if from == t && full + reduced == 0 then true else st.windowStart > 0 && Uses(st, from, full, reduced)
    ensures
      var tier := TierOf(Counted(st, t).windowHits);
      Uses(Hit(st, t), from, full + (if tier == FULL then 1 else 0), reduced + (if tier == REDUCED then 1 else 0))
  {
  }

  /** Within such a span the window rolls at most once after its first hit: what was captured
      fits in the rest of one window and the start of the next. */
  lemma {:induction false} SpanUses(ts: seq<int>, i: nat)
    requires Span(ts, i)
    ensures Uses(StateAfter(ts), ts[i], CountMode(ts, i, FULL), CountMode(ts, i, REDUCED))
    decreases |ts|
  {
    hide Hit, Counted, ModeOf, TierOf, Sane, Uses;
    var before, t := Init(ts), Last(ts);
    TierByHits(ts);
    WindowBefore(ts);
    if i + 1 < |ts| {
      SpanInit(ts, i);
      SpanUses(before, i);
      assert before[i] == ts[i];
    } else {
      assert CountMode(before, i, FULL) == 0 && CountMode(before, i, REDUCED) == 0;
    }
    HitUses(StateAfter(before), ts[i], t, CountMode(before, i, FULL), CountMode(before, i, REDUCED));
  }

  /** The window was not opened after the last hit. */
  lemma {:induction false} WindowBefore(ts: seq<int>)
    requires Stamped(ts, 0) && ts != []
    ensures 0 <= StateAfter(Init(ts)).windowStart <= Last(ts)
    ensures |ts| > 1 ==> StateAfter(Init(ts)).windowStart > 0
  {
    hide Hit;
    var before := Init(ts);
    if before != [] {
      assert Stamped(before, 0);
      StateSane(before, 0);
      var k :| 0 <= k < |before| && before[k] == StateAfter(before).windowStart;
      assert ts[k] <= ts[|ts| - 1];
    }
  }

  lemma {:induction false} TierByHits(ts: seq<int>)
    requires Stamped(ts, 0) && ts != []
    ensures Answer(ts) == TierOf(HitsSeen(ts))
    ensures StateAfter(ts).windowHits == HitsSeen(ts)
  {
    StateSane(ts, 0);
  }

  /** In any span shorter than a minute a resident fingerprint gets at most 20 full and 80
      reduced captures. */
  lemma {:induction false} CapturesPerMinute(ts: seq<int>, i: nat)
    requires Span(ts, i)
    ensures CountMode(ts, i, FULL) <= 20 && CountMode(ts, i, REDUCED) <= 80
  {
    SpanUses(ts, i);
  }

  // ---- What a stripe answers ----

  /** The answer that a stripe gives to the n-th of its calls. */
  function AnswerTo(cap: nat, calls: seq<Call>, n: nat): Decision
    requires n < |calls|
  {
    Verdict(RunStripe(cap, calls[..n]), cap, calls[n].fp, calls[n].t)
  }

  /** A stripe's answer is the answer to the fingerprint's hits since its last insertion. */
  lemma {:induction false} VerdictIsAnswer(cap: nat, calls: seq<Call>, fp: Fingerprint, t: int)
    requires cap > 0
    ensures
      var stamps := Stamps(cap, calls + [Call(fp, t)], fp);
      stamps != [] && Verdict(RunStripe(cap, calls), cap, fp, t) == Decision(Answer(stamps), |stamps|)
  {
    hide StateAfter, Counted, ModeOf, Take, Recency, Consistent;
    var all := calls + [Call(fp, t)];
    assert Init(all) == calls && Last(all) == Call(fp, t);
    StripeRefinesHistory(cap, calls);
    FirstState();
    HitTotals();
    if fp in RunStripe(cap, calls).states {
      var before := Stamps(cap, calls, fp);
      assert Init(before + [t]) == before && Last(before + [t]) == t;
    } else {
      assert Init([t]) == [] && Last([t]) == t;
    }
  }

  lemma {:induction false} FirstState()
    ensures StateAfter([]) == FRESH
  {
  }

  lemma {:induction false} HitTotals()
    ensures forall st: FpState, t: int :: Hit(st, t).total == st.total + 1
  {
  }

  /** How many of the calls for a fingerprint, from the n-th on, were answered with a mode. */
  function CountAnswers(cap: nat, calls: seq<Call>, n: nat, fp: Fingerprint, mode: CaptureMode): nat
    requires n <= |calls|
  {
    if n == |calls| then 0
    else
      var k := |calls| - 1;
      CountAnswers(cap, Init(calls), n, fp, mode)
      + if calls[k].fp == fp && AnswerTo(cap, calls, k).mode == mode then 1 else 0
  }

  /** The fingerprint is called at n and stays resident until its last call. */
  ghost predicate StaysResident(cap: nat, calls: seq<Call>, n: nat, fp: Fingerprint) {
    && n < |calls| && calls[n].fp == fp
    && forall k :: n < k < |calls| && calls[k].fp == fp ==> fp in RunStripe(cap, calls[..k]).states
  }

  lemma {:induction false} CountsAgree(cap: nat, calls: seq<Call>, n: nat, fp: Fingerprint, mode: CaptureMode)
    requires cap > 0 && StaysResident(cap, calls, n, fp)
    ensures
      var first, all := Stamps(cap, calls[..n + 1], fp), Stamps(cap, calls, fp);
      && first != [] && first <= all && all[|first| - 1] == calls[n].t
      && CountAnswers(cap, calls, n, fp, mode) == CountMode(all, |first| - 1, mode)
    decreases |calls|
  {
    hide Answer, AnswerTo, CountMode, CountAnswers, Stamps, StaysResident;
    var k := |calls| - 1;
    var all := Stamps(cap, calls, fp);
    StillResident(cap, calls, n, fp);
    NextAnswer(cap, calls, n, fp, mode);
    if k == n {
      assert calls[..n + 1] == calls;
      NoneYet(cap, Init(calls), n, fp, mode, Init(all));
      CountLast(all, |all| - 1, mode);
    } else {
      assert Init(calls)[..n + 1] == calls[..n + 1];
      CountsAgree(cap, Init(calls), n, fp, mode);
      if calls[k].fp == fp {
        CountLast(all, |Stamps(cap, calls[..n + 1], fp)| - 1, mode);
      }
    }
  }

  lemma {:induction false} StillResident(cap: nat, calls: seq<Call>, n: nat, fp: Fingerprint)
    requires StaysResident(cap, calls, n, fp)
    ensures n < |calls| && calls[n].fp == fp
    ensures n < |calls| - 1 ==> StaysResident(cap, Init(calls), n, fp)
    ensures n < |calls| - 1 && Last(calls).fp == fp ==> fp in RunStripe(cap, Init(calls)).states
  {
    hide RunStripe;
    assert forall j :: 0 <= j < |calls| ==> Init(calls)[..j] == calls[..j];
  }

  /** What the last call adds to the stamps and to the answers. */
  lemma {:induction false} NextAnswer(cap: nat, calls: seq<Call>, n: nat, fp: Fingerprint, mode: CaptureMode)
    requires cap > 0 && n < |calls|
    ensures
      var before, all, t := Stamps(cap, Init(calls), fp), Stamps(cap, calls, fp), Last(calls).t;
      if Last(calls).fp != fp
      then
        all == before && CountAnswers(cap, calls, n, fp, mode) == CountAnswers(cap, Init(calls), n, fp, mode)
      else
        && all != [] && Last(all) == t
        && (fp in RunStripe(cap, Init(calls)).states ==> all == before + [t] && Init(all) == before)
        && CountAnswers(cap, calls, n, fp, mode)
           == CountAnswers(cap, Init(calls), n, fp, mode) + if Answer(all) == mode then 1 else 0
  {
    hide Answer, AnswerTo, RunStripe, CountMode, Take, Recency;
    if Last(calls).fp == fp {
      LastAnswer(cap, calls, fp);
      StripeRefinesHistory(cap, Init(calls));
      Ends(Stamps(cap, Init(calls), fp), Last(calls).t);
    }
  }

  lemma {:induction false} LastAnswer(cap: nat, calls: seq<Call>, fp: Fingerprint)
    requires cap > 0 && calls != [] && Last(calls).fp == fp
    ensures Stamps(cap, calls, fp) != [] && Last(Stamps(cap, calls, fp)) == Last(calls).t
    ensures AnswerTo(cap, calls, |calls| - 1).mode == Answer(Stamps(cap, calls, fp))
  {
    hide Answer, Verdict, RunStripe;
    var k := |calls| - 1;
    assert calls[..k] + [Call(fp, calls[k].t)] == calls;
    VerdictIsAnswer(cap, calls[..k], fp, calls[k].t);
  }

  lemma {:induction false} NoneYet(
    cap: nat, calls: seq<Call>, n: nat, fp: Fingerprint, mode: CaptureMode, ts: seq<int>)
    requires n == |calls|
    ensures CountAnswers(cap, calls, n, fp, mode) == 0 && CountMode(ts, |ts|, mode) == 0
  {
  }

  lemma {:induction false} CountLast(ts: seq<int>, i: nat, mode: CaptureMode)
    requires i < |ts|
    ensures CountMode(ts, i, mode) == CountMode(Init(ts), i, mode) + if Answer(ts) == mode then 1 else 0
  {
    hide Answer;
  }

  lemma {:induction false} StampsInOrder(cap: nat, calls: seq<Call>, fp: Fingerprint)
    requires forall i :: 0 <= i < |calls| ==> calls[i].t > 0
    requires forall i, j :: 0 <= i < j < |calls| ==> calls[i].t <= calls[j].t
    ensures Stamped(Stamps(cap, calls, fp), 0)
    ensures forall i :: 0 <= i < |Stamps(cap, calls, fp)| ==> Stamps(cap, calls, fp)[i] <= Last(calls).t
    decreases |calls|
  {
    hide Take, Recency;
    if calls != [] {
      StampsInOrder(cap, Init(calls), fp);
      assert Init(calls) != [] ==> Last(Init(calls)).t <= Last(calls).t;
    }
  }

  /** In any span shorter than a minute, with a clock that does not go back, a stripe answers at
      most 20 calls of a resident fingerprint with a full capture and 80 with a reduced one. */
  lemma {:induction false} AnswersPerMinute(cap: nat, calls: seq<Call>, n: nat, fp: Fingerprint)
    requires cap > 0 && StaysResident(cap, calls, n, fp) && Last(calls).t - calls[n].t < WINDOW_MS
    requires forall i :: 0 <= i < |calls| ==> calls[i].t > 0
    requires forall i, j :: 0 <= i < j < |calls| ==> calls[i].t <= calls[j].t
    ensures CountAnswers(cap, calls, n, fp, FULL) <= 20 && CountAnswers(cap, calls, n, fp, REDUCED) <= 80
  {
    hide Stamps, CountAnswers, CountMode, RunStripe;
    CountsAgree(cap, calls, n, fp, FULL);
    CountsAgree(cap, calls, n, fp, REDUCED);
    StampsInOrder(cap, calls, fp);
    var first, all := Stamps(cap, calls[..n + 1], fp), Stamps(cap, calls, fp);
    assert all[|all| - 1] <= Last(calls).t;
    CapturesPerMinute(all, |first| - 1);
  }
}
