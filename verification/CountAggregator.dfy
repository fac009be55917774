/** Counts of suppressed throws, pending until the next flush. */
module CountAggregator {
  import opened JsonText
  import opened Sums
  import opened EventSerializer

  const FLUSH_INTERVAL_MS := 5000
  const MAX_ENTRIES := 4096

  /** One fingerprint's latest event and its throws since the last flush. */
  datatype Entry = Entry(proto: CapturedEvent, count: nat)

  type Pending = map<Bytes, Entry>

  datatype Counts = Counts(pending: Pending, lastFlush: int, overflow: nat)

  function CountOf(e: Entry): nat { e.count }

  /** The throws that have been counted and not shipped. */
  ghost function Held(c: Counts): nat { MapTotal(c.pending, CountOf) + c.overflow }

  ghost predicate Bounded(pending: Pending) {
    |pending| <= MAX_ENTRIES && forall fp :: fp in pending ==> pending[fp].count >= 1
  }

  function Started(c: Counts, t: int): Counts { if c.lastFlush == 0 then c.(lastFlush := t) else c }

  function Recorded(c: Counts, fp: Bytes, proto: CapturedEvent, t: int): Counts {
    var s := Started(c, t);
    if fp in s.pending then s.(pending := s.pending[fp := Entry(proto, s.pending[fp].count + 1)])
    else if |s.pending| >= MAX_ENTRIES then s.(overflow := s.overflow + 1)
    else s.(pending := s.pending[fp := Entry(proto, 1)])
  }

  predicate Due(c: Counts, t: int, force: bool) {
    force || c.lastFlush == 0 || t - c.lastFlush >= FLUSH_INTERVAL_MS
  }

  /** What a flush takes. */
  function Ready(c: Counts, t: int, force: bool): Pending {
    if Due(c, t, force) then c.pending else map[]
  }

  function Drained(c: Counts, t: int, force: bool): Counts {
    if Due(c, t, force) then c.(pending := map[], lastFlush := t) else c
  }

  /** The event that stands for an entry's throws. */
  function WithCount(e: Entry): CapturedEvent { e.proto.(occurrences := e.count) }

  /** A flush that is forced, the first one, or one 5000 ms or more after the last takes everything;
      any other changes nothing. */
  lemma {:induction false} FlushTimes(c: Counts, t: int, force: bool)
    ensures force || c.lastFlush == 0 || t - c.lastFlush >= 5000 ==>
      Ready(c, t, force) == c.pending && Drained(c, t, force) == c.(pending := map[], lastFlush := t)
    ensures !force && c.lastFlush != 0 && t - c.lastFlush < 5000 ==>
      Ready(c, t, force) == map[] && Drained(c, t, force) == c
  {
  }

  function Summary(e: Entry): string { EventText(WithCount(e)) }

  /** The keys of a map, each once. */
  ghost predicate Lists<K(!new), V>(keys: seq<K>, m: map<K, V>) {
    && (forall i, j :: 0 <= i < j < |keys| ==> keys[i] != keys[j])
    && (forall k :: k in keys <==> k in m)
  }

  function Summaries(fps: seq<Bytes>, pending: Pending): (texts: seq<string>)
    requires forall fp :: fp in fps ==> fp in pending
    ensures |texts| == |fps|
  {
    seq(|fps|, i requires 0 <= i < |fps| => Summary(pending[fps[i]]))
  }

  /** Recording loses nothing: the throw is counted for its fingerprint or as overflow. */
  lemma {:induction false} RecordedCounts(c: Counts, fp: Bytes, proto: CapturedEvent, t: int)
    requires Bounded(c.pending)
    ensures Bounded(Recorded(c, fp, proto, t).pending)
    ensures Held(Recorded(c, fp, proto, t)) == Held(c) + 1
  {
    hide MapTotal;
    if fp in c.pending {
      Replaced(c.pending, fp, Entry(proto, c.pending[fp].count + 1));
    } else if |c.pending| < MAX_ENTRIES {
      Inserted(c.pending, fp, Entry(proto, 1));
    }
  }

  /** A throw replaces its fingerprint's event and adds one to its count; a new fingerprint gets an
      entry unless there are 4096; the first throw starts the clock. */
  lemma {:induction false} RecordingIs(c: Counts, fp: Bytes, proto: CapturedEvent, t: int)
    ensures
      var r, full := Recorded(c, fp, proto, t), |c.pending| >= 4096;
      && (fp in c.pending ==> r.pending == c.pending[fp := Entry(proto, c.pending[fp].count + 1)])
      && (fp !in c.pending && !full ==> r.pending == c.pending[fp := Entry(proto, 1)])
      && (fp !in c.pending && full ==> r.pending == c.pending)
      && r.overflow == c.overflow + (if fp !in c.pending && full then 1 else 0)
      && r.lastFlush == if c.lastFlush == 0 then t else c.lastFlush
  {
  }

  lemma {:induction false} Replaced(pending: Pending, fp: Bytes, e: Entry)
    requires fp in pending
    ensures MapTotal(pending[fp := e], CountOf) + pending[fp].count == MapTotal(pending, CountOf) + e.count
    ensures |pending[fp := e]| == |pending|
  {
    hide MapTotal;
    MapTotalPut(pending, fp, e, CountOf);
    MapTotalRemove(pending, fp, CountOf);
    assert pending[fp := e].Keys == pending.Keys;
    KeysSize(pending);
    KeysSize(pending[fp := e]);
  }

  lemma {:induction false} Inserted(pending: Pending, fp: Bytes, e: Entry)
    requires fp !in pending
    ensures MapTotal(pending[fp := e], CountOf) == MapTotal(pending, CountOf) + e.count
    ensures |pending[fp := e]| == |pending| + 1
  {
    hide MapTotal;
    MapTotalPut(pending, fp, e, CountOf);
    assert pending[fp := e].Keys == pending.Keys + {fp};
    KeysSize(pending);
    KeysSize(pending[fp := e]);
  }

  lemma {:induction false} KeysSize(pending: Pending)
    ensures |pending| == |pending.Keys|
  {
  }

  /** Summaries carry exactly the counts they replace; no count is shown that was not held. */
  lemma {:induction false} SummariesCount(fps: seq<Bytes>, pending: Pending)
    requires Lists(fps, pending) && Bounded(pending)
    ensures Total(Summaries(fps, pending), OccurrencesOf) == MapTotal(pending, CountOf)
  {
    hide MapTotal, Total, OccurrencesOf, Summary, Summaries, Lists;
    forall fp | fp in pending ensures OccurrencesOf(Summary(pending[fp])) == CountOf(pending[fp]) {
      SummaryCount(pending[fp]);
    }
    SummariesWeigh(fps, pending, OccurrencesOf, CountOf);
  }

  /** What is so of each summary is so of all of them. */
  lemma {:induction false} SummariesWeigh(fps: seq<Bytes>, pending: Pending, w: string -> nat, v: Entry -> nat)
    requires Lists(fps, pending) && forall fp :: fp in pending ==> w(Summary(pending[fp])) == v(pending[fp])
    ensures Total(Summaries(fps, pending), w) == MapTotal(pending, v)
    decreases |fps|
  {
    hide MapTotal, Total, Summary, Summaries, Lists;
    if fps == [] {
      Nothing(fps, pending, w, v);
    } else {
      var n := |fps| - 1;
      var fp, rest := fps[n], pending - {fps[n]};
      FrontLists(fps, pending, n);
      Listed(fps, pending);
      Listed(fps[..n], rest);
      SummariesWeigh(fps[..n], rest, w, v);
      SummariesLast(fps, pending, n);
      MapTotalRemove(pending, fp, v);
      TotalOne(Summaries(fps[..n], rest), Summary(pending[fp]), w);
    }
  }

  lemma {:induction false} SummariesLast(fps: seq<Bytes>, pending: Pending, n: nat)
    requires |fps| == n + 1 && fps[n] in pending && Lists(fps[..n], pending - {fps[n]})
    requires forall fp :: fp in fps ==> fp in pending
    requires forall fp :: fp in fps[..n] ==> fp in pending - {fps[n]}
    ensures Summaries(fps, pending) == Summaries(fps[..n], pending - {fps[n]}) + [Summary(pending[fps[n]])]
  {
    hide Summary, Lists;
    var rest := pending - {fps[n]};
    forall i | 0 <= i < n ensures fps[i] in rest && rest[fps[i]] == pending[fps[i]] {
      assert fps[..n][i] in fps[..n];
    }
  }

  lemma {:induction false} Nothing(fps: seq<Bytes>, pending: Pending, w: string -> nat, v: Entry -> nat)
    requires fps == [] && Lists(fps, pending)
    ensures MapTotal(pending, v) == 0 && Total(Summaries(fps, pending), w) == 0
  {
    assert pending == map[];
  }

  lemma {:induction false} SummaryCount(e: Entry)
    requires e.count >= 1
    ensures OccurrencesOf(Summary(e)) == e.count
  {
    OccurrencesRead(WithCount(e));
  }

  lemma {:induction false} Listed<K(!new), V>(keys: seq<K>, m: map<K, V>)
    requires Lists(keys, m)
    ensures forall k :: k in keys <==> k in m
  {
  }

  lemma {:induction false} FrontLists<K(!new), V>(keys: seq<K>, m: map<K, V>, n: nat)
    requires |keys| == n + 1 && Lists(keys, m)
    ensures keys[n] in m && Lists(keys[..n], m - {keys[n]})
  {
    var front, last := keys[..n], keys[n];
    assert keys == front + [last];
    assert forall k :: k in keys <==> k in front || k == last;
    forall k | k in front ensures k != last {
      var i :| 0 <= i < n && front[i] == k;
      assert keys[i] != keys[n];
    }
    assert forall i, j :: 0 <= i < j < n ==> keys[i] != keys[j];
  }

  lemma {:induction false} SummaryIs(e: Entry)
    ensures Summary(e) == EventText(WithCount(e))
  {
  }

  lemma {:induction false} NoneListed()
    ensures forall pending: Pending :: Summaries([], pending) == []
    ensures forall pending: Pending :: pending == map[] ==> Lists<Bytes, Entry>([], pending)
  {
  }

  lemma {:induction false} OneMoreListed(fps: seq<Bytes>, fp: Bytes, all: Pending, ready: Pending)
    requires Lists(fps, all - ready.Keys) && fp in ready && fp in all
    requires forall k :: k in fps ==> k in all
    ensures Lists(fps + [fp], all - (ready - {fp}).Keys)
    ensures forall k :: k in fps + [fp] ==> k in all
    ensures Summaries(fps + [fp], all) == Summaries(fps, all) + [Summary(all[fp])]
  {
    hide Summary;
    assert (all - (ready - {fp}).Keys).Keys == (all - ready.Keys).Keys + {fp};
  }

  class CountAggregator {
    var pending: Pending
    var lastFlushMs: int
    var overflowDropped: nat

    function View(): Counts
      reads this
    {
      Counts(pending, lastFlushMs, overflowDropped)
    }

    constructor ()
      ensures View() == Counts(map[], 0, 0)
    {
      pending, lastFlushMs, overflowDropped := map[], 0, 0;
    }

    method Record(fp: Bytes, proto: CapturedEvent, now: int)
      requires Bounded(pending)
      modifies this
      ensures Bounded(pending) && View() == Recorded(old(View()), fp, proto, now)
      ensures Held(View()) == old(Held(View())) + 1
    {
      hide MapTotal;
      RecordedCounts(View(), fp, proto, now);
      if lastFlushMs == 0 { lastFlushMs := now; }
      var e := Entry(proto, 0);
      if fp !in pending {
        if |pending| >= MAX_ENTRIES {
          overflowDropped := overflowDropped + 1;
          return;
        }
      } else {
        e := pending[fp];
      }
      pending := pending[fp := Entry(proto, e.count + 1)];
    }

    method Drain(out: seq<string>, force: bool, now: int) returns (texts: seq<string>, ghost fps: seq<Bytes>)
      requires Bounded(pending)
      modifies this
      ensures View() == Drained(old(View()), now, force) && Bounded(pending)
      ensures Lists(fps, Ready(old(View()), now, force))
      ensures texts == out + Summaries(fps, Ready(old(View()), now, force))
      ensures
        if force || old(lastFlushMs) == 0 || now - old(lastFlushMs) >= 5000
        then pending == map[] && lastFlushMs == now && Lists(fps, old(pending)) && |texts| == |out| + |fps|
        else View() == old(View()) && texts == out
    {
      hide Summary, Summaries, Lists;
      NoneListed();
      if !force && lastFlushMs != 0 && now - lastFlushMs < FLUSH_INTERVAL_MS {
        return out, [];
      }
      if pending == map[] {
        lastFlushMs := now;
        return out, [];
      }
      var ready := pending;
      pending := map[];
      lastFlushMs := now;
      texts, fps := SerializeAll(out, ready);
    }
  }

  /** The summaries of the entries taken, in any order; this part runs outside the lock. */
  method SerializeAll(out: seq<string>, all: Pending) returns (texts: seq<string>, ghost fps: seq<Bytes>)
    ensures Lists(fps, all) && texts == out + Summaries(fps, all)
  {
    hide EventText, Summary, Summaries, Lists, WithCount, Written;
    texts, fps := out, [];
    var ready := all;
    NoneWritten(out, all);
    while ready != map[]
      invariant Written(out, all, ready, texts, fps)
      decreases |ready|
    {
      var fp :| fp in ready;
      var text := SerializeEvent(WithCount(ready[fp]));
      OneMoreWritten(out, all, ready, texts, fps, fp, text);
      texts := texts + [text];
      fps := fps + [fp];
      RemovedSmaller(ready, fp);
      ready := ready - {fp};
    }
    AllWritten(out, all, ready, texts, fps);
  }

  /** What has been written when these entries are left. */
  ghost predicate Written(out: seq<string>, all: Pending, ready: Pending, texts: seq<string>, fps: seq<Bytes>) {
    && Lists(fps, all - ready.Keys) && (forall k :: k in ready ==> k in all && ready[k] == all[k])
    && (forall k :: k in fps ==> k in all) && texts == out + Summaries(fps, all)
  }

  lemma {:induction false} NoneWritten(out: seq<string>, all: Pending)
    ensures Written(out, all, all, out, [])
  {
    hide Summary, Summaries, Lists;
    NoneListed();
    assert all - all.Keys == map[];
  }

  lemma {:induction false} OneMoreWritten(
    out: seq<string>, all: Pending, ready: Pending, texts: seq<string>, fps: seq<Bytes>, fp: Bytes, text: string)
    requires Written(out, all, ready, texts, fps) && fp in ready && text == EventText(WithCount(ready[fp]))
    ensures Written(out, all, ready - {fp}, texts + [text], fps + [fp])
  {
    hide EventText, Summary, Summaries, Lists, WithCount;
    OneMoreListed(fps, fp, all, ready);
    SummaryIs(ready[fp]);
  }

  lemma {:induction false} AllWritten(
    out: seq<string>, all: Pending, ready: Pending, texts: seq<string>, fps: seq<Bytes>)
    requires Written(out, all, ready, texts, fps) && ready == map[]
    ensures Lists(fps, all) && (forall k :: k in fps ==> k in all) && texts == out + Summaries(fps, all)
  {
    hide Summary, Summaries;
    assert all - ready.Keys == all;
  }
}
