/** What the counters come to: over any interleaving of the seeds, and for each delegate over one pass. */
module StatisticsCounts {
  import opened Wrappers
  import opened Statistics

  // ---------- Over an interleaving ----------

  /** Attempt t counts for key k: it is for a height above the watermark at the start and above the height
      of every attempt for k before it. */
  ghost predicate IsEffective(start: Option<int>, run: seq<Attempt>, k: string, t: nat) {
    && t < |run| && run[t].key == k
    && (start.None? || start.value < run[t].height)
    && (forall u :: 0 <= u < t && run[u].key == k ==> run[u].height < run[t].height)
  }

  predicate IsRound(a: Attempt) {
    a.verifier
  }

  predicate IsOnlineRound(a: Attempt) {
    a.verifier && a.online
  }

  predicate IsProducedRound(a: Attempt) {
    a.verifier && a.producer
  }

  /** The attempts that count for key k and are of some kind. */
  ghost function CountingFor(start: Option<int>, run: seq<Attempt>, k: string, kind: Attempt -> bool): set<nat> {
    set t: nat | t < |run| && IsEffective(start, run, k, t) && kind(run[t])
  }

  lemma EffectiveMore(start: Option<int>, run: seq<Attempt>, k: string, t: nat)
    requires run != []
    ensures var n := |run| - 1;
            IsEffective(start, run, k, t) <==>
            IsEffective(start, run[..n], k, t) || (t == n && IsEffective(start, run, k, n))
    ensures IsEffective(start, run[..|run| - 1], k, t) ==> t < |run| - 1 && run[t] == run[..|run| - 1][t]
  {
    var n := |run| - 1;
    assert forall u :: 0 <= u < n ==> run[..n][u] == run[u];
  }

  /** The filter passes exactly the attempts that count. */
  lemma PassesIs(db: Stats, run: seq<Attempt>, k: string)
    requires k in db && run != [] && run[|run| - 1].key == k
    ensures Passes(ApplyAll(db, run[..|run| - 1]), run[|run| - 1]) <==>
            IsEffective(db[k].watermark, run, k, |run| - 1)
  {
    var n := |run| - 1;
    var front, h := run[..n], run[n].height;
    WatermarkIs(db, front, k, h);
    hide ApplyAll;
    if Reached(front, k, h) {
      var t :| 0 <= t < |front| && front[t].key == k && front[t].height >= h;
      assert run[t] == front[t];
    } else {
      forall u | 0 <= u < n && run[u].key == k ensures run[u].height < h {
        assert front[u] == run[u];
      }
    }
  }

  lemma CountingMore(start: Option<int>, run: seq<Attempt>, k: string, kind: Attempt -> bool)
    requires run != []
    ensures var n := |run| - 1;
            |CountingFor(start, run, k, kind)| ==
            |CountingFor(start, run[..n], k, kind)| + One(IsEffective(start, run, k, n) && kind(run[n]))
  {
    var n := |run| - 1;
    forall t: nat
      ensures IsEffective(start, run, k, t) <==>
              IsEffective(start, run[..n], k, t) || (t == n && IsEffective(start, run, k, n))
      ensures IsEffective(start, run[..n], k, t) ==> t < n && run[t] == run[..n][t]
    {
      EffectiveMore(start, run, k, t);
    }
    hide IsEffective;
    var a, b := CountingFor(start, run[..n], k, kind), CountingFor(start, run, k, kind);
    if IsEffective(start, run, k, n) && kind(run[n]) {
      assert b == a + {n};
    } else {
      assert b == a;
    }
  }

  /** Each counter grows by the number of attempts that count for it. */
  lemma {:induction false} CountersAre(db: Stats, run: seq<Attempt>, k: string)
    requires k in db
    ensures k in ApplyAll(db, run)
    ensures var s, e := db[k], ApplyAll(db, run)[k];
            && e.total == s.total + |CountingFor(s.watermark, run, k, IsRound)|
            && e.online == s.online + |CountingFor(s.watermark, run, k, IsOnlineRound)|
            && e.produced == s.produced + |CountingFor(s.watermark, run, k, IsProducedRound)|
  {
    KeysStay(db, run);
    if run != [] {
      var front, last := run[..|run| - 1], run[|run| - 1];
      KeysStay(db, front);
      CountersAre(db, front, k);
      CountingMore(db[k].watermark, run, k, IsRound);
      CountingMore(db[k].watermark, run, k, IsOnlineRound);
      CountingMore(db[k].watermark, run, k, IsProducedRound);
      if last.key == k {
        PassesIs(db, run, k);
      }
      hide CountingFor;
    }
  }

  // ---------- For each delegate ----------

  /** What one pass at a height makes of the document of the delegate in slot i: nothing if the height was
      counted; else the height becomes the watermark, and in the first fifty slots a round is counted, an
      online one if the status is "true", a produced one if the delegate is the producer. */
  ghost predicate IsCounted(s: Stat, e: Stat, d: Delegate, i: nat, producer: string, height: int) {
    if s.watermark.Some? && s.watermark.value >= height then e == s else
      && e.watermark == Some(height)
      && e.total - s.total == (if i < 50 then 1 else 0)
      && e.online - s.online == (if i < 50 && d.status == "true" then 1 else 0)
      && e.produced - s.produced == (if i < 50 && d.address == producer then 1 else 0)
  }

  /** Slot i is up for counting: it has a key and an address, and its update gets through. */
  predicate TakesPart(delegates: seq<Delegate>, i: nat, driver: Driver) {
    i < |delegates| && delegates[i].key != "" && delegates[i].address != "" && driver(i)
  }

  ghost predicate DistinctKeys(delegates: seq<Delegate>) {
    forall i, j :: 0 <= i < j < |delegates| && delegates[i].key != "" ==> delegates[i].key != delegates[j].key
  }

  lemma OneSlot(db: Stats, d: Delegate, i: nat, producer: string, height: int)
    requires d.key in db
    ensures var e := Apply(db, AttemptFor(d, i, producer, height));
            && d.key in e && IsCounted(db[d.key], e[d.key], d, i, producer, height)
            && forall k :: k in db && k != d.key ==> k in e && e[k] == db[k]
  {
  }

  lemma Untouched(db: Stats, d: Delegate, i: nat, producer: string, height: int, k: string)
    requires k != d.key
    ensures var e := Apply(db, AttemptFor(d, i, producer, height));
            (k in e <==> k in db) && (k in db ==> e[k] == db[k])
  {
  }

  lemma PassMore(db: Stats, delegates: seq<Delegate>, producer: string, height: int, driver: Driver)
    requires delegates != []
    ensures var n := |delegates| - 1;
            var before := ApplyAll(db, Pass(delegates[..n], producer, height, driver));
            ApplyAll(db, Pass(delegates, producer, height, driver)) ==
            if TakesPart(delegates, n, driver) then Apply(before, AttemptFor(delegates[n], n, producer, height)) else before
  {
    var n := |delegates| - 1;
    PassStep(delegates, n, producer, height, driver);
    assert delegates[..n + 1] == delegates;
    hide ApplyAll, Pass, AttemptFor, Apply;
    ApplyOneMore(db, Pass(delegates[..n], producer, height, driver), AttemptFor(delegates[n], n, producer, height));
  }

  /** A document whose key no slot takes part with stays as it is. */
  lemma {:induction false} NotInPass(db: Stats, delegates: seq<Delegate>, producer: string, height: int, driver: Driver,
                                     k: string)
    requires forall i :: 0 <= i < |delegates| && TakesPart(delegates, i, driver) ==> delegates[i].key != k
    ensures var e := ApplyAll(db, Pass(delegates, producer, height, driver));
            (k in e <==> k in db) && (k in db ==> e[k] == db[k])
  {
    if delegates != [] {
      var n := |delegates| - 1;
      var front := delegates[..n];
      assert forall i :: 0 <= i < n && TakesPart(front, i, driver) ==> TakesPart(delegates, i, driver);
      NotInPass(db, front, producer, height, driver, k);
      PassMore(db, delegates, producer, height, driver);
      hide ApplyAll, Pass, AttemptFor, Apply;
      if TakesPart(delegates, n, driver) {
        Untouched(ApplyAll(db, Pass(front, producer, height, driver)), delegates[n], n, producer, height, k);
      }
    }
  }

  /** One pass counts the height once for every delegate that takes part and has a document. */
  lemma {:induction false} PassCounts(db: Stats, delegates: seq<Delegate>, producer: string, height: int, driver: Driver,
                                      i: nat)
    requires DistinctKeys(delegates) && TakesPart(delegates, i, driver) && delegates[i].key in db
    ensures var e, k := ApplyAll(db, Pass(delegates, producer, height, driver)), delegates[i].key;
            k in e && IsCounted(db[k], e[k], delegates[i], i, producer, height)
  {
    var n, k := |delegates| - 1, delegates[i].key;
    var front := delegates[..n];
    PassMore(db, delegates, producer, height, driver);
    assert forall j :: 0 <= j < n ==> front[j] == delegates[j];
    hide ApplyAll, Pass, AttemptFor, Apply, IsCounted;
    var before := ApplyAll(db, Pass(front, producer, height, driver));
    if i < n {
      PassCounts(db, front, producer, height, driver, i);
      if TakesPart(delegates, n, driver) {
        Untouched(before, delegates[n], n, producer, height, k);
      }
    } else {
      NotInPass(db, front, producer, height, driver, k);
      OneSlot(before, delegates[n], n, producer, height);
    }
  }
}
