/** The per-delegate counters of the statistics collection.  After a block every seed tries the same
    guarded update for every delegate; the guard is a watermark, the last height counted. */
module Statistics {
  import opened Wrappers

  datatype Stat = Stat(watermark: Option<int>, total: nat, online: nat, produced: nat)

  /** One attempt of one seed: the filter and the increments it sends to the database. */
  datatype Attempt = Attempt(key: string, height: int, verifier: bool, online: bool, producer: bool)

  type Stats = map<string, Stat>

  function One(b: bool): nat {
    if b then 1 else 0
  }

  /** The filter: a document with this key whose watermark is missing or below the height. */
  predicate Passes(db: Stats, a: Attempt) {
    a.key in db && (db[a.key].watermark.None? || db[a.key].watermark.value < a.height)
  }

  /** update_one, which the database performs in one step. */
  function Apply(db: Stats, a: Attempt): Stats {
    if Passes(db, a) then
      var s := db[a.key];
      db[a.key := Stat(Some(a.height), s.total + One(a.verifier), s.online + One(a.verifier && a.online),
                       s.produced + One(a.verifier && a.producer))]
    else db
  }

  /** Any interleaving of any number of seeds is a sequence of attempts. */
  function ApplyAll(db: Stats, run: seq<Attempt>): Stats {
    if run == [] then db else Apply(ApplyAll(db, run[..|run| - 1]), run[|run| - 1])
  }

  /** How often the run counted height h for key k. */
  function Counted(db: Stats, run: seq<Attempt>, k: string, h: int): nat {
    if run == [] then 0 else
      var front, last := run[..|run| - 1], run[|run| - 1];
      Counted(db, front, k, h) + One(last.key == k && last.height == h && Passes(ApplyAll(db, front), last))
  }

  /** How often the run counted any height for key k. */
  function CountedRounds(db: Stats, run: seq<Attempt>, k: string): nat {
    if run == [] then 0 else
      var front, last := run[..|run| - 1], run[|run| - 1];
      CountedRounds(db, front, k) + One(last.key == k && last.verifier && Passes(ApplyAll(db, front), last))
  }

  predicate Below(w: Option<int>, h: int) {
    w.None? || w.value < h
  }

  lemma {:induction false} KeysStay(db: Stats, run: seq<Attempt>)
    ensures ApplyAll(db, run).Keys == db.Keys
  {
    if run != [] {
      KeysStay(db, run[..|run| - 1]);
    }
  }

  /** The watermark never goes back. */
  lemma {:induction false} WatermarkGrows(db: Stats, run: seq<Attempt>, k: string, h: int)
    requires k in db
    ensures k in ApplyAll(db, run)
    ensures Below(ApplyAll(db, run)[k].watermark, h) ==> Below(db[k].watermark, h)
  {
    KeysStay(db, run);
    if run != [] {
      KeysStay(db, run[..|run| - 1]);
      WatermarkGrows(db, run[..|run| - 1], k, h);
    }
  }

  /** Some attempt for key k reached height h or more. */
  ghost predicate Reached(run: seq<Attempt>, k: string, h: int) {
    exists t :: 0 <= t < |run| && run[t].key == k && run[t].height >= h
  }

  lemma ReachedStep(run: seq<Attempt>, k: string, h: int)
    requires run != []
    ensures var last := run[|run| - 1];
            Reached(run, k, h) <==> Reached(run[..|run| - 1], k, h) || (last.key == k && last.height >= h)
  {
    var front, last := run[..|run| - 1], run[|run| - 1];
    if Reached(front, k, h) {
      var t :| 0 <= t < |front| && front[t].key == k && front[t].height >= h;
      assert run[t] == front[t];
    }
    if Reached(run, k, h) {
      var t :| 0 <= t < |run| && run[t].key == k && run[t].height >= h;
      assert t == |run| - 1 || front[t] == run[t];
    }
  }

  /** The watermark is below h exactly as long as it started there and no attempt reached h. */
  lemma {:induction false} WatermarkIs(db: Stats, run: seq<Attempt>, k: string, h: int)
    requires k in db
    ensures k in ApplyAll(db, run)
    ensures Below(ApplyAll(db, run)[k].watermark, h) <==> Below(db[k].watermark, h) && !Reached(run, k, h)
  {
    KeysStay(db, run);
    if run != [] {
      var front, last := run[..|run| - 1], run[|run| - 1];
      KeysStay(db, front);
      WatermarkIs(db, front, k, h);
      ReachedStep(run, k, h);
    }
  }

  /** The attempt at index t is the first to reach height h, and it is for h itself. */
  ghost predicate FirstAttempt(run: seq<Attempt>, k: string, h: int, t: nat) {
    t < |run| && run[t].key == k && run[t].height == h && !Reached(run[..t], k, h)
  }

  ghost predicate HasFirstAttempt(run: seq<Attempt>, k: string, h: int) {
    exists t: nat :: FirstAttempt(run, k, h, t)
  }

  /** Exactly once: height h is counted for key k once if its watermark starts below h and some
      attempt for h comes before every attempt for a later height, and otherwise not at all. */
  lemma {:induction false} ExactlyOnce(db: Stats, run: seq<Attempt>, k: string, h: int)
    requires k in db
    ensures Counted(db, run, k, h) <= 1
    ensures Counted(db, run, k, h) == 1 <==> Below(db[k].watermark, h) && HasFirstAttempt(run, k, h)
  {
    if run == [] {
    } else {
      var front, last := run[..|run| - 1], run[|run| - 1];
      ExactlyOnce(db, front, k, h);
      WatermarkIs(db, front, k, h);
      FirstAttemptStep(run, k, h);
    }
  }

  lemma FirstAttemptStep(run: seq<Attempt>, k: string, h: int)
    requires run != []
    ensures var front, last := run[..|run| - 1], run[|run| - 1];
            HasFirstAttempt(run, k, h) <==>
              HasFirstAttempt(front, k, h) || (last.key == k && last.height == h && !Reached(front, k, h))
    ensures HasFirstAttempt(run[..|run| - 1], k, h) ==> Reached(run[..|run| - 1], k, h)
  {
    var front, last := run[..|run| - 1], run[|run| - 1];
    forall t: nat | FirstAttempt(front, k, h, t) ensures FirstAttempt(run, k, h, t) && Reached(front, k, h) {
      assert run[..t] == front[..t] && run[t] == front[t];
    }
    forall t: nat | FirstAttempt(run, k, h, t) ensures t == |run| - 1 || FirstAttempt(front, k, h, t) {
      if t < |run| - 1 {
        assert run[..t] == front[..t] && run[t] == front[t];
      }
    }
    if last.key == k && last.height == h && !Reached(front, k, h) {
      assert FirstAttempt(run, k, h, |run| - 1);
    }
  }

  /** The total is what was counted, and the other counters never overtake it. */
  lemma {:induction false} CountersAgree(db: Stats, run: seq<Attempt>, k: string)
    requires k in db
    ensures k in ApplyAll(db, run)
    ensures var s, e := db[k], ApplyAll(db, run)[k];
            && e.total == s.total + CountedRounds(db, run, k)
            && (s.online <= s.total ==> e.online <= e.total)
            && (s.produced <= s.total ==> e.produced <= e.total)
  {
    KeysStay(db, run);
    if run != [] {
      KeysStay(db, run[..|run| - 1]);
      CountersAgree(db, run[..|run| - 1], k);
    }
  }

  // ---------- One seed's pass over the delegates ----------

  const DELEGATES: nat := 55
  const VERIFIERS: nat := 50

  datatype Delegate = Delegate(address: string, key: string, status: string)

  function AttemptFor(d: Delegate, i: nat, producer: string, height: int): Attempt {
    Attempt(d.key, height, i < VERIFIERS, d.status == "true", d.address == producer)
  }

  /** Whether the driver gets the update for a slot through to the database. */
  type Driver = nat -> bool

  /** The attempts of one pass, in slot order; slots without key or address are passed over, and an
      update the driver fails to send is only logged. */
  function Pass(delegates: seq<Delegate>, producer: string, height: int, driver: Driver): seq<Attempt> {
    if delegates == [] then [] else
      var i := |delegates| - 1;
      Pass(delegates[..i], producer, height, driver) +
      (if delegates[i].key == "" || delegates[i].address == "" || !driver(i) then []
       else [AttemptFor(delegates[i], i, producer, height)])
  }

  lemma PassStep(delegates: seq<Delegate>, i: nat, producer: string, height: int, driver: Driver)
    requires i < |delegates|
    ensures var d, before := delegates[i], Pass(delegates[..i], producer, height, driver);
            Pass(delegates[..i + 1], producer, height, driver) ==
              if d.key == "" || d.address == "" || !driver(i) then before
              else before + [AttemptFor(d, i, producer, height)]
  {
    assert delegates[..i + 1][..i] == delegates[..i];
  }

  lemma ApplyOneMore(db: Stats, run: seq<Attempt>, a: Attempt)
    ensures ApplyAll(db, run + [a]) == Apply(ApplyAll(db, run), a)
  {
    assert (run + [a])[..|run|] == run;
  }

  class Collection {
    var docs: Stats

    constructor (initial: Stats)
      ensures docs == initial
    {
      docs := initial;
    }

    /** mongoc_collection_update_one with the watermark filter, and no upsert. */
    method UpdateOne(a: Attempt)
      modifies this
      ensures docs == Apply(old(docs), a)
    {
      if a.key in docs && (docs[a.key].watermark.None? || docs[a.key].watermark.value < a.height) {
        var s := docs[a.key];
        var verifier := if a.verifier then 1 else 0;
        var online := if a.verifier && a.online then 1 else 0;
        var producer := if a.verifier && a.producer then 1 else 0;
        docs := docs[a.key := Stat(Some(a.height), s.total + verifier, s.online + online, s.produced + producer)];
      }
    }

    /** The loop of start_block_production, when no other seed comes in between. */
    method CountRound(delegates: seq<Delegate>, producer: string, height: int, driver: Driver)
      requires |delegates| == DELEGATES
      modifies this
      ensures docs == ApplyAll(old(docs), Pass(delegates, producer, height, driver))
    {
      hide Apply, AttemptFor;
      for i := 0 to |delegates|
        invariant docs == ApplyAll(old(docs), Pass(delegates[..i], producer, height, driver))
      {
        var d := delegates[i];
        PassStep(delegates, i, producer, height, driver);
        if d.key == "" {
          continue;
        }
        if d.address == "" {
          continue;
        }
        var a := AttemptFor(d, i, producer, height);
        ApplyOneMore(old(docs), Pass(delegates[..i], producer, height, driver), a);
        if driver(i) {
          UpdateOne(a);
        }
      }
      assert delegates[..|delegates|] == delegates;
    }
  }
}
