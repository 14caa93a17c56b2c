/** The vote ledger of one node: what server_receive_data_socket_node_to_node_vote_majority does in
    its two critical sections, and the node's own vote, as steps that interleave freely. */
module VoteLedger {
  import opened VerifierSlots

  /** A vote message; verified says whether its signature checks under the voter's address. */
  datatype Vote = Vote(voter: string, producer: string, key: string, proof: string, beta: string,
                       height: string, signature: string, verified: bool)

  // ---------- The critical sections as functions of the slots ----------

  /** The first slot with this address, |s| if there is none. */
  function First(s: seq<Slot>, a: string): (i: nat)
    ensures i <= |s|
  {
    if s == [] || s[0].address == a then 0 else 1 + First(s[1..], a)
  }

  lemma {:induction false} FirstIs(s: seq<Slot>, a: string)
    ensures var i := First(s, a);
            && (i < |s| ==> s[i].address == a)
            && (forall k :: 0 <= k < i ==> s[k].address != a)
  {
    if s != [] && s[0].address != a {
      FirstIs(s[1..], a);
    }
  }

  /** Whether the first section accepts the vote. */
  predicate Admits(s: seq<Slot>, m: Vote) {
    var i := First(s, m.voter);
    i < |s| && m.verified && !s[i].voted
  }

  function Marked(s: seq<Slot>, m: Vote): (t: seq<Slot>)
    requires Admits(s, m)
    ensures |t| == |s|
  {
    var i := First(s, m.voter);
    s[i := s[i].(voted := true, signature := m.signature, selected := m.producer)]
  }

  /** Whether the second section adds the vote to a total. */
  predicate Counts(s: seq<Slot>, m: Vote) {
    var j := First(s, m.producer);
    j < |s| && m.key == s[j].key && m.proof == s[j].proof && m.beta == s[j].beta
  }

  function Added(s: seq<Slot>, m: Vote): (t: seq<Slot>)
    requires Counts(s, m)
    ensures |t| == |s|
  {
    var j := First(s, m.producer);
    s[j := s[j].(total := s[j].total + 1)]
  }

  /** The node's own vote, cast in part 7 of the round for slot p. */
  function WithOwnVote(s: seq<Slot>, me: nat, p: nat): (t: seq<Slot>)
    requires me < |s| && p < |s|
    ensures |t| == |s|
  {
    var u := s[p := s[p].(total := s[p].total + 1)];
    u[me := u[me].(voted := true, selected := s[p].address)]
  }

  /** Storing the signature the wallet made for the node's own vote. */
  function WithSignature(s: seq<Slot>, a: string, signature: string): (t: seq<Slot>)
    ensures |t| == |s|
  {
    var i := First(s, a);
    if i < |s| then s[i := s[i].(signature := signature)] else s
  }

  // ---------- Interleavings ----------

  /** The slots, the handlers between their two sections by the slot of their voter, and, as
      history, the voters whose vote went into a total. */
  datatype Ledger = Ledger(slots: seq<Slot>, pending: map<nat, Vote>, counted: set<nat>)

  datatype Event =
    | Begin(m: Vote)
    | End(i: nat)
    | Own(me: nat, p: nat)
    | Store(address: string, signature: string)

  /** One step: the first section of a handler, the second section of one in flight (the height check
      between the two included), the node's own vote, or the storing of its signature. */
  function Step(l: Ledger, e: Event, height: string): (k: Ledger)
    ensures |k.slots| == |l.slots|
  {
    match e
    case Begin(m) =>
      if Admits(l.slots, m) then
        Ledger(Marked(l.slots, m), l.pending[First(l.slots, m.voter) := m], l.counted)
      else l
    case End(i) =>
      if i !in l.pending then l else
        var m := l.pending[i];
        if m.height == height && Counts(l.slots, m) then Ledger(Added(l.slots, m), l.pending - {i}, l.counted + {i})
        else Ledger(l.slots, l.pending - {i}, l.counted)
    case Own(me, p) =>
      if me < |l.slots| && p < |l.slots| then
        Ledger(WithOwnVote(l.slots, me, p), l.pending, l.counted + {me})
      else l
    case Store(a, signature) => Ledger(WithSignature(l.slots, a, signature), l.pending, l.counted)
  }

  function Run(l: Ledger, es: seq<Event>, height: string): (k: Ledger)
    ensures |k.slots| == |l.slots|
  {
    if es == [] then l else Step(Run(l, es[..|es| - 1], height), es[|es| - 1], height)
  }

  // ---------- Who voted for whom ----------

  /** The voters recorded as selecting slot j. */
  ghost function Selectors(s: seq<Slot>, j: nat): set<nat>
    requires j < |s|
  {
    set i: nat | i < |s| && s[i].voted && s[i].selected == s[j].address
  }

  /** The voters whose handler for slot j is between its sections. */
  ghost function InFlight(l: Ledger, j: nat): set<nat> {
    set i: nat | i in l.pending && First(l.slots, l.pending[i].producer) == j
  }

  /** The voters whose vote was added to the total of slot j. */
  ghost function Tallied(l: Ledger, j: nat): set<nat> {
    set i: nat | i in l.counted && i < |l.slots| && First(l.slots, l.slots[i].selected) == j
  }

  ghost predicate PendingIsMarked(l: Ledger) {
    forall i :: i in l.pending ==> i < |l.slots| && l.slots[i].voted && i !in l.counted &&
                                    l.slots[i].selected == l.pending[i].producer
  }

  ghost predicate CountedIsMarked(l: Ledger) {
    forall i :: i in l.counted ==> i < |l.slots| && l.slots[i].voted &&
                                    First(l.slots, l.slots[i].selected) < |l.slots|
  }

  /** Every total is exactly the number of votes added for its slot. */
  ghost predicate TotalsAreTallies(l: Ledger) {
    forall j :: 0 <= j < |l.slots| ==> l.slots[j].total == |Tallied(l, j)|
  }

  ghost predicate Invariant(l: Ledger) {
    PendingIsMarked(l) && CountedIsMarked(l) && TotalsAreTallies(l)
  }

  /** The list as a round starts it: no vote recorded. */
  ghost predicate Fresh(l: Ledger) {
    && l.pending == map[] && l.counted == {}
    && forall i :: 0 <= i < |l.slots| ==> !l.slots[i].voted && l.slots[i].total == 0
  }

  // ---------- The invariant ----------

  /** Same identities: everything but the votes. */
  ghost predicate SameList(s: seq<Slot>, t: seq<Slot>) {
    |s| == |t| && forall i :: 0 <= i < |s| ==>
      && s[i].address == t[i].address && s[i].key == t[i].key && s[i].proof == t[i].proof && s[i].beta == t[i].beta
  }

  lemma {:induction false} SameFirst(s: seq<Slot>, t: seq<Slot>, a: string)
    requires SameList(s, t)
    ensures First(s, a) == First(t, a)
  {
    if s != [] && s[0].address != a {
      SameFirst(s[1..], t[1..], a);
    }
  }

  /** s and t differ in slot i alone, and there not in who the slot is. */
  ghost predicate OnlySlot(s: seq<Slot>, t: seq<Slot>, i: nat) {
    SameList(s, t) && forall k :: 0 <= k < |s| && k != i ==> t[k] == s[k]
  }

  lemma SameFirsts(s: seq<Slot>, t: seq<Slot>)
    requires SameList(s, t)
    ensures forall a :: First(s, a) == First(t, a)
  {
    forall a ensures First(s, a) == First(t, a) {
      SameFirst(s, t, a);
    }
  }

  lemma MarkedIs(s: seq<Slot>, m: Vote)
    requires Admits(s, m)
    ensures var i, t := First(s, m.voter), Marked(s, m);
            && OnlySlot(s, t, i) && i < |s| && !s[i].voted
            && t[i].voted && t[i].selected == m.producer && t[i].total == s[i].total
  {
  }

  lemma AddedIs(s: seq<Slot>, m: Vote)
    requires Counts(s, m)
    ensures var j, t := First(s, m.producer), Added(s, m);
            && SameList(s, t) && j < |s|
            && (forall k :: 0 <= k < |s| ==> t[k].voted == s[k].voted && t[k].selected == s[k].selected)
            && (forall k :: 0 <= k < |s| ==> t[k].total == s[k].total + (if k == j then 1 else 0))
  {
  }

  lemma OwnVoteIs(s: seq<Slot>, me: nat, p: nat)
    requires me < |s| && p < |s|
    ensures var t := WithOwnVote(s, me, p);
            && SameList(s, t) && t[me].voted && t[me].selected == s[p].address
            && (forall k :: 0 <= k < |s| && k != me ==> t[k].voted == s[k].voted && t[k].selected == s[k].selected)
            && (forall k :: 0 <= k < |s| ==> t[k].total == s[k].total + (if k == p then 1 else 0))
  {
  }

  /** The votes counted so far stay what they are. */
  ghost predicate KeepsCounted(l: Ledger, k: Ledger) {
    SameList(l.slots, k.slots) &&
    forall i :: i in l.counted ==> i < |l.slots| && k.slots[i].voted && k.slots[i].selected == l.slots[i].selected
  }

  lemma TalliesStay(l: Ledger, k: Ledger)
    requires KeepsCounted(l, k) && k.counted == l.counted
    ensures forall j :: Tallied(k, j) == Tallied(l, j)
    ensures CountedIsMarked(l) ==> CountedIsMarked(k)
  {
    SameFirsts(l.slots, k.slots);
    hide First;
    forall j ensures Tallied(k, j) == Tallied(l, j) {
    }
  }

  lemma TallyGrows(l: Ledger, k: Ledger, i: nat, p: nat)
    requires KeepsCounted(l, k) && k.counted == l.counted + {i} && i !in l.counted && i < |l.slots|
    requires k.slots[i].voted && First(l.slots, k.slots[i].selected) == p < |l.slots|
    ensures forall j :: |Tallied(k, j)| == |Tallied(l, j)| + (if j == p then 1 else 0)
  {
    SameFirsts(l.slots, k.slots);
    hide First, SameList;
    assert Tallied(k, p) == Tallied(l, p) + {i};
    forall j | j != p ensures Tallied(k, j) == Tallied(l, j) {
    }
  }

  lemma MarksGrow(l: Ledger, k: Ledger, i: nat)
    requires KeepsCounted(l, k) && k.counted == l.counted + {i} && i < |l.slots| && CountedIsMarked(l)
    requires k.slots[i].voted && First(l.slots, k.slots[i].selected) < |l.slots|
    ensures CountedIsMarked(k)
  {
    SameFirsts(l.slots, k.slots);
    hide First, SameList;
  }

  lemma SignatureIs(s: seq<Slot>, a: string, signature: string)
    ensures var t := WithSignature(s, a, signature);
            && SameList(s, t)
            && (forall k :: 0 <= k < |s| ==>
                  t[k].voted == s[k].voted && t[k].selected == s[k].selected && t[k].total == s[k].total)
            && (First(s, a) < |s| ==> t[First(s, a)].signature == signature)
  {
  }

  lemma StoringKeeps(l: Ledger, a: string, signature: string)
    requires Invariant(l)
    ensures Invariant(Ledger(WithSignature(l.slots, a, signature), l.pending, l.counted))
  {
    SignatureIs(l.slots, a, signature);
    var k := Ledger(WithSignature(l.slots, a, signature), l.pending, l.counted);
    hide First, WithSignature, Tallied, SameList;
    assert PendingIsMarked(k);
    TalliesStay(l, k);
  }

  lemma BeginKeeps(l: Ledger, m: Vote)
    requires Invariant(l) && Admits(l.slots, m)
    ensures Invariant(Ledger(Marked(l.slots, m), l.pending[First(l.slots, m.voter) := m], l.counted))
  {
    MarkedIs(l.slots, m);
    hide First, Marked, Admits, Tallied;
    TalliesStay(l, Ledger(Marked(l.slots, m), l.pending[First(l.slots, m.voter) := m], l.counted));
  }

  lemma TotalsGrow(l: Ledger, k: Ledger, p: nat)
    requires |k.slots| == |l.slots| && TotalsAreTallies(l)
    requires forall j :: |Tallied(k, j)| == |Tallied(l, j)| + (if j == p then 1 else 0)
    requires forall j :: 0 <= j < |l.slots| ==> k.slots[j].total == l.slots[j].total + (if j == p then 1 else 0)
    ensures TotalsAreTallies(k)
  {
    hide Tallied;
  }

  lemma CountingPending(l: Ledger, i: nat)
    requires Invariant(l) && i in l.pending && Counts(l.slots, l.pending[i])
    ensures PendingIsMarked(Ledger(Added(l.slots, l.pending[i]), l.pending - {i}, l.counted + {i}))
  {
    AddedIs(l.slots, l.pending[i]);
    hide First, Added, Counts, Tallied, SameList, CountedIsMarked, TotalsAreTallies;
  }

  lemma CountingCounted(l: Ledger, i: nat)
    requires Invariant(l) && i in l.pending && Counts(l.slots, l.pending[i])
    ensures var k := Ledger(Added(l.slots, l.pending[i]), l.pending - {i}, l.counted + {i});
            && KeepsCounted(l, k) && i < |l.slots| && k.slots[i].voted && i !in l.counted
            && k.slots[i].selected == l.pending[i].producer
  {
    AddedIs(l.slots, l.pending[i]);
    hide First, Added, Counts, Tallied, SameList, TotalsAreTallies;
  }

  lemma CountingKeeps(l: Ledger, i: nat)
    requires Invariant(l) && i in l.pending && Counts(l.slots, l.pending[i])
    ensures Invariant(Ledger(Added(l.slots, l.pending[i]), l.pending - {i}, l.counted + {i}))
  {
    var k := Ledger(Added(l.slots, l.pending[i]), l.pending - {i}, l.counted + {i});
    var p := First(l.slots, l.pending[i].producer);
    CountingPending(l, i);
    CountingCounted(l, i);
    AddedIs(l.slots, l.pending[i]);
    hide PendingIsMarked, First, Added, Counts, Tallied, KeepsCounted, CountedIsMarked, TotalsAreTallies;
    TallyGrows(l, k, i, p);
    MarksGrow(l, k, i);
    TotalsGrow(l, k, p);
  }

  lemma DroppingKeeps(l: Ledger, i: nat)
    requires Invariant(l)
    ensures Invariant(Ledger(l.slots, l.pending - {i}, l.counted))
  {
    hide First, Tallied;
    TalliesStay(l, Ledger(l.slots, l.pending - {i}, l.counted));
  }

  lemma OwnPending(l: Ledger, me: nat, p: nat)
    requires Invariant(l) && me < |l.slots| && p < |l.slots| && me !in l.pending
    ensures PendingIsMarked(Ledger(WithOwnVote(l.slots, me, p), l.pending, l.counted + {me}))
  {
    OwnVoteIs(l.slots, me, p);
    hide First, WithOwnVote, Tallied, SameList, CountedIsMarked, TotalsAreTallies;
  }

  lemma OwnCounted(l: Ledger, me: nat, p: nat)
    requires Invariant(l) && me < |l.slots| && p < |l.slots| && me !in l.counted
    ensures KeepsCounted(l, Ledger(WithOwnVote(l.slots, me, p), l.pending, l.counted + {me}))
  {
    OwnVoteIs(l.slots, me, p);
    hide First, WithOwnVote, Tallied, SameList, PendingIsMarked, TotalsAreTallies;
  }

  lemma OwnKeeps(l: Ledger, me: nat, p: nat)
    requires Invariant(l) && me < |l.slots| && p < |l.slots|
    requires me !in l.pending && me !in l.counted && First(l.slots, l.slots[p].address) == p
    ensures Invariant(Ledger(WithOwnVote(l.slots, me, p), l.pending, l.counted + {me}))
  {
    var k := Ledger(WithOwnVote(l.slots, me, p), l.pending, l.counted + {me});
    OwnPending(l, me, p);
    OwnCounted(l, me, p);
    OwnVoteIs(l.slots, me, p);
    hide PendingIsMarked, First, WithOwnVote, Tallied, KeepsCounted, CountedIsMarked, TotalsAreTallies;
    TallyGrows(l, k, me, p);
    MarksGrow(l, k, me);
    TotalsGrow(l, k, p);
  }

  /** The node's own vote finds none recorded under its address, neither counted nor in flight, and
      goes to the first slot with the producer's address. */
  ghost predicate OwnVoteFits(l: Ledger, e: Event) {
    e.Own? && e.me < |l.slots| && e.p < |l.slots| ==>
      e.me !in l.pending && e.me !in l.counted && First(l.slots, l.slots[e.p].address) == e.p
  }

  /** Every step of every handler keeps the books in order. */
  lemma StepKeeps(l: Ledger, e: Event, height: string)
    requires Invariant(l) && OwnVoteFits(l, e)
    ensures Invariant(Step(l, e, height))
  {
    hide First, Invariant, Marked, Added, WithOwnVote, WithSignature, Admits, Counts;
    match e
    case Begin(m) =>
      if Admits(l.slots, m) {
        BeginKeeps(l, m);
      }
    case End(i) =>
      if i in l.pending {
        if l.pending[i].height == height && Counts(l.slots, l.pending[i]) {
          CountingKeeps(l, i);
        } else {
          DroppingKeeps(l, i);
        }
      }
    case Own(me, p) =>
      if me < |l.slots| && p < |l.slots| {
        OwnKeeps(l, me, p);
      }
    case Store(a, signature) => StoringKeeps(l, a, signature);
  }

  /** A step forgets no counted vote. */
  lemma StepKeepsCounted(l: Ledger, e: Event, height: string)
    requires Invariant(l) && OwnVoteFits(l, e)
    ensures KeepsCounted(l, Step(l, e, height)) && l.counted <= Step(l, e, height).counted
  {
    hide First, Marked, Added, WithOwnVote, WithSignature, SameList, Tallied;
    match e
    case Begin(m) => if Admits(l.slots, m) { MarkedIs(l.slots, m); } else { SameListRefl(l.slots); }
    case End(i) =>
      SameListRefl(l.slots);
      if i in l.pending && Counts(l.slots, l.pending[i]) {
        AddedIs(l.slots, l.pending[i]);
      }
    case Own(me, p) =>
      if me < |l.slots| && p < |l.slots| { OwnVoteIs(l.slots, me, p); } else { SameListRefl(l.slots); }
    case Store(a, signature) => SignatureIs(l.slots, a, signature);
  }

  lemma SameListRefl(s: seq<Slot>)
    ensures SameList(s, s)
  {
  }

  lemma FreshHolds(l: Ledger)
    requires Fresh(l)
    ensures Invariant(l)
  {
    forall j | 0 <= j < |l.slots| ensures l.slots[j].total == |Tallied(l, j)| {
      assert Tallied(l, j) == {};
    }
  }

  // ---------- Whole runs ----------

  /** What is asked of a round's events: the node votes at most once, for the first slot of an
      address, and nobody else gets a verified vote through under the node's own address. */
  ghost predicate Disciplined(s: seq<Slot>, me: nat, es: seq<Event>) {
    && me < |s|
    && (forall k :: 0 <= k < |es| && es[k].Own? ==>
          es[k].me == me && es[k].p < |s| && First(s, s[es[k].p].address) == es[k].p)
    && (forall j, k :: 0 <= j < k < |es| ==> !(es[j].Own? && es[k].Own?))
    && (forall k :: 0 <= k < |es| && es[k].Begin? && es[k].m.verified ==> es[k].m.voter != s[me].address)
  }

  lemma {:induction false} RunKeepsList(l: Ledger, es: seq<Event>, height: string)
    ensures SameList(l.slots, Run(l, es, height).slots)
  {
    if es != [] {
      var k := Run(l, es[..|es| - 1], height);
      RunKeepsList(l, es[..|es| - 1], height);
      StepKeepsList(k, es[|es| - 1], height);
    }
  }

  lemma StepKeepsList(l: Ledger, e: Event, height: string)
    ensures SameList(l.slots, Step(l, e, height).slots)
  {
    match e
    case Begin(m) => if Admits(l.slots, m) { MarkedIs(l.slots, m); }
    case End(i) => if i in l.pending && Counts(l.slots, l.pending[i]) { AddedIs(l.slots, l.pending[i]); }
    case Own(me, p) => if me < |l.slots| && p < |l.slots| { OwnVoteIs(l.slots, me, p); }
    case Store(a, signature) => SignatureIs(l.slots, a, signature);
  }

  ghost predicate NoOwnVote(es: seq<Event>) {
    forall k :: 0 <= k < |es| ==> !es[k].Own?
  }

  lemma StepLeavesAlone(l: Ledger, e: Event, height: string, me: nat)
    requires me < |l.slots| && !e.Own?
    requires e.Begin? && e.m.verified ==> e.m.voter != l.slots[me].address
    requires me !in l.pending && me !in l.counted
    ensures me !in Step(l, e, height).pending && me !in Step(l, e, height).counted
  {
    if e.Begin? {
      FirstIs(l.slots, e.m.voter);
    }
  }

  lemma {:induction false} OwnSlotWaits(l: Ledger, es: seq<Event>, height: string, me: nat)
    requires Fresh(l) && Disciplined(l.slots, me, es) && NoOwnVote(es)
    ensures me !in Run(l, es, height).pending && me !in Run(l, es, height).counted
  {
    if es != [] {
      OwnSlotWaits(l, es[..|es| - 1], height, me);
      RunKeepsList(l, es[..|es| - 1], height);
      StepLeavesAlone(Run(l, es[..|es| - 1], height), es[|es| - 1], height, me);
    }
  }

  /** Over every interleaving of a round. */
  lemma {:induction false} RunKeeps(l: Ledger, es: seq<Event>, height: string, me: nat)
    requires Fresh(l) && Disciplined(l.slots, me, es)
    ensures Invariant(Run(l, es, height))
  {
    hide Invariant, Step;
    FreshHolds(l);
    if es != [] {
      var front, last := es[..|es| - 1], es[|es| - 1];
      RunKeeps(l, front, height, me);
      RunKeepsList(l, front, height);
      SameFirsts(l.slots, Run(l, front, height).slots);
      if last.Own? {
        OwnSlotWaits(l, front, height, me);
      }
      StepKeeps(Run(l, front, height), last, height);
    }
  }

  // ---------- What the books say ----------

  ghost function Voters(l: Ledger): set<nat> {
    set i: nat | i < |l.slots| && l.slots[i].voted
  }

  lemma SubsetSize(a: set<nat>, b: set<nat>)
    requires a <= b
    ensures |a| <= |b|
  {
    assert b == a + (b - a);
  }

  /** A total plus the handlers in flight for it never exceeds the voters recorded for it. */
  lemma CountedOnce(l: Ledger, j: nat)
    requires Invariant(l) && j < |l.slots|
    ensures l.slots[j].total + |InFlight(l, j)| <= |Selectors(l.slots, j)|
  {
    var t, f := Tallied(l, j), InFlight(l, j);
    forall i | i in t + f ensures i in Selectors(l.slots, j) {
      FirstIs(l.slots, l.slots[i].selected);
    }
    assert t !! f;
    assert |t + f| == |t| + |f|;
    SubsetSize(t + f, Selectors(l.slots, j));
  }

  function SumOfTotals(s: seq<Slot>): nat {
    if s == [] then 0 else SumOfTotals(s[..|s| - 1]) + s[|s| - 1].total
  }

  ghost function TalliedBelow(l: Ledger, n: nat): set<nat> {
    set i: nat | i in l.counted && i < |l.slots| && First(l.slots, l.slots[i].selected) < n
  }

  lemma {:induction false} SumIsCounted(l: Ledger, n: nat)
    requires Invariant(l) && n <= |l.slots|
    ensures SumOfTotals(l.slots[..n]) == |TalliedBelow(l, n)|
  {
    if n == 0 {
      assert TalliedBelow(l, 0) == {};
    } else {
      SumIsCounted(l, n - 1);
      assert l.slots[..n][..n - 1] == l.slots[..n - 1];
      hide First;
      assert TalliedBelow(l, n) == TalliedBelow(l, n - 1) + Tallied(l, n - 1);
      assert TalliedBelow(l, n - 1) !! Tallied(l, n - 1);
    }
  }

  /** The totals together with the handlers in flight never exceed the number of voters. */
  lemma TotalsWithinVoters(l: Ledger)
    requires Invariant(l)
    ensures SumOfTotals(l.slots) + |l.pending| <= |Voters(l)|
  {
    SumIsCounted(l, |l.slots|);
    assert l.slots[..|l.slots|] == l.slots;
    assert TalliedBelow(l, |l.slots|) == l.counted;
    assert l.counted !! l.pending.Keys;
    assert |l.counted + l.pending.Keys| == |l.counted| + |l.pending.Keys|;
    SubsetSize(l.counted + l.pending.Keys, Voters(l));
  }

  /** Two thirds of n, rounded up, as the round computes it. */
  function Needed(n: nat): nat {
    (2 * n + 2) / 3
  }

  /** With at most n voters, a slot with two thirds of n votes is the unique maximum. */
  lemma TwoThirdsIsUniqueMaximum(l: Ledger, n: nat, j: nat, k: nat)
    requires Invariant(l) && 0 < n && |Voters(l)| <= n && j < |l.slots| && k < |l.slots| && j != k
    requires l.slots[j].total >= Needed(n)
    ensures l.slots[k].total < l.slots[j].total
  {
    var a, b := Tallied(l, j), Tallied(l, k);
    assert a !! b;
    assert |a + b| == |a| + |b|;
    SubsetSize(a + b, Voters(l));
  }

  /** The list names n members, and the slots after them are blank. */
  ghost predicate BlankFrom(s: seq<Slot>, n: nat) {
    n <= |s| && forall i :: n <= i < |s| ==> s[i].address == ""
  }

  ghost predicate VotersAreNamed(s: seq<Slot>) {
    forall i :: 0 <= i < |s| && s[i].voted ==> s[i].address != ""
  }

  lemma StepKeepsNames(l: Ledger, e: Event, height: string)
    requires VotersAreNamed(l.slots)
    requires e.Begin? && e.m.verified ==> e.m.voter != ""
    requires e.Own? && e.me < |l.slots| ==> l.slots[e.me].address != ""
    ensures VotersAreNamed(Step(l, e, height).slots)
  {
    match e
    case Begin(m) =>
      if Admits(l.slots, m) {
        MarkedIs(l.slots, m);
        FirstIs(l.slots, m.voter);
      }
    case End(i) => if i in l.pending && Counts(l.slots, l.pending[i]) { AddedIs(l.slots, l.pending[i]); }
    case Own(me, p) => if me < |l.slots| && p < |l.slots| { OwnVoteIs(l.slots, me, p); }
    case Store(a, signature) => SignatureIs(l.slots, a, signature);
  }

  /** Nobody gets a verified vote through under the empty address, and the node has an address. */
  ghost predicate NobodyAnonymous(s: seq<Slot>, me: nat, es: seq<Event>) {
    && me < |s| && s[me].address != ""
    && forall k :: 0 <= k < |es| && es[k].Begin? && es[k].m.verified ==> es[k].m.voter != ""
  }

  lemma {:induction false} RunKeepsNames(l: Ledger, es: seq<Event>, height: string, me: nat)
    requires Fresh(l) && Disciplined(l.slots, me, es) && NobodyAnonymous(l.slots, me, es)
    ensures VotersAreNamed(Run(l, es, height).slots)
  {
    if es != [] {
      var front, last := es[..|es| - 1], es[|es| - 1];
      RunKeepsNames(l, front, height, me);
      RunKeepsList(l, front, height);
      assert last == es[|es| - 1];
      StepKeepsNames(Run(l, front, height), last, height);
    }
  }

  lemma NamedVotersFit(l: Ledger, n: nat)
    requires BlankFrom(l.slots, n) && VotersAreNamed(l.slots)
    ensures |Voters(l)| <= n
  {
    BoundedSize(Voters(l), n);
  }

  lemma {:induction false} BoundedSize(a: set<nat>, n: nat)
    requires forall i :: i in a ==> i < n
    ensures |a| <= n
  {
    if n == 0 {
      assert a == {};
    } else {
      BoundedSize(a - {n - 1}, n - 1);
      assert |a| <= |a - {n - 1}| + 1;
    }
  }

  /** Over every interleaving of a round: a slot with two thirds of the n members' votes has more
      votes than any other. */
  lemma RunHasUniqueMaximum(l: Ledger, es: seq<Event>, height: string, me: nat, n: nat, j: nat, k: nat)
    requires Fresh(l) && Disciplined(l.slots, me, es) && NobodyAnonymous(l.slots, me, es)
    requires 0 < n && BlankFrom(l.slots, n) && j < |l.slots| && k < |l.slots| && j != k
    requires Run(l, es, height).slots[j].total >= Needed(n)
    ensures Run(l, es, height).slots[k].total < Run(l, es, height).slots[j].total
  {
    RunKeeps(l, es, height, me);
    RunKeepsList(l, es, height);
    RunKeepsNames(l, es, height, me);
    NamedVotersFit(Run(l, es, height), n);
    hide Invariant, Run;
    TwoThirdsIsUniqueMaximum(Run(l, es, height), n, j, k);
  }

  // ---------- The node's own address ----------

  /** A second vote of the same voter moves it between tallies or leaves them as they are. */
  lemma RecountedTally(l: Ledger, k: Ledger, me: nat, p: nat, q: nat)
    requires SameList(l.slots, k.slots) && k.counted == l.counted && me in l.counted && me < |l.slots|
    requires q == First(l.slots, l.slots[me].selected) && p == First(l.slots, k.slots[me].selected)
    requires forall i :: 0 <= i < |l.slots| && i != me ==> k.slots[i].selected == l.slots[i].selected
    ensures |Tallied(k, q)| == |Tallied(l, q)| - (if p == q then 0 else 1)
  {
    SameFirsts(l.slots, k.slots);
    hide First, SameList;
    if q == p {
      assert Tallied(k, q) == Tallied(l, q);
    } else {
      assert Tallied(k, q) == Tallied(l, q) - {me};
    }
  }

  lemma OwnVoteBreaks(l: Ledger, me: nat, p: nat)
    requires Invariant(l) && me < |l.slots| && p < |l.slots| && First(l.slots, l.slots[p].address) == p
    requires me in l.counted
    ensures !TotalsAreTallies(Ledger(WithOwnVote(l.slots, me, p), l.pending, l.counted + {me}))
  {
    var k := Ledger(WithOwnVote(l.slots, me, p), l.pending, l.counted + {me});
    var q := First(l.slots, l.slots[me].selected);
    OwnVoteIs(l.slots, me, p);
    RecountedTally(l, k, me, p, q);
    hide First, WithOwnVote, SameList, Tallied;
    assert l.slots[q].total == |Tallied(l, q)|;
    assert k.slots[q].total != |Tallied(k, q)|;
  }

  /** Casting the own vote keeps the books in order if and only if no vote under the node's address
      has been counted or is in flight. */
  lemma OwnVoteSafeIff(l: Ledger, me: nat, p: nat, height: string)
    requires Invariant(l) && me < |l.slots| && p < |l.slots| && First(l.slots, l.slots[p].address) == p
    ensures Invariant(Step(l, Own(me, p), height)) <==> me !in l.counted && me !in l.pending
  {
    if me in l.counted {
      OwnVoteBreaks(l, me, p);
    } else if me !in l.pending {
      OwnKeeps(l, me, p);
    }
  }

  /** As the code sees it: a slot not marked as voted is enough. */
  lemma UnvotedIsSafe(l: Ledger, me: nat, p: nat, height: string)
    requires Invariant(l) && me < |l.slots| && p < |l.slots| && First(l.slots, l.slots[p].address) == p
    requires !l.slots[me].voted
    ensures Invariant(Step(l, Own(me, p), height))
  {
    OwnVoteSafeIff(l, me, p, height);
  }

  lemma FirstOfTwo(a: Slot, b: Slot)
    requires a.address == "XCA1" && b.address == "XCA2"
    ensures First([a, b], "XCA1") == 0 && First([a, b], "XCA2") == 1
  {
    assert "XCA1"[3] != "XCA2"[3];
    assert [a, b][1..] == [b];
  }

  lemma RunOfThree(l: Ledger, e1: Event, e2: Event, e3: Event, height: string)
    ensures Run(l, [e1, e2, e3], height) == Step(Step(Step(l, e1, height), e2, height), e3, height)
  {
    hide Step;
    assert [e1][..0] == [];
    assert Run(l, [e1], height) == Step(l, e1, height);
    assert [e1, e2][..1] == [e1];
    assert Run(l, [e1, e2], height) == Step(Step(l, e1, height), e2, height);
    assert [e1, e2, e3][..2] == [e1, e2];
  }

  /** Why the node's own address must not come from outside: with two slots, one remote vote under
      it and then the own vote leave a total with no voter behind it. */
  lemma OwnAddressCounterexample()
    ensures exists l: Ledger, es: seq<Event>, height: string, j: nat ::
      Fresh(l) && j < |l.slots| && Run(l, es, height).slots[j].total > |Selectors(Run(l, es, height).slots, j)|
  {
    var a, b := BLANK.(address := "XCA1"), BLANK.(address := "XCA2");
    var l := Ledger([a, b], map[], {});
    var m := Vote("XCA1", "XCA2", "", "", "", "", "", true);
    var l1 := Ledger([a.(voted := true, selected := "XCA2"), b], map[0 := m], {});
    var l2 := Ledger([a.(voted := true, selected := "XCA2"), b.(total := 1)], map[], {0});
    var l3 := Ledger([a.(voted := true, selected := "XCA1", total := 1), b.(total := 1)], map[], {0});
    FirstOfTwo(a, b);
    FirstOfTwo(l1.slots[0], l1.slots[1]);
    assert Step(l, Begin(m), "") == l1;
    assert Step(l1, End(0), "").slots == l2.slots;
    assert Step(l2, Own(0, 0), "").slots == l3.slots;
    RunOfThree(l, Begin(m), End(0), Own(0, 0), "");
    assert Selectors(l3.slots, 1) == {};
  }
}
