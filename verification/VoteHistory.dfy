/** What a ledger holds in terms of the messages alone: who has voted, which handlers are between their two
    sections, and which votes a total is made of. */
module VoteHistory {
  import opened VerifierSlots
  import opened VoteLedger

  // ---------- Events ----------

  /** Slot i is the first under address a. */
  ghost predicate IsFirst(s: seq<Slot>, a: string, i: nat) {
    i < |s| && s[i].address == a && forall k :: 0 <= k < i ==> s[k].address != a
  }

  /** Event v is a vote of slot i: a verified message under its address, or the node's own. */
  ghost predicate Speaks(s: seq<Slot>, es: seq<Event>, i: nat, v: nat) {
    v < |es| &&
    match es[v]
    case Begin(m) => m.verified && IsFirst(s, m.voter, i)
    case Own(me, p) => me == i && i < |s| && p < |s|
    case End(_) => false
    case Store(_, _) => false
  }

  /** Event u is the vote m, the first of slot i, and its handler has not come to its second section. */
  ghost predicate IsHandled(s: seq<Slot>, es: seq<Event>, i: nat, m: Vote, u: nat) {
    && Speaks(s, es, i, u) && es[u] == Begin(m) && !s[i].voted
    && (forall v :: 0 <= v < u ==> !Speaks(s, es, i, v))
    && (forall v :: u < v < |es| ==> es[v] != End(i))
  }

  /** m carries the key, the proof and the output of slot j, the first under its producer's address, and
      the height of the round. */
  ghost predicate Backs(s: seq<Slot>, m: Vote, j: nat, height: string) {
    && IsFirst(s, m.producer, j) && m.key == s[j].key && m.proof == s[j].proof && m.beta == s[j].beta
    && m.height == height
  }

  /** Event t adds a vote to slot j: the node's own, or that of a handler whose message backs the slot. */
  ghost predicate Raises(s: seq<Slot>, es: seq<Event>, height: string, j: nat, t: nat) {
    t < |es| &&
    match es[t]
    case Begin(_) => false
    case Own(me, p) => me < |s| && p == j && j < |s|
    case End(i) => exists m, u: nat :: IsHandled(s, es[..t], i, m, u) && Backs(s, m, j, height)
    case Store(_, _) => false
  }

  ghost function Raising(s: seq<Slot>, es: seq<Event>, height: string, j: nat): set<nat> {
    set t: nat | t < |es| && Raises(s, es, height, j, t)
  }

  // ---------- Voting ----------

  lemma FirstMeans(s: seq<Slot>, a: string, i: nat)
    ensures First(s, a) == i && i < |s| <==> IsFirst(s, a, i)
  {
    FirstIs(s, a);
    hide First;
  }

  lemma SameFirstSlot(s: seq<Slot>, t: seq<Slot>, a: string, i: nat)
    requires SameList(s, t)
    ensures IsFirst(s, a, i) <==> IsFirst(t, a, i)
  {
  }

  lemma SpeaksMore(s: seq<Slot>, es: seq<Event>, i: nat, v: nat)
    requires es != []
    ensures Speaks(s, es, i, v) <==> Speaks(s, es[..|es| - 1], i, v) || (v == |es| - 1 && Speaks(s, es, i, v))
  {
  }

  ghost predicate HasSpoken(s: seq<Slot>, es: seq<Event>, i: nat) {
    exists v: nat :: Speaks(s, es, i, v)
  }

  lemma SpokenMore(s: seq<Slot>, es: seq<Event>, i: nat)
    requires es != []
    ensures HasSpoken(s, es, i) <==> HasSpoken(s, es[..|es| - 1], i) || Speaks(s, es, i, |es| - 1)
  {
    hide Speaks;
    var n := |es| - 1;
    var front := es[..n];
    forall v: nat ensures Speaks(s, es, i, v) ==> Speaks(s, front, i, v) || v == n
      ensures Speaks(s, front, i, v) ==> Speaks(s, es, i, v)
    {
      SpeaksMore(s, es, i, v);
    }
  }

  /** One step marks a slot as voted if its event is a vote of that slot, and never unmarks one. */
  lemma StepMarks(l: Ledger, e: Event, height: string, i: nat)
    requires i < |l.slots|
    ensures Step(l, e, height).slots[i].voted <==> l.slots[i].voted || Speaks(l.slots, [e], i, 0)
  {
    match e
    case Begin(m) =>
      FirstMeans(l.slots, m.voter, i);
      if Admits(l.slots, m) {
        MarkedIs(l.slots, m);
      }
    case End(k) =>
      if k in l.pending && Counts(l.slots, l.pending[k]) {
        AddedIs(l.slots, l.pending[k]);
      }
    case Own(me, p) =>
      if me < |l.slots| && p < |l.slots| {
        OwnVoteIs(l.slots, me, p);
      }
    case Store(a, signature) => SignatureIs(l.slots, a, signature);
  }

  lemma SpeaksLast(s: seq<Slot>, t: seq<Slot>, es: seq<Event>, i: nat)
    requires SameList(s, t) && es != []
    ensures Speaks(s, es, i, |es| - 1) <==> Speaks(t, [es[|es| - 1]], i, 0)
  {
    match es[|es| - 1]
    case Begin(m) => SameFirstSlot(s, t, m.voter, i);
    case End(_) =>
    case Own(_, _) =>
    case Store(_, _) =>
  }

  /** A slot is marked as voted exactly if one of the events is a vote of it. */
  lemma {:induction false} VotedIs(l: Ledger, es: seq<Event>, height: string, i: nat)
    requires i < |l.slots|
    ensures Run(l, es, height).slots[i].voted <==> l.slots[i].voted || HasSpoken(l.slots, es, i)
  {
    if es != [] {
      var front := es[..|es| - 1];
      var k := Run(l, front, height);
      VotedIs(l, front, height, i);
      SpokenMore(l.slots, es, i);
      RunKeepsList(l, front, height);
      StepMarks(k, es[|es| - 1], height, i);
      SpeaksLast(l.slots, k.slots, es, i);
      hide Step, Speaks, HasSpoken;
    } else {
      assert !HasSpoken(l.slots, es, i);
    }
  }

  // ---------- Handlers between their sections ----------

  lemma HandledMore(s: seq<Slot>, es: seq<Event>, i: nat, m: Vote, u: nat)
    requires es != []
    ensures var n := |es| - 1;
            IsHandled(s, es, i, m, u) <==>
            (IsHandled(s, es[..n], i, m, u) && es[n] != End(i)) ||
            (u == n && es[n] == Begin(m) && Speaks(s, es, i, n) && !s[i].voted && !HasSpoken(s, es[..n], i))
  {
    var n := |es| - 1;
    forall v: nat ensures Speaks(s, es, i, v) <==> Speaks(s, es[..n], i, v) || (v == n && Speaks(s, es, i, v))
      ensures Speaks(s, es[..n], i, v) ==> v < n && i < |s|
      ensures Speaks(s, es, i, v) ==> i < |s|
    {
      SpeaksMore(s, es, i, v);
    }
    assert forall v :: 0 <= v < n ==> es[..n][v] == es[v];
    hide Speaks;
    if IsHandled(s, es, i, m, u) && u < n {
      assert IsHandled(s, es[..n], i, m, u) && es[n] != End(i);
    }
  }

  ghost predicate HasHandled(s: seq<Slot>, es: seq<Event>, i: nat, m: Vote) {
    exists u: nat :: IsHandled(s, es, i, m, u)
  }

  lemma HasHandledMore(s: seq<Slot>, es: seq<Event>, i: nat, m: Vote)
    requires es != []
    ensures var n := |es| - 1;
            HasHandled(s, es, i, m) <==>
            (HasHandled(s, es[..n], i, m) && es[n] != End(i)) ||
            (es[n] == Begin(m) && Speaks(s, es, i, n) && !s[i].voted && !HasSpoken(s, es[..n], i))
  {
    var n := |es| - 1;
    var front := es[..n];
    forall u: nat
      ensures IsHandled(s, es, i, m, u) ==> u == n || (IsHandled(s, front, i, m, u) && es[n] != End(i))
      ensures IsHandled(s, front, i, m, u) && es[n] != End(i) ==> IsHandled(s, es, i, m, u)
    {
      HandledMore(s, es, i, m, u);
    }
    HandledMore(s, es, i, m, n);
    assert !IsHandled(s, front, i, m, n);
    hide IsHandled, Speaks, HasSpoken;
  }

  /** m is the vote of slot i whose handler is in flight. */
  ghost predicate InHand(l: Ledger, i: nat, m: Vote) {
    i in l.pending && l.pending[i] == m
  }

  lemma StepHands(l: Ledger, e: Event, height: string, i: nat, m: Vote)
    ensures InHand(Step(l, e, height), i, m) <==>
            (InHand(l, i, m) && e != End(i) && !(e.Begin? && Admits(l.slots, e.m) && First(l.slots, e.m.voter) == i)) ||
            (e == Begin(m) && Admits(l.slots, m) && First(l.slots, m.voter) == i)
  {
    hide First, Admits, Marked, Added, Counts, WithOwnVote, WithSignature;
  }

  /** A slot in flight has voted, so that no second vote of it is admitted. */
  lemma HandledHasSpoken(s: seq<Slot>, es: seq<Event>, i: nat, m: Vote)
    requires HasHandled(s, es, i, m)
    ensures HasSpoken(s, es, i)
  {
    hide Speaks;
  }

  lemma AdmittedIs(s: seq<Slot>, m: Vote, i: nat)
    ensures Admits(s, m) && First(s, m.voter) == i <==> m.verified && IsFirst(s, m.voter, i) && !s[i].voted
  {
    FirstIs(s, m.voter);
    hide First;
  }

  /** The handlers in flight are those of the first votes whose second section has not come. */
  lemma {:induction false} PendingIs(l: Ledger, es: seq<Event>, height: string, i: nat, m: Vote)
    requires l.pending == map[]
    ensures InHand(Run(l, es, height), i, m) <==> HasHandled(l.slots, es, i, m)
  {
    if es == [] {
      assert !HasHandled(l.slots, es, i, m);
    } else {
      var n := |es| - 1;
      var front, e := es[..n], es[n];
      var k := Run(l, front, height);
      PendingIs(l, front, height, i, m);
      HasHandledMore(l.slots, es, i, m);
      StepHands(k, e, height, i, m);
      RunKeepsList(l, front, height);
      if e.Begin? {
        AdmittedIs(k.slots, e.m, i);
        SameFirstSlot(l.slots, k.slots, e.m.voter, i);
        if i < |l.slots| {
          VotedIs(l, front, height, i);
        }
        if HasHandled(l.slots, front, i, m) {
          HandledHasSpoken(l.slots, front, i, m);
          assert i < |l.slots|;
        }
        assert Speaks(l.slots, es, i, n) <==> e.m.verified && IsFirst(l.slots, e.m.voter, i);
      }
      hide Step, Run, HasHandled, HasSpoken, IsFirst, Admits, SameList;
    }
  }

  // ---------- Totals ----------

  lemma CountsMeans(s: seq<Slot>, m: Vote, j: nat, height: string)
    ensures m.height == height && Counts(s, m) && First(s, m.producer) == j <==> Backs(s, m, j, height)
  {
    FirstIs(s, m.producer);
    hide First;
  }

  lemma SameBacking(s: seq<Slot>, t: seq<Slot>, m: Vote, j: nat, height: string)
    requires SameList(s, t)
    ensures Backs(s, m, j, height) <==> Backs(t, m, j, height)
  {
    SameFirstSlot(s, t, m.producer, j);
  }

  /** What a step does to a total: nothing, unless it is the node's own vote for the slot or the second
      section for a vote that backs it, which adds one. */
  lemma StepTotals(l: Ledger, e: Event, height: string, j: nat)
    requires j < |l.slots|
    ensures Step(l, e, height).slots[j].total - l.slots[j].total ==
            match e {
              case Begin(_) => 0
              case End(i) => if i in l.pending && Backs(l.slots, l.pending[i], j, height) then 1 else 0
              case Own(me, p) => if me < |l.slots| && p == j then 1 else 0
              case Store(_, _) => 0
            }
  {
    match e
    case Begin(m) =>
      if Admits(l.slots, m) {
        MarkedTotals(l.slots, m, j);
      }
    case End(i) =>
      if i in l.pending {
        CountsMeans(l.slots, l.pending[i], j, height);
        if Counts(l.slots, l.pending[i]) {
          AddedIs(l.slots, l.pending[i]);
        }
      }
      hide First, Counts, Added;
    case Own(me, p) =>
      if me < |l.slots| && p < |l.slots| {
        OwnVoteIs(l.slots, me, p);
      }
    case Store(a, signature) => SignatureIs(l.slots, a, signature);
  }

  lemma MarkedTotals(s: seq<Slot>, m: Vote, j: nat)
    requires Admits(s, m) && j < |s|
    ensures Marked(s, m)[j].total == s[j].total
  {
  }

  lemma RaisesBefore(s: seq<Slot>, es: seq<Event>, height: string, j: nat, t: nat)
    requires es != []
    ensures var n := |es| - 1;
            Raises(s, es, height, j, t) <==> Raises(s, es[..n], height, j, t) || (t == n && Raises(s, es, height, j, n))
  {
    var n := |es| - 1;
    hide IsHandled, Backs;
    if t < n {
      assert es[..n][..t] == es[..t];
    }
  }

  lemma RaisingMore(s: seq<Slot>, es: seq<Event>, height: string, j: nat)
    requires es != []
    ensures var n := |es| - 1;
            |Raising(s, es, height, j)| == |Raising(s, es[..n], height, j)| + (if Raises(s, es, height, j, n) then 1 else 0)
  {
    var n := |es| - 1;
    var front := es[..n];
    forall t: nat ensures Raises(s, es, height, j, t) ==> Raises(s, front, height, j, t) || t == n
      ensures Raises(s, front, height, j, t) ==> Raises(s, es, height, j, t) && t < n
    {
      RaisesBefore(s, es, height, j, t);
    }
    hide Raises;
    var a, b := Raising(s, front, height, j), Raising(s, es, height, j);
    if Raises(s, es, height, j, n) {
      assert b == a + {n};
    } else {
      assert b == a;
    }
  }

  lemma LastRaises(l: Ledger, es: seq<Event>, height: string, j: nat)
    requires l.pending == map[] && es != [] && j < |l.slots|
    ensures var n := |es| - 1;
            var k := Run(l, es[..n], height);
            Raises(l.slots, es, height, j, n) <==>
            match es[n] {
              case Begin(_) => false
              case End(i) => i in k.pending && Backs(k.slots, k.pending[i], j, height)
              case Own(me, p) => me < |k.slots| && p == j
              case Store(_, _) => false
            }
  {
    var n := |es| - 1;
    var k := Run(l, es[..n], height);
    RunKeepsList(l, es[..n], height);
    match es[n]
    case Begin(_) =>
    case End(i) =>
      forall m ensures InHand(k, i, m) <==> HasHandled(l.slots, es[..n], i, m)
        ensures Backs(l.slots, m, j, height) <==> Backs(k.slots, m, j, height)
      {
        PendingIs(l, es[..n], height, i, m);
        SameBacking(l.slots, k.slots, m, j, height);
      }
      hide IsHandled, Backs, Run, SameList;
      assert Raises(l.slots, es, height, j, n) <==>
             exists m :: HasHandled(l.slots, es[..n], i, m) && Backs(l.slots, m, j, height);
      assert i in k.pending ==> InHand(k, i, k.pending[i]);
    case Own(_, _) =>
    case Store(_, _) =>
  }

  /** A total is made of the votes that back the slot, each counted when its handler comes to the second
      section, and of the node's own. */
  lemma {:induction false} TotalIs(l: Ledger, es: seq<Event>, height: string, j: nat)
    requires l.pending == map[] && j < |l.slots|
    ensures Run(l, es, height).slots[j].total == l.slots[j].total + |Raising(l.slots, es, height, j)|
  {
    if es == [] {
      assert Raising(l.slots, es, height, j) == {};
    } else {
      var n := |es| - 1;
      TotalIs(l, es[..n], height, j);
      RaisingMore(l.slots, es, height, j);
      LastRaises(l, es, height, j);
      StepTotals(Run(l, es[..n], height), es[n], height, j);
      hide Step, Raises, Raising, Backs;
    }
  }

  // ---------- What a slot records ----------

  /** The last event is the vote m of slot i, which had not voted. */
  ghost predicate FirstVote(s: seq<Slot>, es: seq<Event>, i: nat, m: Vote) {
    && es != [] && i < |s| && es[|es| - 1] == Begin(m) && m.verified && IsFirst(s, m.voter, i) && !s[i].voted
    && !HasSpoken(s, es[..|es| - 1], i)
  }

  /** The producer slot i is recorded for: that of its first vote, or of the node's own vote, the later. */
  ghost function LastSelected(s: seq<Slot>, es: seq<Event>, i: nat): string
    requires i < |s|
  {
    if es == [] then s[i].selected else
      match es[|es| - 1]
      case Begin(m) => if FirstVote(s, es, i, m) then m.producer else LastSelected(s, es[..|es| - 1], i)
      case Own(me, p) => if me == i && p < |s| then s[p].address else LastSelected(s, es[..|es| - 1], i)
      case End(_) => LastSelected(s, es[..|es| - 1], i)
      case Store(_, _) => LastSelected(s, es[..|es| - 1], i)
  }

  /** The signature of slot i: that of its first vote, or one stored for its address, the later. */
  ghost function LastSignature(s: seq<Slot>, es: seq<Event>, i: nat): string
    requires i < |s|
  {
    if es == [] then s[i].signature else
      match es[|es| - 1]
      case Begin(m) => if FirstVote(s, es, i, m) then m.signature else LastSignature(s, es[..|es| - 1], i)
      case Store(a, x) => if IsFirst(s, a, i) then x else LastSignature(s, es[..|es| - 1], i)
      case Own(_, _) => LastSignature(s, es[..|es| - 1], i)
      case End(_) => LastSignature(s, es[..|es| - 1], i)
  }

  lemma StepRecords(l: Ledger, e: Event, height: string, i: nat)
    requires i < |l.slots|
    ensures var s, t := l.slots[i], Step(l, e, height).slots[i];
            match e {
              case Begin(m) =>
                if m.verified && IsFirst(l.slots, m.voter, i) && !s.voted
                then t.selected == m.producer && t.signature == m.signature
                else t.selected == s.selected && t.signature == s.signature
              case End(_) => t.selected == s.selected && t.signature == s.signature
              case Own(me, p) =>
                t.signature == s.signature &&
                t.selected == if me == i && p < |l.slots| then l.slots[p].address else s.selected
              case Store(a, x) =>
                t.selected == s.selected && t.signature == if IsFirst(l.slots, a, i) then x else s.signature
            }
  {
    match e
    case Begin(m) => AdmittedIs(l.slots, m, i);
    case End(k) =>
    case Own(me, p) =>
    case Store(a, x) => FirstMeans(l.slots, a, i);
    hide First, IsFirst;
  }

  lemma SameFirstVote(l: Ledger, es: seq<Event>, height: string, i: nat, m: Vote)
    requires es != [] && i < |l.slots| && es[|es| - 1] == Begin(m)
    ensures var k := Run(l, es[..|es| - 1], height);
            FirstVote(l.slots, es, i, m) <==> m.verified && IsFirst(k.slots, m.voter, i) && !k.slots[i].voted
  {
    var k := Run(l, es[..|es| - 1], height);
    VotedIs(l, es[..|es| - 1], height, i);
    RunKeepsList(l, es[..|es| - 1], height);
    SameFirstSlot(l.slots, k.slots, m.voter, i);
    hide Run, HasSpoken, IsFirst, SameList;
  }

  /** What a slot records after a run. */
  lemma {:induction false} RecordsAre(l: Ledger, es: seq<Event>, height: string, i: nat)
    requires i < |l.slots|
    ensures Run(l, es, height).slots[i].selected == LastSelected(l.slots, es, i)
    ensures Run(l, es, height).slots[i].signature == LastSignature(l.slots, es, i)
  {
    if es != [] {
      var front, e := es[..|es| - 1], es[|es| - 1];
      var k := Run(l, front, height);
      RecordsAre(l, front, height, i);
      RunKeepsList(l, front, height);
      StepRecords(k, e, height, i);
      if e.Begin? {
        SameFirstVote(l, es, height, i, e.m);
      }
      if e.Store? {
        SameFirstSlot(l.slots, k.slots, e.address, i);
      }
      hide Step, FirstVote, IsFirst;
    }
  }
}
