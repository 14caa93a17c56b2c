/** Several committee members with the same list, exchanging signed votes over a network that may
    delay, reorder, replay and redirect them, and rewrite whatever the signatures do not cover. */
module Agreement {
  import opened Wrappers
  import opened Bytes
  import opened Hex
  import opened VerifierSlots
  import opened VoteLedger
  import opened VoteTally

  /** What a vote signature covers: the height and the producer's output and key, but not the
      producer's address, which travels beside it. */
  datatype Ballot = Ballot(voter: string, height: string, key: string, beta: string)

  function BallotOf(m: Vote): Ballot {
    Ballot(m.voter, m.height, m.key, m.beta)
  }

  /** The ledgers of the nodes, and every ballot anybody signed so far. */
  datatype Network = Network(nodes: seq<Ledger>, signed: set<Ballot>)

  datatype Action =
    | Sign(b: Ballot)
    | At(r: nat, e: Event)

  /** The ballot of a node's own vote; the vote is recorded just before the wallet signs it, and the
      ballot counts as signed from then on. */
  function OwnBallot(s: seq<Slot>, e: Event, height: string): Ballot
    requires e.Own? && e.me < |s| && e.p < |s|
  {
    Ballot(s[e.me].address, height, s[e.p].key, s[e.p].beta)
  }

  function Act(net: Network, a: Action, height: string): (k: Network)
    ensures |k.nodes| == |net.nodes|
  {
    match a
    case Sign(b) => Network(net.nodes, net.signed + {b})
    case At(r, e) =>
      if r >= |net.nodes| then net else
        var s := net.nodes[r].slots;
        Network(net.nodes[r := Step(net.nodes[r], e, height)],
                if e.Own? && e.me < |s| && e.p < |s| then net.signed + {OwnBallot(s, e, height)} else net.signed)
  }

  /** Signatures are not forged and nobody signs under the empty address; a node's own vote finds no
      vote under its address recorded. */
  ghost predicate Possible(net: Network, a: Action) {
    match a
    case Sign(b) => b.voter != ""
    case At(r, e) =>
      r < |net.nodes| &&
      match e
      case Begin(m) => m.verified ==> BallotOf(m) in net.signed
      case End(i) => true
      case Own(me, p) =>
        me < |net.nodes[r].slots| && p < |net.nodes[r].slots| && net.nodes[r].slots[me].address != "" &&
        OwnVoteFits(net.nodes[r], e)
      case Store(address, signature) => true
  }

  function Evolve(net: Network, acts: seq<Action>, height: string): (k: Network)
    ensures |k.nodes| == |net.nodes|
  {
    if acts == [] then net else Act(Evolve(net, acts[..|acts| - 1], height), acts[|acts| - 1], height)
  }

  ghost predicate AllPossible(net: Network, acts: seq<Action>, height: string) {
    acts != [] ==>
      AllPossible(net, acts[..|acts| - 1], height) &&
      Possible(Evolve(net, acts[..|acts| - 1], height), acts[|acts| - 1])
  }

  /** All nodes start the round with the same list of n members and an empty ledger. */
  ghost predicate Start(net: Network, base: seq<Slot>, n: nat) {
    && BlankFrom(base, n) && net.signed == {}
    && (forall r :: 0 <= r < |net.nodes| ==> Fresh(net.nodes[r]) && SameList(base, net.nodes[r].slots))
  }

  // ---------- Nothing is counted that was not signed ----------

  /** The member in slot i signed a ballot for the producer in slot p. */
  ghost predicate SignedFor(base: seq<Slot>, signed: set<Ballot>, height: string, i: nat, p: nat) {
    i < |base| && p < |base| && Ballot(base[i].address, height, base[p].key, base[p].beta) in signed
  }

  ghost predicate PendingSigned(l: Ledger, base: seq<Slot>, signed: set<Ballot>) {
    forall i :: i in l.pending ==>
      i < |base| && l.pending[i].voter == base[i].address && BallotOf(l.pending[i]) in signed
  }

  ghost predicate CountedSigned(l: Ledger, base: seq<Slot>, signed: set<Ballot>, height: string) {
    forall i :: i in l.counted ==>
      i < |l.slots| && SignedFor(base, signed, height, i, First(base, l.slots[i].selected))
  }

  ghost predicate NodeInvariant(l: Ledger, base: seq<Slot>, signed: set<Ballot>, height: string) {
    && SameList(base, l.slots) && Invariant(l)
    && PendingSigned(l, base, signed) && CountedSigned(l, base, signed, height)
  }

  ghost predicate NetInvariant(net: Network, base: seq<Slot>, height: string) {
    && (forall b :: b in net.signed ==> b.voter != "")
    && (forall r :: 0 <= r < |net.nodes| ==> NodeInvariant(net.nodes[r], base, net.signed, height))
  }

  lemma MoreSigned(l: Ledger, base: seq<Slot>, signed: set<Ballot>, more: set<Ballot>, height: string)
    requires NodeInvariant(l, base, signed, height) && signed <= more
    ensures NodeInvariant(l, base, more, height)
  {
    hide Invariant, SameList, First;
  }

  /** Votes already counted stay signed for. */
  lemma CountedStaysSigned(l: Ledger, k: Ledger, base: seq<Slot>, signed: set<Ballot>, height: string)
    requires CountedSigned(l, base, signed, height) && KeepsCounted(l, k) && k.counted == l.counted
    ensures CountedSigned(k, base, signed, height)
  {
    hide First, SignedFor;
  }

  lemma CountedGainsSigned(l: Ledger, k: Ledger, i: nat, base: seq<Slot>, signed: set<Ballot>, height: string)
    requires CountedSigned(l, base, signed, height) && KeepsCounted(l, k) && k.counted == l.counted + {i}
    requires i < |k.slots| && SignedFor(base, signed, height, i, First(base, k.slots[i].selected))
    ensures CountedSigned(k, base, signed, height)
  {
    hide First, SignedFor;
  }

  lemma BeginPending(l: Ledger, m: Vote, base: seq<Slot>, signed: set<Ballot>, height: string)
    requires NodeInvariant(l, base, signed, height) && Admits(l.slots, m) && BallotOf(m) in signed
    ensures PendingSigned(Step(l, Begin(m), height), base, signed)
    ensures KeepsCounted(l, Step(l, Begin(m), height))
  {
    FirstIs(l.slots, m.voter);
    MarkedIs(l.slots, m);
    hide First, Marked, SignedFor;
  }

  lemma SameListTrans(a: seq<Slot>, b: seq<Slot>, c: seq<Slot>)
    requires SameList(a, b) && SameList(b, c)
    ensures SameList(a, c)
  {
  }

  lemma BeginVouched(l: Ledger, m: Vote, base: seq<Slot>, signed: set<Ballot>, height: string)
    requires NodeInvariant(l, base, signed, height) && Admits(l.slots, m) && BallotOf(m) in signed
    ensures NodeInvariant(Step(l, Begin(m), height), base, signed, height)
  {
    var k := Step(l, Begin(m), height);
    BeginPending(l, m, base, signed, height);
    BeginKeeps(l, m);
    CountedStaysSigned(l, k, base, signed, height);
    SameListTrans(base, l.slots, k.slots);
    hide First, Marked, Invariant, SameList, KeepsCounted, PendingSigned, CountedSigned;
  }

  /** The second section only counts what its ballot says. */
  lemma CountedBallot(l: Ledger, i: nat, base: seq<Slot>, signed: set<Ballot>, height: string)
    requires NodeInvariant(l, base, signed, height)
    requires i in l.pending && Counts(l.slots, l.pending[i]) && l.pending[i].height == height
    ensures SignedFor(base, signed, height, i, First(base, l.pending[i].producer))
  {
    SameFirst(base, l.slots, l.pending[i].producer);
    hide First;
  }

  lemma EndPending(l: Ledger, k: Ledger, i: nat, base: seq<Slot>, signed: set<Ballot>)
    requires PendingSigned(l, base, signed) && k.pending == l.pending - {i}
    ensures PendingSigned(k, base, signed)
  {
  }

  lemma EndVouched(l: Ledger, i: nat, base: seq<Slot>, signed: set<Ballot>, height: string)
    requires NodeInvariant(l, base, signed, height)
    requires i in l.pending && Counts(l.slots, l.pending[i]) && l.pending[i].height == height
    ensures NodeInvariant(Step(l, End(i), height), base, signed, height)
  {
    var k := Step(l, End(i), height);
    assert k == Ledger(Added(l.slots, l.pending[i]), l.pending - {i}, l.counted + {i});
    StepKeepsList(l, End(i), height);
    CountingKeeps(l, i);
    CountingCounted(l, i);
    CountedBallot(l, i, base, signed, height);
    EndPending(l, k, i, base, signed);
    SameListTrans(base, l.slots, k.slots);
    hide First, Added, Invariant, SameList, KeepsCounted, CountedSigned, PendingSigned, Counts, SignedFor, Step;
    CountedGainsSigned(l, k, i, base, signed, height);
  }

  lemma DropVouched(l: Ledger, i: nat, base: seq<Slot>, signed: set<Ballot>, height: string)
    requires NodeInvariant(l, base, signed, height)
    ensures NodeInvariant(Ledger(l.slots, l.pending - {i}, l.counted), base, signed, height)
  {
    DroppingKeeps(l, i);
    hide First, Invariant, SameList;
  }

  lemma OwnVouched(l: Ledger, me: nat, p: nat, base: seq<Slot>, signed: set<Ballot>, height: string)
    requires NodeInvariant(l, base, signed, height) && OwnVoteFits(l, Own(me, p))
    requires me < |l.slots| && p < |l.slots| && OwnBallot(l.slots, Own(me, p), height) in signed
    ensures NodeInvariant(Step(l, Own(me, p), height), base, signed, height)
  {
    var k := Step(l, Own(me, p), height);
    OwnKeeps(l, me, p);
    OwnCounted(l, me, p);
    OwnVoteIs(l.slots, me, p);
    SameFirst(base, l.slots, l.slots[p].address);
    hide First, WithOwnVote, Invariant;
    assert SignedFor(base, signed, height, me, p);
    CountedGainsSigned(l, k, me, base, signed, height);
    SameListTrans(base, l.slots, k.slots);
    assert PendingSigned(k, base, signed);
    hide SameList, KeepsCounted, CountedSigned;
  }

  lemma StoreVouched(l: Ledger, a: string, signature: string, base: seq<Slot>, signed: set<Ballot>, height: string)
    requires NodeInvariant(l, base, signed, height)
    ensures NodeInvariant(Step(l, Store(a, signature), height), base, signed, height)
  {
    var k := Step(l, Store(a, signature), height);
    StoringKeeps(l, a, signature);
    SignatureIs(l.slots, a, signature);
    hide First, WithSignature;
    assert KeepsCounted(l, k);
    CountedStaysSigned(l, k, base, signed, height);
    SameListTrans(base, l.slots, k.slots);
    assert PendingSigned(k, base, signed);
    hide SameList, KeepsCounted, CountedSigned, Invariant;
  }

  lemma NodeStepKeeps(l: Ledger, e: Event, base: seq<Slot>, signed: set<Ballot>, height: string)
    requires NodeInvariant(l, base, signed, height) && OwnVoteFits(l, e)
    requires e.Begin? && e.m.verified ==> BallotOf(e.m) in signed
    requires e.Own? ==> e.me < |l.slots| && e.p < |l.slots| && OwnBallot(l.slots, e, height) in signed
    ensures NodeInvariant(Step(l, e, height), base, signed, height)
  {
    match e
    case Begin(m) =>
      if Admits(l.slots, m) {
        BeginVouched(l, m, base, signed, height);
      }
    case End(i) =>
      if i in l.pending {
        if l.pending[i].height == height && Counts(l.slots, l.pending[i]) {
          EndVouched(l, i, base, signed, height);
        } else {
          DropVouched(l, i, base, signed, height);
        }
      }
    case Own(me, p) => OwnVouched(l, me, p, base, signed, height);
    case Store(a, signature) => StoreVouched(l, a, signature, base, signed, height);
  }

  /** Whatever one node or one signer does next. */
  lemma ActKeeps(net: Network, a: Action, base: seq<Slot>, height: string)
    requires NetInvariant(net, base, height) && Possible(net, a)
    ensures NetInvariant(Act(net, a, height), base, height)
  {
    var k := Act(net, a, height);
    hide NodeInvariant, Step;
    forall r | 0 <= r < |net.nodes| ensures NodeInvariant(k.nodes[r], base, k.signed, height) {
      MoreSigned(net.nodes[r], base, net.signed, k.signed, height);
      if a.At? && a.r == r {
        NodeStepKeeps(net.nodes[r], a.e, base, k.signed, height);
      }
    }
  }

  lemma StartHolds(net: Network, base: seq<Slot>, n: nat, height: string)
    requires Start(net, base, n)
    ensures NetInvariant(net, base, height)
  {
    hide Invariant;
    forall r | 0 <= r < |net.nodes| ensures NodeInvariant(net.nodes[r], base, net.signed, height) {
      FreshHolds(net.nodes[r]);
    }
  }

  /** Over every run of the network. */
  lemma {:induction false} EvolveKeeps(net: Network, acts: seq<Action>, base: seq<Slot>, n: nat, height: string)
    requires Start(net, base, n) && AllPossible(net, acts, height)
    ensures NetInvariant(Evolve(net, acts, height), base, height)
  {
    if acts == [] {
      StartHolds(net, base, n, height);
    } else {
      EvolveKeeps(net, acts[..|acts| - 1], base, n, height);
      hide NetInvariant, Possible, Act;
      ActKeeps(Evolve(net, acts[..|acts| - 1], height), acts[|acts| - 1], base, height);
    }
  }

  // ---------- Two moments of a run ----------

  lemma {:induction false} PrefixPossible(net: Network, acts: seq<Action>, i: nat, height: string)
    requires AllPossible(net, acts, height) && i <= |acts|
    ensures AllPossible(net, acts[..i], height)
  {
    if i == |acts| {
      assert acts[..i] == acts;
    } else {
      PrefixPossible(net, acts[..|acts| - 1], i, height);
      assert acts[..|acts| - 1][..i] == acts[..i];
    }
  }

  /** The state of the network after the first i actions. */
  function After(net: Network, acts: seq<Action>, i: nat, height: string): (k: Network)
    requires i <= |acts|
    ensures |k.nodes| == |net.nodes|
  {
    Evolve(net, acts[..i], height)
  }

  lemma AfterStep(net: Network, acts: seq<Action>, i: nat, height: string)
    requires AllPossible(net, acts, height) && i < |acts|
    ensures After(net, acts, i + 1, height) == Act(After(net, acts, i, height), acts[i], height)
    ensures Possible(After(net, acts, i, height), acts[i])
  {
    PrefixPossible(net, acts, i + 1, height);
    assert acts[..i + 1][..i] == acts[..i];
  }

  /** Later, more is signed, and what a node counted it still has recorded. */
  ghost predicate Follows(net: Network, later: Network) {
    && |net.nodes| == |later.nodes| && net.signed <= later.signed
    && forall r :: 0 <= r < |net.nodes| ==>
         KeepsCounted(net.nodes[r], later.nodes[r]) && net.nodes[r].counted <= later.nodes[r].counted
  }

  lemma ActFollows(net: Network, a: Action, base: seq<Slot>, height: string)
    requires NetInvariant(net, base, height) && Possible(net, a)
    ensures Follows(net, Act(net, a, height))
  {
    var k := Act(net, a, height);
    hide Step, PendingIsMarked, TotalsAreTallies, First;
    forall r | 0 <= r < |net.nodes|
      ensures KeepsCounted(net.nodes[r], k.nodes[r]) && net.nodes[r].counted <= k.nodes[r].counted
    {
      if a.At? && a.r == r {
        StepKeepsCounted(net.nodes[r], a.e, height);
      } else {
        NothingForgotten(net.nodes[r]);
      }
    }
  }

  lemma NothingForgotten(l: Ledger)
    requires CountedIsMarked(l)
    ensures KeepsCounted(l, l)
  {
  }

  lemma KeepsCountedTrans(l: Ledger, k: Ledger, m: Ledger)
    requires KeepsCounted(l, k) && KeepsCounted(k, m) && l.counted <= k.counted
    ensures KeepsCounted(l, m)
  {
    SameListTrans(l.slots, k.slots, m.slots);
    hide SameList;
  }

  lemma FollowsTrans(net: Network, k: Network, later: Network)
    requires Follows(net, k) && Follows(k, later)
    ensures Follows(net, later)
  {
    hide KeepsCounted;
    forall r | 0 <= r < |net.nodes| ensures KeepsCounted(net.nodes[r], later.nodes[r]) {
      KeepsCountedTrans(net.nodes[r], k.nodes[r], later.nodes[r]);
    }
  }

  lemma AfterHolds(net: Network, acts: seq<Action>, i: nat, base: seq<Slot>, n: nat, height: string)
    requires Start(net, base, n) && AllPossible(net, acts, height) && i <= |acts|
    ensures NetInvariant(After(net, acts, i, height), base, height)
  {
    PrefixPossible(net, acts, i, height);
    EvolveKeeps(net, acts[..i], base, n, height);
  }

  lemma {:induction false} LaterFollows(net: Network, acts: seq<Action>, i: nat, j: nat, base: seq<Slot>, n: nat,
                                        height: string)
    requires Start(net, base, n) && AllPossible(net, acts, height) && i <= j <= |acts|
    ensures Follows(After(net, acts, i, height), After(net, acts, j, height))
    decreases j
  {
    hide NetInvariant, Start, Act, Possible, AllPossible, Follows, Evolve;
    if i == j {
      AfterHolds(net, acts, i, base, n, height);
      InvariantFollows(After(net, acts, i, height), base, height);
    } else {
      LaterFollows(net, acts, i, j - 1, base, n, height);
      AfterHolds(net, acts, j - 1, base, n, height);
      AfterStep(net, acts, j - 1, height);
      ActFollows(After(net, acts, j - 1, height), acts[j - 1], base, height);
      FollowsTrans(After(net, acts, i, height), After(net, acts, j - 1, height), After(net, acts, j, height));
    }
  }

  lemma InvariantFollows(net: Network, base: seq<Slot>, height: string)
    requires NetInvariant(net, base, height)
    ensures Follows(net, net)
  {
    forall r | 0 <= r < |net.nodes| ensures KeepsCounted(net.nodes[r], net.nodes[r]) {
      NothingForgotten(net.nodes[r]);
    }
  }

  // ---------- Agreement ----------

  /** No two members have the same output under the same key. */
  ghost predicate DistinctProducers(base: seq<Slot>, n: nat) {
    forall p, q :: 0 <= p < q < n <= |base| ==> base[p].key != base[q].key || base[p].beta != base[q].beta
  }

  /** Signed two different ballots for this height. */
  ghost predicate Equivocates(signed: set<Ballot>, voter: string, height: string) {
    exists b, c :: b in signed && c in signed && b != c && b.voter == c.voter == voter && b.height == c.height == height
  }

  ghost function Equivocators(signed: set<Ballot>, base: seq<Slot>, n: nat, height: string): set<nat> {
    set i: nat | i < n && i < |base| && Equivocates(signed, base[i].address, height)
  }

  /** A node whose two critical sections find the ledgers l and k gets past the tally of its first n
      slots with the producer in slot p. */
  ghost predicate Accepts(l: Ledger, k: Ledger, n: nat, p: nat, decode: Base64) {
    0 < n <= |l.slots| == |k.slots| && Decide(l.slots[..n], k.slots[..n], p, decode).Accepted?
  }

  /** Node r enters the first section after i actions of the run, the second after j. */
  ghost predicate AcceptsIn(net: Network, acts: seq<Action>, height: string, r: nat, i: nat, j: nat, n: nat, p: nat,
                            decode: Base64)
  {
    && r < |net.nodes| && i <= j <= |acts|
    && Accepts(After(net, acts, i, height).nodes[r], After(net, acts, j, height).nodes[r], n, p, decode)
  }

  /** Behind an acceptance stand two thirds of the members, and each signed a ballot for the
      producer: being recorded as selecting it would not be enough. The votes hashed are theirs. */
  lemma {:induction false} AcceptedVoters(l: Ledger, k: Ledger, base: seq<Slot>, n: nat, signed: set<Ballot>,
                                           height: string, p: nat, decode: Base64)
    requires NodeInvariant(l, base, signed, height) && KeepsCounted(l, k) && BlankFrom(base, n)
    requires Accepts(l, k, n, p, decode) && forall b :: b in signed ==> b.voter != ""
    ensures p < n && |Tallied(l, p)| >= Needed(n)
    ensures forall i :: i in Tallied(l, p) ==> i < n && SignedFor(base, signed, height, i, p)
    ensures MatchingVoters(k.slots[..n], k.slots[p].address) == Tallied(l, p)
  {
    hide Decide, MatchingVoters, KeepsCounted, TotalsAreTallies, PendingIsMarked, PendingSigned;
    SignersAreNamed(l, base, signed, height);
    hide Invariant;
    HashedAreCounted(l, k, n, p, decode);
    hide CountedAreNamed;
    SameFirsts(base, l.slots);
    hide First;
    forall i | i in Tallied(l, p) ensures i < n && SignedFor(base, signed, height, i, p) {
      assert SignedFor(base, signed, height, i, First(base, l.slots[i].selected));
    }
  }

  lemma SignersAreNamed(l: Ledger, base: seq<Slot>, signed: set<Ballot>, height: string)
    requires SameList(base, l.slots) && CountedSigned(l, base, signed, height)
    requires forall b :: b in signed ==> b.voter != ""
    ensures CountedAreNamed(l)
  {
    hide First;
    forall i | i in l.counted && i < |l.slots| ensures l.slots[i].address != "" {
      assert SignedFor(base, signed, height, i, First(base, l.slots[i].selected));
    }
  }

  lemma Overlap(a: set<nat>, b: set<nat>, n: nat)
    requires forall i :: i in a + b ==> i < n
    ensures |a| + |b| <= n + |a * b|
  {
    BoundedSize(a + b, n);
    assert |a + b| == |a| + |b| - |a * b|;
  }

  lemma BothSigned(base: seq<Slot>, n: nat, signed: set<Ballot>, height: string, i: nat, p: nat, q: nat)
    requires DistinctProducers(base, n) && i < n <= |base| && p < n && q < n && p != q
    requires SignedFor(base, signed, height, i, p) && SignedFor(base, signed, height, i, q)
    ensures i in Equivocators(signed, base, n, height)
  {
    var b := Ballot(base[i].address, height, base[p].key, base[p].beta);
    var c := Ballot(base[i].address, height, base[q].key, base[q].beta);
    assert b != c;
    assert b in signed && c in signed;
  }

  /** Two sets of two thirds of the members share a third of them. */
  lemma SharedThird(a: set<nat>, b: set<nat>, c: set<nat>, n: nat)
    requires forall i :: i in a + b ==> i < n
    requires forall i :: i in a && i in b ==> i in c
    requires |a| >= Needed(n) && |b| >= Needed(n)
    ensures 3 * |c| >= n
  {
    Overlap(a, b, n);
    SubsetSize(a * b, c);
  }

  /** The members whose votes a node accepted, all of them signers of a ballot for its producer. */
  ghost predicate Quorum(voters: set<nat>, base: seq<Slot>, signed: set<Ballot>, height: string, n: nat, p: nat) {
    p < n && |voters| >= Needed(n) && forall i :: i in voters ==> i < n && SignedFor(base, signed, height, i, p)
  }

  lemma QuorumOf(net: Network, acts: seq<Action>, base: seq<Slot>, n: nat, height: string, r: nat, i: nat, j: nat,
                 p: nat, decode: Base64) returns (voters: set<nat>)
    requires Start(net, base, n) && AllPossible(net, acts, height)
    requires AcceptsIn(net, acts, height, r, i, j, n, p, decode)
    ensures Quorum(voters, base, Evolve(net, acts, height).signed, height, n, p)
  {
    hide NodeInvariant, Accepts, Evolve;
    AfterHolds(net, acts, i, base, n, height);
    LaterFollows(net, acts, i, j, base, n, height);
    LaterFollows(net, acts, i, |acts|, base, n, height);
    assert acts[..|acts|] == acts;
    hide AllPossible, KeepsCounted;
    var now, end := After(net, acts, i, height), After(net, acts, |acts|, height);
    AcceptedVoters(now.nodes[r], After(net, acts, j, height).nodes[r], base, n, now.signed, height, p, decode);
    voters := Tallied(now.nodes[r], p);
  }

  /** Two quorums for different producers share a third of the members. */
  lemma TwoQuorums(a: set<nat>, b: set<nat>, base: seq<Slot>, n: nat, signed: set<Ballot>, height: string, p: nat,
                   o: nat)
    requires n <= |base| && DistinctProducers(base, n) && p != o
    requires Quorum(a, base, signed, height, n, p) && Quorum(b, base, signed, height, n, o)
    ensures 3 * |Equivocators(signed, base, n, height)| >= n
  {
    hide DistinctProducers, SignedFor, Equivocators;
    var c := Equivocators(signed, base, n, height);
    forall i | i in a && i in b ensures i in c {
      BothSigned(base, n, signed, height, i, p, o);
    }
    SharedThird(a, b, c, n);
  }

  /** If two nodes accept different producers, at least a third of the members signed two different
      ballots. */
  lemma DisagreementNeedsEquivocation(net: Network, acts: seq<Action>, base: seq<Slot>, n: nat, height: string,
                                      r: nat, i: nat, j: nat, p: nat, q: nat, k: nat, m: nat, o: nat, decode: Base64)
    requires Start(net, base, n) && AllPossible(net, acts, height) && DistinctProducers(base, n)
    requires AcceptsIn(net, acts, height, r, i, j, n, p, decode)
    requires AcceptsIn(net, acts, height, q, k, m, n, o, decode)
    requires p != o
    ensures 3 * |Equivocators(Evolve(net, acts, height).signed, base, n, height)| >= n
  {
    hide AcceptsIn, Quorum, Evolve, AllPossible, DistinctProducers, Equivocators;
    var a := QuorumOf(net, acts, base, n, height, r, i, j, p, decode);
    var b := QuorumOf(net, acts, base, n, height, q, k, m, o, decode);
    TwoQuorums(a, b, base, n, Evolve(net, acts, height).signed, height, p, o);
  }

  /** Agreement: with fewer than a third of the members signing two different ballots, any two
      nodes that accept a producer accept the same one, whenever each of them enters the two
      critical sections of its tally. */
  lemma AgreementHolds(net: Network, acts: seq<Action>, base: seq<Slot>, n: nat, height: string,
                       r: nat, i: nat, j: nat, p: nat, q: nat, k: nat, m: nat, o: nat, decode: Base64)
    requires Start(net, base, n) && AllPossible(net, acts, height) && DistinctProducers(base, n)
    requires AcceptsIn(net, acts, height, r, i, j, n, p, decode)
    requires AcceptsIn(net, acts, height, q, k, m, n, o, decode)
    requires 3 * |Equivocators(Evolve(net, acts, height).signed, base, n, height)| < n
    ensures p == o
  {
    hide AcceptsIn, Start, AllPossible, DistinctProducers;
    if p != o {
      DisagreementNeedsEquivocation(net, acts, base, n, height, r, i, j, p, q, k, m, o, decode);
    }
  }

  // ---------- The bound is sharp ----------

  lemma Extend(net: Network, acts: seq<Action>, a: Action, height: string)
    requires AllPossible(net, acts, height) && Possible(Evolve(net, acts, height), a)
    ensures AllPossible(net, acts + [a], height)
    ensures Evolve(net, acts + [a], height) == Act(Evolve(net, acts, height), a, height)
  {
    assert (acts + [a])[..|acts + [a]| - 1] == acts;
  }

  /** Members A, B and C. */
  function Member(i: nat): Slot
    requires i < 3
  {
    BLANK.(address := ["A", "B", "C"][i], key := ["aa", "bb", "cc"][i])
  }

  function Three(): seq<Slot> {
    [Member(0), Member(1), Member(2)]
  }

  lemma FirstOfThree()
    ensures forall i :: 0 <= i < 3 ==> First(Three(), Member(i).address) == i
  {
    assert "A"[0] != "B"[0] && "A"[0] != "C"[0] && "B"[0] != "C"[0];
    FirstFound(Three(), "A", 0);
    FirstFound(Three(), "B", 1);
    FirstFound(Three(), "C", 2);
  }

  /** C's vote for member p. */
  function VoteOfC(p: nat): Vote
    requires p < 3
  {
    Vote("C", Member(p).address, Member(p).key, "", "", "", "", true)
  }

  /** A ledger of the three members after its node's own vote for itself and C's vote for it. */
  function TwoVotes(p: nat): Ledger
    requires p < 3
  {
    Step(Step(Step(Ledger(Three(), map[], {}), Own(p, p), ""), Begin(VoteOfC(p)), ""), End(2), "")
  }

  /** What both of the node's critical sections find. */
  ghost predicate HasTwoVotes(s: seq<Slot>, p: nat)
    requires p < 2
  {
    && |s| == 3 && SameList(Three(), s)
    && s[p].total == 2 && s[1 - p].total == 0 && s[2].total == 0
    && s[p].voted && s[2].voted && !s[1 - p].voted
    && s[p].selected == s[2].selected == Member(p).address
  }

  lemma TwoVotesCount(p: nat)
    requires p < 2
    ensures var l0 := Ledger(Three(), map[], {});
            var l1 := Step(l0, Own(p, p), "");
            && OwnVoteFits(l0, Own(p, p)) && SameList(Three(), l1.slots)
            && HasTwoVotes(TwoVotes(p).slots, p)
  {
    var l0 := Ledger(Three(), map[], {});
    var l1 := Step(l0, Own(p, p), "");
    var m := VoteOfC(p);
    FirstOfThree();
    OwnVoteIs(l0.slots, p, p);
    SameFirsts(Three(), l1.slots);
    var l2 := Step(l1, Begin(m), "");
    assert Admits(l1.slots, m);
    MarkedIs(l1.slots, m);
    SameFirsts(l1.slots, l2.slots);
    assert Counts(l2.slots, m);
    AddedIs(l2.slots, m);
  }

  /** A decoder that makes 64 octets of every signature. */
  function AnySignature(signature: string): Option<seq<byte>> {
    Some(Padding(SIGNATURE_BYTES))
  }

  lemma MemberHashes(i: nat, s: Slot)
    requires i < 3 && s.key == Member(i).key && s.beta == ""
    ensures VoteHash(s, AnySignature).Some?
  {
    assert s.key[2..] == "" && Pairs("") == Some([]);
    assert Pairs(s.key).Some?;
  }

  lemma {:induction false} AllHash(s: seq<Slot>, winner: string, decode: Base64)
    requires forall k :: 0 <= k < |s| ==> VoteHash(s[k], decode).Some?
    ensures VoteHashes(s, winner, decode).Some?
  {
    hide VoteHash;
    if s != [] {
      AllHash(s[..|s| - 1], winner, decode);
    }
  }

  lemma LeaderOfTwo(s: seq<Slot>, p: nat)
    requires p < 2 && HasTwoVotes(s, p)
    ensures Leader(s) == p
  {
    LeaderIs(s);
    hide Leader, SameList;
  }

  lemma MatchingTwo(s: seq<Slot>, p: nat)
    requires p < 2 && HasTwoVotes(s, p)
    ensures s[p].address == Member(p).address && |MatchingVoters(s, Member(p).address)| == 2
  {
    assert s[p].address == Three()[p].address && s[2].address == Three()[2].address;
    assert MatchingVoters(s, Member(p).address) == {p, 2};
  }

  lemma MembersHash(s: seq<Slot>, p: nat)
    requires p < 2 && HasTwoVotes(s, p)
    ensures VoteHashes(s, Member(p).address, AnySignature).Some?
  {
    hide VoteHash, VoteHashes;
    forall k | 0 <= k < 3 ensures VoteHash(s[k], AnySignature).Some? {
      assert Three()[k] == Member(k) && s[k].key == Three()[k].key && s[k].beta == Three()[k].beta;
      MemberHashes(k, s[k]);
    }
    AllHash(s, Member(p).address, AnySignature);
  }

  /** Such a node accepts. */
  lemma TwoVotesAccept(s: seq<Slot>, p: nat)
    requires p < 2 && HasTwoVotes(s, p)
    ensures Decide(s, s, p, AnySignature).Accepted?
  {
    LeaderOfTwo(s, p);
    MatchingTwo(s, p);
    MembersHash(s, p);
    hide VoteHash, VoteHashes, FinalHash, Leader, SameList, MatchingVoters;
    HashesCountVoters(s, Member(p).address, AnySignature);
  }

  /** One more event at node r, in the state (nodes, signed). */
  lemma Append(net: Network, acts: seq<Action>, r: nat, e: Event, nodes: seq<Ledger>, signed: set<Ballot>)
    returns (more: seq<Action>)
    requires AllPossible(net, acts, "") && Evolve(net, acts, "") == Network(nodes, signed)
    requires r < |nodes| && Possible(Network(nodes, signed), At(r, e))
    ensures AllPossible(net, more, "")
    ensures Evolve(net, more, "")
         == Network(nodes[r := Step(nodes[r], e, "")],
                    if e.Own? then signed + {OwnBallot(nodes[r].slots, e, "")} else signed)
  {
    more := acts + [At(r, e)];
    Extend(net, acts, At(r, e), "");
    hide Evolve, AllPossible, Step, OwnBallot, OwnVoteFits;
  }

  lemma OwnIsPossible(r: nat, p: nat, nodes: seq<Ledger>, signed: set<Ballot>)
    requires p < 2 && r < |nodes| && nodes[r] == Ledger(Three(), map[], {})
    ensures Possible(Network(nodes, signed), At(r, Own(p, p)))
    ensures OwnBallot(Three(), Own(p, p), "") == Ballot(Member(p).address, "", Member(p).key, "")
  {
    TwoVotesCount(p);
    assert Three()[p] == Member(p) && Member(p).beta == "";
    assert Member(p).address != "";
  }

  lemma VoteIsPossible(r: nat, p: nat, nodes: seq<Ledger>, signed: set<Ballot>)
    requires p < 2 && r < |nodes|
    ensures BallotOf(VoteOfC(p)) in signed ==> Possible(Network(nodes, signed), At(r, Begin(VoteOfC(p))))
    ensures Possible(Network(nodes, signed), At(r, End(2)))
  {
  }

  /** One node's part of the run. */
  lemma NodeActs(net: Network, acts: seq<Action>, r: nat, p: nat, nodes: seq<Ledger>, signed: set<Ballot>)
    returns (more: seq<Action>)
    requires p < 2 && r < |nodes| && AllPossible(net, acts, "") && Evolve(net, acts, "") == Network(nodes, signed)
    requires nodes[r] == Ledger(Three(), map[], {}) && BallotOf(VoteOfC(p)) in signed
    ensures AllPossible(net, more, "")
    ensures Evolve(net, more, "")
         == Network(nodes[r := TwoVotes(p)], signed + {Ballot(Member(p).address, "", Member(p).key, "")})
  {
    var l0 := Ledger(Three(), map[], {});
    var own, begin, end := Own(p, p), Begin(VoteOfC(p)), End(2);
    var l1 := Step(l0, own, "");
    var l2 := Step(l1, begin, "");
    assert TwoVotes(p) == Step(l2, end, "");
    OwnIsPossible(r, p, nodes, signed);
    hide Step, Evolve, AllPossible, BallotOf, VoteOfC, Member, Three, TwoVotes, OwnBallot, Possible;
    var moreSigned := signed + {OwnBallot(l0.slots, own, "")};
    VoteIsPossible(r, p, nodes[r := l1], moreSigned);
    VoteIsPossible(r, p, nodes[r := l2], moreSigned);
    more := Append(net, acts, r, own, nodes, signed);
    more := Append(net, more, r, begin, nodes[r := l1], moreSigned);
    more := Append(net, more, r, end, nodes[r := l2], moreSigned);
  }

  lemma Signing(net: Network, b: Ballot, c: Ballot) returns (acts: seq<Action>)
    requires b.voter != "" && c.voter != ""
    ensures AllPossible(net, acts, "") && Evolve(net, acts, "") == Network(net.nodes, net.signed + {b, c})
  {
    assert AllPossible(net, [], "") && Evolve(net, [], "") == net;
    Extend(net, [], Sign(b), "");
    hide Evolve, AllPossible;
    Extend(net, [] + [Sign(b)], Sign(c), "");
    acts := [] + [Sign(b)] + [Sign(c)];
    assert net.signed + {b} + {c} == net.signed + {b, c};
  }

  /** What is signed in the end: the two ballots of C, and one of A and of B. */
  function SharpBallots(): set<Ballot> {
    {BallotOf(VoteOfC(0)), BallotOf(VoteOfC(1))} + {Ballot(Member(0).address, "", Member(0).key, "")}
    + {Ballot(Member(1).address, "", Member(1).key, "")}
  }

  lemma SharpRun() returns (net: Network, acts: seq<Action>)
    ensures net == Network([Ledger(Three(), map[], {}), Ledger(Three(), map[], {})], {})
    ensures AllPossible(net, acts, "")
    ensures Evolve(net, acts, "") == Network([TwoVotes(0), TwoVotes(1)], SharpBallots())
  {
    var l0 := Ledger(Three(), map[], {});
    net := Network([l0, l0], {});
    assert BallotOf(VoteOfC(0)).voter != "" && BallotOf(VoteOfC(1)).voter != "";
    hide Step, Evolve, AllPossible, BallotOf, VoteOfC, Member, Three, TwoVotes;
    acts := Signing(net, BallotOf(VoteOfC(0)), BallotOf(VoteOfC(1)));
    var signed := {BallotOf(VoteOfC(0)), BallotOf(VoteOfC(1))};
    acts := NodeActs(net, acts, 0, 0, net.nodes, signed);
    signed := signed + {Ballot(Member(0).address, "", Member(0).key, "")};
    acts := NodeActs(net, acts, 1, 1, [TwoVotes(0), l0], signed);
  }

  /** With one equivocator among three members, exactly a third, two nodes can accept different
      producers: fewer than a third is the best bound there is. */
  lemma BoundIsSharp() returns (net: Network, acts: seq<Action>, base: seq<Slot>)
    ensures Start(net, base, 3) && DistinctProducers(base, 3) && AllPossible(net, acts, "")
    ensures AcceptsIn(net, acts, "", 0, |acts|, |acts|, 3, 0, AnySignature)
    ensures AcceptsIn(net, acts, "", 1, |acts|, |acts|, 3, 1, AnySignature)
    ensures 3 * |Equivocators(Evolve(net, acts, "").signed, base, 3, "")| == 3
  {
    base := Three();
    net, acts := SharpRun();
    StartOfThree(net);
    OnlyC();
    TwoVotesAccepted(0);
    TwoVotesAccepted(1);
    hide Evolve, AllPossible, TwoVotes, Start, DistinctProducers, Equivocators, Accepts, AcceptsIn, Three, SharpBallots;
    AcceptsAtEnd(net, acts, 0, 3, 0, AnySignature);
    AcceptsAtEnd(net, acts, 1, 3, 1, AnySignature);
  }

  lemma AcceptsAtEnd(net: Network, acts: seq<Action>, r: nat, n: nat, p: nat, decode: Base64)
    requires r < |net.nodes|
    requires Accepts(Evolve(net, acts, "").nodes[r], Evolve(net, acts, "").nodes[r], n, p, decode)
    ensures AcceptsIn(net, acts, "", r, |acts|, |acts|, n, p, decode)
  {
    assert acts[..|acts|] == acts;
  }

  lemma TwoVotesAccepted(p: nat)
    requires p < 2
    ensures Accepts(TwoVotes(p), TwoVotes(p), 3, p, AnySignature)
  {
    TwoVotesCount(p);
    hide TwoVotes, Decide;
    var s := TwoVotes(p).slots;
    assert s[..3] == s;
    TwoVotesAccept(s, p);
  }

  lemma StartOfThree(net: Network)
    requires net == Network([Ledger(Three(), map[], {}), Ledger(Three(), map[], {})], {})
    ensures Start(net, Three(), 3) && DistinctProducers(Three(), 3)
  {
    assert "aa"[0] != "bb"[0] && "aa"[0] != "cc"[0] && "bb"[0] != "cc"[0];
  }

  lemma BallotsAre()
    ensures SharpBallots() == {Ballot("C", "", "aa", ""), Ballot("C", "", "bb", ""), Ballot("A", "", "aa", ""),
                               Ballot("B", "", "bb", "")}
    ensures "A" != "B" && "A" != "C" && "B" != "C" && "aa" != "bb"
  {
    assert "A"[0] != "B"[0] && "A"[0] != "C"[0] && "B"[0] != "C"[0] && "aa"[0] != "bb"[0];
  }

  lemma OneEquivocates(signed: set<Ballot>, a: string, b: string, c: string, k: string, m: string)
    requires a != c && b != c && a != b && k != m
    requires signed == {Ballot(c, "", k, ""), Ballot(c, "", m, ""), Ballot(a, "", k, ""), Ballot(b, "", m, "")}
    ensures Equivocates(signed, c, "") && !Equivocates(signed, a, "") && !Equivocates(signed, b, "")
  {
    assert Ballot(c, "", k, "") in signed && Ballot(c, "", m, "") in signed;
  }

  lemma OnlyC()
    ensures Equivocators(SharpBallots(), Three(), 3, "") == {2}
  {
    BallotsAre();
    hide SharpBallots, Equivocates;
    OneEquivocates(SharpBallots(), "A", "B", "C", "aa", "bb");
  }
}
