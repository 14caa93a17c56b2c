/** Agreement from the election to the tally: the nodes build their committees from the list of
    delegates online, vote, and count. */
module Rounds {
  import opened VerifierSlots
  import opened Committee
  import opened VoteLedger
  import opened VoteTally
  import opened Agreement

  ghost predicate DistinctKeys(list: seq<Slot>, n: nat)
    requires n <= |list|
  {
    forall i, j :: 0 <= i < j < n ==> list[i].key != list[j].key
  }

  /** What is kept of the slots chosen, and that no vote is recorded. */
  lemma ElectedSlot(src: seq<Slot>, seeds: seq<string>, n: nat, j: nat)
    requires n <= |src| && j < |Members(src, seeds, n)|
    ensures Members(src, seeds, n)[j] < n
    ensures CommitteeList(src, seeds, n)[j] == Cleared(src[Members(src, seeds, n)[j]])
  {
    MembersDistinct(src, seeds, n);
    hide Members;
  }

  lemma ElectedProducers(src: seq<Slot>, seeds: seq<string>, n: nat)
    requires n <= |src| && DistinctKeys(src, n)
    ensures DistinctProducers(CommitteeList(src, seeds, n), |Members(src, seeds, n)|)
  {
    MembersDistinct(src, seeds, n);
    hide Members, CommitteeList;
    var list, m := CommitteeList(src, seeds, n), Members(src, seeds, n);
    forall p, q | 0 <= p < q < |m| ensures list[p].key != list[q].key {
      ElectedSlot(src, seeds, n, p);
      ElectedSlot(src, seeds, n, q);
    }
  }

  lemma ElectedIsFresh(src: seq<Slot>, seeds: seq<string>, n: nat)
    requires n <= |src|
    ensures Fresh(Ledger(CommitteeList(src, seeds, n), map[], {}))
  {
    hide Members;
  }

  /** Every node starts the round's votes with the list its election left. */
  ghost predicate Elected(net: Network, list: seq<Slot>) {
    net.signed == {} && forall r :: 0 <= r < |net.nodes| ==> net.nodes[r] == Ledger(list, map[], {})
  }

  /** The hypotheses of agreement hold after every election from delegates with distinct keys. */
  lemma ElectionStarts(net: Network, src: seq<Slot>, online: nat, stuck: bool, lastWinner: string, seeds: seq<string>)
    requires |src| == BLOCK_VERIFIERS && DistinctKeys(src, Least(online, BLOCK_VERIFIERS))
    requires RoundOf(src, online, false, stuck, lastWinner, seeds).Some?
    requires Elected(net, RoundOf(src, online, false, stuck, lastWinner, seeds).value.list)
    ensures var round := RoundOf(src, online, false, stuck, lastWinner, seeds).value;
            Start(net, round.list, round.count) && DistinctProducers(round.list, round.count)
  {
    var n := Least(online, BLOCK_VERIFIERS);
    RoundIs(src, online, stuck, lastWinner, seeds);
    ElectedProducers(src, seeds, n);
    ElectedIsFresh(src, seeds, n);
    hide RoundOf, Members, CommitteeList, DistinctProducers;
  }

  /** From the election to the tally: nodes that saw the same delegates online, each with its own
      memory of the last winner, never accept different producers while fewer than a third of the
      committee sign two different ballots. At the first proof-of-stake height they never do. */
  lemma RoundAgreement(net: Network, acts: seq<Action>, height: string, src: seq<Slot>, online: nat, bootstrap: bool,
                       seeds: seq<string>, decode: Base64,
                       r: nat, i: nat, j: nat, stuck: bool, lastWinner: string,
                       q: nat, k: nat, m: nat, otherStuck: bool, otherWinner: string)
    requires |src| == BLOCK_VERIFIERS && DistinctKeys(src, Least(online, BLOCK_VERIFIERS))
    requires RoundOf(src, online, bootstrap, stuck, lastWinner, seeds).Some?
    requires RoundOf(src, online, bootstrap, otherStuck, otherWinner, seeds).Some?
    requires var round := RoundOf(src, online, bootstrap, stuck, lastWinner, seeds).value;
             var other := RoundOf(src, online, bootstrap, otherStuck, otherWinner, seeds).value;
             && Elected(net, round.list) && AllPossible(net, acts, height)
             && AcceptsIn(net, acts, height, r, i, j, round.count, round.producer, decode)
             && AcceptsIn(net, acts, height, q, k, m, other.count, other.producer, decode)
             && (bootstrap ||
                 3 * |Equivocators(Evolve(net, acts, height).signed, round.list, round.count, height)| < round.count)
    ensures RoundOf(src, online, bootstrap, stuck, lastWinner, seeds)
         == RoundOf(src, online, bootstrap, otherStuck, otherWinner, seeds)
  {
    if !bootstrap {
      var round := RoundOf(src, online, false, stuck, lastWinner, seeds).value;
      var other := RoundOf(src, online, false, otherStuck, otherWinner, seeds).value;
      RoundIs(src, online, stuck, lastWinner, seeds);
      RoundIs(src, online, otherStuck, otherWinner, seeds);
      ElectionStarts(net, src, online, stuck, lastWinner, seeds);
      hide RoundOf, Members, CommitteeList, Start, Elected, AllPossible, AcceptsIn, Equivocators, DistinctProducers,
           DistinctKeys;
      AgreementHolds(net, acts, round.list, round.count, height, r, i, j, round.producer, q, k, m, other.producer,
                     decode);
    }
  }
}
