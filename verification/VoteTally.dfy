/** The vote handlers and part 7 of the round on the shared list itself, and what a node that
    accepts a producer has counted. */
module VoteTally {
  import opened Wrappers
  import opened Bytes
  import opened Hex
  import opened Sorting
  import opened Sha256Spec
  import opened VerifierSlots
  import opened VoteLedger
  import opened VotePreimage
  import Sha256Code = Sha256

  // ---------- The two critical sections ----------

  lemma {:induction false} FirstFound(s: seq<Slot>, a: string, i: nat)
    requires i <= |s| && (i < |s| ==> s[i].address == a)
    requires forall k :: 0 <= k < i ==> s[k].address != a
    ensures First(s, a) == i
  {
    FirstIs(s, a);
  }

  method MarkVoted(list: array<Slot>, m: Vote) returns (admitted: bool)
    modifies list
    ensures admitted == Admits(old(list[..]), m)
    ensures list[..] == if admitted then Marked(old(list[..]), m) else old(list[..])
  {
    ghost var s := list[..];
    for i := 0 to list.Length
      invariant list[..] == s
      invariant forall k :: 0 <= k < i ==> s[k].address != m.voter
    {
      if m.voter == list[i].address {
        FirstFound(s, m.voter, i);
        if !m.verified || list[i].voted {
          return false;
        }
        list[i] := list[i].(voted := true, signature := m.signature, selected := m.producer);
        return true;
      }
    }
    FirstFound(s, m.voter, |s|);
    admitted := false;
  }

  method AddToTotal(list: array<Slot>, m: Vote) returns (added: bool)
    modifies list
    ensures added == Counts(old(list[..]), m)
    ensures list[..] == if added then Added(old(list[..]), m) else old(list[..])
  {
    ghost var s := list[..];
    for i := 0 to list.Length
      invariant list[..] == s
      invariant forall k :: 0 <= k < i ==> s[k].address != m.producer
    {
      if m.producer != list[i].address {
        continue;
      }
      FirstFound(s, m.producer, i);
      if m.key != list[i].key || m.proof != list[i].proof || m.beta != list[i].beta {
        return false;
      }
      list[i] := list[i].(total := list[i].total + 1);
      return true;
    }
    FirstFound(s, m.producer, |s|);
    added := false;
  }

  /** The handler without interference: exactly its two steps of the ledger. */
  method ReceiveVote(list: array<Slot>, m: Vote, height: string, ghost l: Ledger)
    requires l.slots == list[..]
    modifies list
    ensures var i := First(old(list[..]), m.voter);
            list[..] == if Admits(old(list[..]), m) then Step(Step(l, Begin(m), height), End(i), height).slots
                        else Step(l, Begin(m), height).slots
  {
    hide First, Marked, Added, Counts, Admits;
    var admitted := MarkVoted(list, m);
    if !admitted {
      return;
    }
    if m.height != height {
      return;
    }
    var added := AddToTotal(list, m);
  }

  /** The node's own vote, if it is in the committee. */
  method CastOwnVote(list: array<Slot>, count: nat, address: string, producer: nat) returns (member: bool, me: nat)
    requires producer < count <= list.Length
    modifies list
    ensures member == (First(old(list[..]), address) < count)
    ensures member ==> me == First(old(list[..]), address)
    ensures list[..] == if member then WithOwnVote(old(list[..]), First(old(list[..]), address), producer)
                        else old(list[..])
  {
    ghost var s := list[..];
    member, me := false, 0;
    for i := 0 to count
      invariant list[..] == s && !member
      invariant forall k :: 0 <= k < i ==> s[k].address != address
    {
      if address == list[i].address {
        member, me := true, i;
        FirstFound(s, address, i);
        break;
      }
    }
    FirstIs(s, address);
    if member {
      list[producer] := list[producer].(total := list[producer].total + 1);
      list[me] := list[me].(voted := true, selected := list[producer].address);
    }
  }

  /** The last part of block_verifiers_create_vote_majority_result. */
  method StoreSignature(list: array<Slot>, address: string, signature: string)
    modifies list
    ensures list[..] == WithSignature(old(list[..]), address, signature)
  {
    ghost var s := list[..];
    for i := 0 to list.Length
      invariant list[..] == s
      invariant forall k :: 0 <= k < i ==> s[k].address != address
    {
      if list[i].address == address {
        FirstFound(s, address, i);
        list[i] := list[i].(signature := signature);
        return;
      }
    }
    FirstFound(s, address, |s|);
  }

  // ---------- The tally ----------

  const SIGNATURE_BYTES: nat := 64

  datatype Decision =
    | Accepted(votes: nat, hash: seq<byte>)
    | NoVotes
    | BadVote
    | CountMismatch
    | WrongProducer
    | TooFewVotes

  type Base64 = string -> Option<seq<byte>>

  predicate Matches(s: Slot, winner: string) {
    s.voted && s.selected == winner && s.address != ""
  }

  /** A signature without its "SigV2" prefix. */
  function Encoded(signature: string): string {
    if |signature| >= 5 && signature[..5] == "SigV2" then signature[5..] else signature
  }

  /** The hash of one counted vote: the voter's output, key and signature. */
  function VoteHash(s: Slot, decode: Base64): Option<seq<byte>> {
    match (decode(Encoded(s.signature)), HexBytes(s.beta, BETA_BYTES), HexBytes(s.key, KEY_BYTES))
    case (Some(sig), Some(beta), Some(key)) =>
      if |sig| == SIGNATURE_BYTES then Some(Sha256(beta + key + sig)) else None
    case _ => None
  }

  /** The hashes of the matching votes in slot order; None if one of them does not decode. */
  function VoteHashes(s: seq<Slot>, winner: string, decode: Base64): (r: Option<seq<seq<byte>>>)
    ensures r.Some? ==> |r.value| <= |s|
  {
    if s == [] then Some([]) else
      match VoteHashes(s[..|s| - 1], winner, decode)
      case None => None
      case Some(hashes) =>
        if !Matches(s[|s| - 1], winner) then Some(hashes) else
          match VoteHash(s[|s| - 1], decode)
          case None => None
          case Some(h) => Some(hashes + [h])
  }

  /** The digest over the sorted vote hashes. */
  function FinalHash(hashes: seq<seq<byte>>): seq<byte> {
    Sha256(Concat(Sort(hashes, MemLe)))
  }

  /** The first slot with the most votes. */
  function Leader(s: seq<Slot>): (i: nat)
    requires s != []
    ensures i < |s|
  {
    if |s| == 1 then 0 else
      var i := Leader(s[..|s| - 1]);
      if s[|s| - 1].total > s[i].total then |s| - 1 else i
  }

  lemma {:induction false} LeaderIs(s: seq<Slot>)
    requires s != []
    ensures forall k :: 0 <= k < |s| ==> s[k].total <= s[Leader(s)].total
    ensures forall k :: 0 <= k < Leader(s) ==> s[k].total < s[Leader(s)].total
  {
    if |s| > 1 {
      var front := s[..|s| - 1];
      LeaderIs(front);
      forall k | 0 <= k < |s| ensures s[k].total <= s[Leader(s)].total {
        assert k == |s| - 1 || s[k] == front[k];
      }
    }
  }

  /** Part 7 after the wait, over the first slots of the list, the committee: s is what the first
      critical section finds, which looks for the maximum, and t what the second one finds, which
      hashes the votes. */
  function Decide(s: seq<Slot>, t: seq<Slot>, producer: nat, decode: Base64): Decision
    requires s != [] && |t| == |s|
  {
    var w := Leader(s);
    if s[w].total == 0 then NoVotes else
      match VoteHashes(t, t[w].address, decode)
      case None => BadVote
      case Some(hashes) =>
        if |hashes| != s[w].total then CountMismatch
        else if w != producer then WrongProducer
        else if s[w].total < Needed(|s|) then TooFewVotes
        else Accepted(s[w].total, FinalHash(hashes))
  }

  method MaxVotes(list: array<Slot>, count: nat) returns (maxIndex: int, maxVotes: int)
    requires 0 < count <= list.Length
    ensures maxIndex == Leader(list[..count]) && maxVotes == list[maxIndex].total
  {
    maxIndex, maxVotes := -1, -1;
    for i := 0 to count
      invariant i == 0 ==> maxVotes == -1
      invariant i > 0 ==> maxIndex == Leader(list[..i]) && maxVotes == list[maxIndex].total
    {
      assert list[..i + 1][..i] == list[..i];
      var votes := list[i].total;
      if votes > maxVotes {
        maxVotes := votes;
        maxIndex := i;
      }
    }
  }

  lemma VoteHashesStep(s: seq<Slot>, i: nat, winner: string, decode: Base64)
    requires i < |s| && VoteHashes(s[..i], winner, decode).Some?
    ensures var hashes := VoteHashes(s[..i], winner, decode).value;
            VoteHashes(s[..i + 1], winner, decode) ==
              if !Matches(s[i], winner) then Some(hashes)
              else if VoteHash(s[i], decode).None? then None
              else Some(hashes + [VoteHash(s[i], decode).value])
  {
    assert s[..i + 1][..i] == s[..i];
  }

  lemma {:induction false} StaysUndecoded(s: seq<Slot>, i: nat, winner: string, decode: Base64)
    requires i <= |s| && VoteHashes(s[..i], winner, decode).None?
    ensures VoteHashes(s, winner, decode).None?
    decreases |s|
  {
    if i < |s| {
      assert s[..|s| - 1][..i] == s[..i];
      StaysUndecoded(s[..|s| - 1], i, winner, decode);
    } else {
      assert s[..i] == s;
    }
  }

  method HashOneVote(s: Slot, decode: Base64) returns (r: Option<seq<byte>>)
    ensures r == VoteHash(s, decode)
  {
    hide Sha256;
    var sig := decode(Encoded(s.signature));
    if sig.None? || |sig.value| != SIGNATURE_BYTES {
      return None;
    }
    var beta := HexBytes(s.beta, BETA_BYTES);
    if beta.None? {
      return None;
    }
    var key := HexBytes(s.key, KEY_BYTES);
    if key.None? {
      return None;
    }
    var hash := Sha256Code.HashAll(beta.value + key.value + sig.value);
    r := Some(hash);
  }

  /** The counted votes, at most one per committee slot, so that the buffer of fourteen suffices. */
  method CollectVotes(list: array<Slot>, count: nat, winner: string, decode: Base64)
    returns (ok: bool, hashes: array<seq<byte>>, n: nat)
    requires count <= list.Length && count <= COMMITTEE_SIZE + SEED_COUNT
    ensures ok == VoteHashes(list[..count], winner, decode).Some?
    ensures n <= hashes.Length && (ok ==> hashes[..n] == VoteHashes(list[..count], winner, decode).value)
  {
    hide VoteHash, Matches;
    hashes, n, ok := new seq<byte>[COMMITTEE_SIZE + SEED_COUNT](_ => []), 0, true;
    ghost var s := list[..count];
    for i := 0 to count
      invariant n <= i && list[..count] == s
      invariant VoteHashes(s[..i], winner, decode) == Some(hashes[..n])
    {
      VoteHashesStep(s, i, winner, decode);
      if !Matches(list[i], winner) {
        continue;
      }
      var h := HashOneVote(list[i], decode);
      if h.None? {
        StaysUndecoded(s, i + 1, winner, decode);
        return false, hashes, n;
      }
      ghost var before := hashes[..n];
      hashes[n] := h.value;
      n := n + 1;
      assert hashes[..n] == before + [h.value];
    }
    assert s[..count] == s;
  }

  /** Concatenating and hashing the sorted vote hashes. */
  method HashVotes(hashes: seq<seq<byte>>) returns (hash: seq<byte>)
    ensures hash == FinalHash(hashes)
  {
    var sorted := Sort(hashes, MemLe);
    var concat: seq<byte> := [];
    for i := 0 to |sorted|
      invariant concat == Concat(sorted[..i])
    {
      ConcatSnoc(sorted, i);
      concat := concat + sorted[i];
    }
    assert sorted[..|sorted|] == sorted;
    hash := Sha256Code.HashAll(concat);
  }

  /** The lock is released between the two critical sections, and handlers may run in between: list
      is the shared list as the first section finds it, later as the second does. */
  method TallyVotes(list: array<Slot>, later: array<Slot>, count: nat, producer: nat, decode: Base64)
    returns (d: Decision)
    requires 0 < count <= list.Length == later.Length && count <= COMMITTEE_SIZE + SEED_COUNT
    ensures d == Decide(list[..count], later[..count], producer, decode)
  {
    hide VoteHashes, FinalHash, Leader;
    var maxIndex, maxVotes := MaxVotes(list, count);
    if maxIndex < 0 || maxVotes <= 0 {
      return NoVotes;
    }
    var ok, hashes, n := CollectVotes(later, count, later[maxIndex].address, decode);
    if !ok {
      return BadVote;
    }
    if n != maxVotes {
      return CountMismatch;
    }
    if maxIndex != producer {
      return WrongProducer;
    }
    var final := HashVotes(hashes[..n]);
    if maxVotes < (2 * count + 2) / 3 {
      return TooFewVotes;
    }
    d := Accepted(maxVotes, final);
  }

  // ---------- What acceptance means ----------

  ghost function MatchingVoters(s: seq<Slot>, winner: string): set<nat> {
    set i: nat | i < |s| && Matches(s[i], winner)
  }

  lemma {:induction false} HashesCountVoters(s: seq<Slot>, winner: string, decode: Base64)
    requires VoteHashes(s, winner, decode).Some?
    ensures |VoteHashes(s, winner, decode).value| == |MatchingVoters(s, winner)|
  {
    hide Matches, VoteHash;
    if s == [] {
      assert MatchingVoters(s, winner) == {};
    } else {
      var front, n := s[..|s| - 1], |s| - 1;
      HashesCountVoters(front, winner, decode);
      if Matches(s[n], winner) {
        assert MatchingVoters(s, winner) == MatchingVoters(front, winner) + {n};
      } else {
        assert MatchingVoters(s, winner) == MatchingVoters(front, winner);
      }
    }
  }

  /** A node that accepts has counted two thirds of the committee for the producer and no slot with
      more, and hashes as many votes, each of another member. */
  lemma AcceptanceMeans(s: seq<Slot>, t: seq<Slot>, producer: nat, decode: Base64)
    requires s != [] && |t| == |s| && Decide(s, t, producer, decode).Accepted?
    ensures producer < |s| && s[producer].total == Decide(s, t, producer, decode).votes >= Needed(|s|)
    ensures |MatchingVoters(t, t[producer].address)| == s[producer].total
    ensures forall k :: 0 <= k < |s| ==> s[k].total <= s[producer].total
    ensures forall k :: 0 <= k < producer ==> s[k].total < s[producer].total
  {
    hide Sha256, VoteHashes, Leader, FinalHash, Matches;
    HashesCountVoters(t, t[Leader(s)].address, decode);
    LeaderIs(s);
  }

  ghost predicate CountedAreNamed(l: Ledger) {
    forall i :: i in l.counted && i < |l.slots| ==> l.slots[i].address != ""
  }

  lemma SubsetOfSameSize(a: set<nat>, b: set<nat>)
    requires a <= b && |a| == |b|
    ensures a == b
  {
    assert b == a + (b - a);
  }

  /** What was counted for the producer at the first section still matches at the second. */
  lemma CountedMatch(l: Ledger, k: Ledger, n: nat, p: nat, i: nat)
    requires CountedIsMarked(l) && KeepsCounted(l, k) && CountedAreNamed(l) && BlankFrom(l.slots, n) && p < n
    requires i in Tallied(l, p)
    ensures i in MatchingVoters(k.slots[..n], k.slots[p].address)
  {
    FirstIs(l.slots, l.slots[i].selected);
    hide First;
    assert i < n && k.slots[..n][i] == k.slots[i];
  }

  /** Whatever handlers did between the two sections, the votes hashed by a node that accepts are
      exactly those it had counted. */
  lemma HashedAreCounted(l: Ledger, k: Ledger, n: nat, producer: nat, decode: Base64)
    requires Invariant(l) && KeepsCounted(l, k) && CountedAreNamed(l) && BlankFrom(l.slots, n) && 0 < n
    requires Decide(l.slots[..n], k.slots[..n], producer, decode).Accepted?
    ensures producer < n && |Tallied(l, producer)| >= Needed(n)
    ensures MatchingVoters(k.slots[..n], k.slots[producer].address) == Tallied(l, producer)
  {
    hide Decide, MatchingVoters, Tallied, CountedIsMarked, PendingIsMarked;
    AcceptanceMeans(l.slots[..n], k.slots[..n], producer, decode);
    var hashed := MatchingVoters(k.slots[..n], k.slots[producer].address);
    forall i | i in Tallied(l, producer) ensures i in hashed {
      CountedMatch(l, k, n, producer, i);
    }
    SubsetOfSameSize(Tallied(l, producer), hashed);
  }

  /** The digest of the votes does not depend on the order of the slots they were found in. */
  lemma FinalHashIgnoresOrder(a: seq<seq<byte>>, b: seq<seq<byte>>)
    requires multiset(a) == multiset(b)
    ensures FinalHash(a) == FinalHash(b)
  {
    MemOrder();
    SortOfPermutation(a, b, MemLe);
  }
}
