/** When a node accepts a producer, and over which octets it then hashes, in terms of the slots alone. */
module TallyAcceptance {
  import opened Wrappers
  import opened Bytes
  import opened Hex
  import opened HexOrder
  import opened Sorting
  import opened Sha256Spec
  import opened VerifierSlots
  import opened VotePreimage
  import opened Indices
  import opened OctetLayout
  import opened VoteTally

  // ---------- Voters and votes ----------

  /** The members recorded as voting for the address in slot p. */
  ghost function VotersFor(t: seq<Slot>, p: nat): set<nat>
    requires p < |t|
  {
    set i: nat | i < |t| && t[i].voted && t[i].selected == t[p].address && t[i].address != ""
  }

  /** Every earlier slot has fewer votes, and no slot more. */
  ghost predicate IsFirstMaximum(s: seq<Slot>, p: nat) {
    && p < |s|
    && (forall k :: 0 <= k < p ==> s[k].total < s[p].total)
    && (forall k :: 0 <= k < |s| ==> s[k].total <= s[p].total)
  }

  lemma LeaderIsFirstMaximum(s: seq<Slot>, p: nat)
    requires s != []
    ensures Leader(s) == p <==> IsFirstMaximum(s, p)
  {
    LeaderIs(s);
    hide Leader;
  }

  /** x is the signature without a leading "SigV2". */
  ghost predicate IsBody(signature: string, x: string) {
    signature == "SigV2" + x || (signature == x && !IsTagged(signature))
  }

  ghost predicate IsTagged(signature: string) {
    exists y :: signature == "SigV2" + y
  }

  lemma Tagged(y: string)
    ensures var t := "SigV2" + y; |t| >= 5 && t[..5] == "SigV2" && t[5..] == y
  {
    assert |"SigV2"| == 5;
  }

  lemma BodyIs(signature: string, x: string)
    ensures Encoded(signature) == x <==> IsBody(signature, x)
  {
    forall y ensures var t := "SigV2" + y; |t| >= 5 && t[..5] == "SigV2" && t[5..] == y {
      Tagged(y);
    }
    if |signature| >= 5 && signature[..5] == "SigV2" {
      assert signature == "SigV2" + signature[5..];
    }
  }

  /** v is what is hashed for a vote: 64 octets of output, 32 of key and 64 of signature. */
  ghost predicate VoteReads(s: Slot, decode: Base64, v: seq<byte>) {
    && |v| == 160 && Fills(v[..64], s.beta, 64) && Fills(v[64..96], s.key, 32)
    && exists x :: IsBody(s.signature, x) && decode(x) == Some(v[96..])
  }

  lemma Parts(beta: seq<byte>, key: seq<byte>, sig: seq<byte>)
    requires |beta| == 64 && |key| == 32 && |sig| == 64
    ensures var v := beta + key + sig; |v| == 160 && v[..64] == beta && v[64..96] == key && v[96..] == sig
  {
  }

  lemma VoteReadsIs(s: Slot, decode: Base64, v: seq<byte>, beta: seq<byte>, key: seq<byte>, sig: seq<byte>)
    requires HexBytes(s.beta, 64) == Some(beta) && HexBytes(s.key, 32) == Some(key)
    requires decode(Encoded(s.signature)) == Some(sig) && |sig| == 64
    ensures VoteReads(s, decode, v) <==> v == beta + key + sig
  {
    Parts(beta, key, sig);
    BodyIs(s.signature, Encoded(s.signature));
    FillIs(s.beta, 64, beta);
    FillIs(s.key, 32, key);
    hide Fills, HexBytes, Encoded, IsBody;
    if VoteReads(s, decode, v) {
      FillIs(s.beta, 64, v[..64]);
      FillIs(s.key, 32, v[64..96]);
      var x :| IsBody(s.signature, x) && decode(x) == Some(v[96..]);
      BodyIs(s.signature, x);
      assert v == v[..64] + v[64..96] + v[96..];
    }
  }

  lemma ReadingDecodes(s: Slot, decode: Base64, v: seq<byte>)
    ensures VoteReads(s, decode, v) ==>
            HexBytes(s.beta, 64).Some? && HexBytes(s.key, 32).Some? &&
            decode(Encoded(s.signature)).Some? && |decode(Encoded(s.signature)).value| == 64
  {
    hide Fills, HexBytes, Encoded, IsBody;
    if VoteReads(s, decode, v) {
      FillIs(s.beta, 64, v[..64]);
      FillIs(s.key, 32, v[64..96]);
      var x :| IsBody(s.signature, x) && decode(x) == Some(v[96..]);
      BodyIs(s.signature, x);
    }
  }

  /** What a vote hashes to, if its three texts decode. */
  lemma VoteHashIs(s: Slot, decode: Base64)
    ensures VoteHash(s, decode).Some? <==> exists v :: VoteReads(s, decode, v)
    ensures forall v :: VoteReads(s, decode, v) ==> VoteHash(s, decode) == Some(Sha256(v))
  {
    hide Sha256, Fills, HexBytes, Encoded, IsBody;
    var sig, beta, key := decode(Encoded(s.signature)), HexBytes(s.beta, 64), HexBytes(s.key, 32);
    forall v ensures VoteReads(s, decode, v) ==> sig.Some? && |sig.value| == 64 && beta.Some? && key.Some? {
      ReadingDecodes(s, decode, v);
    }
    if sig.Some? && |sig.value| == 64 && beta.Some? && key.Some? {
      var u := beta.value + key.value + sig.value;
      forall v ensures VoteReads(s, decode, v) <==> v == u {
        VoteReadsIs(s, decode, v, beta.value, key.value, sig.value);
      }
      hide VoteReads;
      assert VoteReads(s, decode, u);
    }
  }

  // ---------- The votes in slot order ----------

  /** c lists the voters of slot p in slot order, and votes what each of them hashes. */
  ghost predicate ListsVotes(t: seq<Slot>, p: nat, decode: Base64, c: seq<nat>, votes: seq<seq<byte>>)
    requires p < |t|
  {
    && |c| == |votes|
    && (forall j :: 0 <= j < |c| ==> c[j] in VotersFor(t, p) && VoteReads(t[c[j]], decode, votes[j]))
    && Ascending(c)
    && (forall i :: i in VotersFor(t, p) ==> i in c)
  }

  /** The same for the first n slots, as the loop sees them. */
  ghost predicate ListsBelow(t: seq<Slot>, winner: string, decode: Base64, c: seq<nat>, votes: seq<seq<byte>>) {
    && |c| == |votes|
    && (forall j :: 0 <= j < |c| ==> c[j] < |t| && Matches(t[c[j]], winner) && VoteReads(t[c[j]], decode, votes[j]))
    && Ascending(c)
    && (forall i: nat :: i < |t| && Matches(t[i], winner) ==> i in c)
  }

  ghost predicate HashesOf(votes: seq<seq<byte>>, hashes: seq<seq<byte>>) {
    |hashes| == |votes| && forall j :: 0 <= j < |votes| ==> hashes[j] == Sha256(votes[j])
  }

  lemma ListOneMore(t: seq<Slot>, winner: string, decode: Base64, c: seq<nat>, votes: seq<seq<byte>>, v: seq<byte>)
    requires t != [] && ListsBelow(t[..|t| - 1], winner, decode, c, votes)
    ensures !Matches(t[|t| - 1], winner) ==> ListsBelow(t, winner, decode, c, votes)
    ensures Matches(t[|t| - 1], winner) && VoteReads(t[|t| - 1], decode, v) ==>
            ListsBelow(t, winner, decode, c + [|t| - 1], votes + [v])
  {
    hide Matches, VoteReads;
    var n := |t| - 1;
    forall i: nat | i < |t| && Matches(t[i], winner) ensures i in c || i == n {
      assert i == n || t[..n][i] == t[i];
    }
    assert forall j :: 0 <= j < |c| ==> t[..n][c[j]] == t[c[j]];
    assert (c + [n])[|c|] == n;
  }

  lemma HashOneMore(votes: seq<seq<byte>>, hashes: seq<seq<byte>>, v: seq<byte>)
    requires HashesOf(votes, hashes)
    ensures HashesOf(votes + [v], hashes + [Sha256(v)])
  {
    hide Sha256;
  }

  /** The hashes the loop collects are those of the votes in slot order. */
  lemma {:induction false} HashesAreListed(t: seq<Slot>, winner: string, decode: Base64)
    returns (c: seq<nat>, votes: seq<seq<byte>>)
    requires VoteHashes(t, winner, decode).Some?
    ensures ListsBelow(t, winner, decode, c, votes) && HashesOf(votes, VoteHashes(t, winner, decode).value)
  {
    if t == [] {
      c, votes := [], [];
    } else {
      var last := t[|t| - 1];
      c, votes := HashesAreListed(t[..|t| - 1], winner, decode);
      VoteHashIs(last, decode);
      hide Matches, VoteReads, VoteHash, Sha256, ListsBelow, HashesOf;
      if Matches(last, winner) {
        var v :| VoteReads(last, decode, v);
        ListOneMore(t, winner, decode, c, votes, v);
        HashOneMore(votes, VoteHashes(t[..|t| - 1], winner, decode).value, v);
        c, votes := c + [|t| - 1], votes + [v];
      } else {
        ListOneMore(t, winner, decode, c, votes, []);
      }
    }
  }

  ghost predicate Reads(s: Slot, decode: Base64) {
    exists v :: VoteReads(s, decode, v)
  }

  ghost predicate AllRead(t: seq<Slot>, winner: string, decode: Base64) {
    forall i :: 0 <= i < |t| && Matches(t[i], winner) ==> Reads(t[i], decode)
  }

  lemma OneMoreReads(t: seq<Slot>, winner: string, decode: Base64)
    requires t != []
    ensures AllRead(t, winner, decode) <==>
            AllRead(t[..|t| - 1], winner, decode) && (Matches(t[|t| - 1], winner) ==> Reads(t[|t| - 1], decode))
  {
    hide Matches, Reads;
    var front := t[..|t| - 1];
    assert forall i :: 0 <= i < |front| ==> front[i] == t[i];
  }

  /** There are hashes if every vote reads. */
  lemma {:induction false} HashesExist(t: seq<Slot>, winner: string, decode: Base64)
    ensures VoteHashes(t, winner, decode).Some? <==> AllRead(t, winner, decode)
  {
    if t != [] {
      var last := t[|t| - 1];
      HashesExist(t[..|t| - 1], winner, decode);
      VoteHashIs(last, decode);
      OneMoreReads(t, winner, decode);
      assert Reads(last, decode) <==> VoteHash(last, decode).Some?;
      hide Matches, VoteHash, Reads, AllRead;
    }
  }

  // ---------- The decision ----------

  ghost predicate EveryVoteReads(t: seq<Slot>, p: nat, decode: Base64)
    requires p < |t|
  {
    forall i :: i in VotersFor(t, p) ==> Reads(t[i], decode)
  }

  lemma SameVoters(t: seq<Slot>, p: nat)
    requires p < |t|
    ensures MatchingVoters(t, t[p].address) == VotersFor(t, p)
  {
  }

  lemma VotesDecode(t: seq<Slot>, p: nat, decode: Base64)
    requires p < |t|
    ensures VoteHashes(t, t[p].address, decode).Some? <==> EveryVoteReads(t, p, decode)
    ensures VoteHashes(t, t[p].address, decode).Some? ==>
            |VoteHashes(t, t[p].address, decode).value| == |VotersFor(t, p)|
  {
    HashesExist(t, t[p].address, decode);
    SameVoters(t, p);
    hide Reads, VoteHashes;
    if VoteHashes(t, t[p].address, decode).Some? {
      HashesCountVoters(t, t[p].address, decode);
    }
  }

  /** Part 7 in full: s the slots when the maximum is taken, t when the votes are hashed. */
  lemma DecisionIs(s: seq<Slot>, t: seq<Slot>, w: nat, producer: nat, decode: Base64)
    requires |t| == |s| && IsFirstMaximum(s, w)
    ensures var d := Decide(s, t, producer, decode);
            && (d.NoVotes? <==> s[w].total == 0)
            && (d.BadVote? <==> s[w].total > 0 && !EveryVoteReads(t, w, decode))
            && (s[w].total > 0 && EveryVoteReads(t, w, decode) ==>
                 && (d.CountMismatch? <==> |VotersFor(t, w)| != s[w].total)
                 && (d.WrongProducer? <==> |VotersFor(t, w)| == s[w].total && w != producer)
                 && (d.TooFewVotes? <==> |VotersFor(t, w)| == s[w].total && w == producer && 3 * s[w].total < 2 * |s|)
                 && (d.Accepted? <==> |VotersFor(t, w)| == s[w].total && w == producer && 3 * s[w].total >= 2 * |s|))
  {
    LeaderIsFirstMaximum(s, w);
    VotesDecode(t, w, decode);
    hide Leader, VoteHashes, FinalHash, EveryVoteReads, VotersFor, IsFirstMaximum;
  }

  /** The node accepts slot p exactly if p has the most votes, before any other slot with as many, they
      are two thirds of the committee, and the voters recorded for p are as many and their votes read. */
  lemma AcceptedIff(s: seq<Slot>, t: seq<Slot>, p: nat, decode: Base64)
    requires s != [] && |t| == |s|
    ensures Decide(s, t, p, decode).Accepted? <==>
            p < |s| && IsFirstMaximum(s, p) && s[p].total > 0 && 3 * s[p].total >= 2 * |s| &&
            |VotersFor(t, p)| == s[p].total && EveryVoteReads(t, p, decode)
  {
    LeaderIsFirstMaximum(s, Leader(s));
    hide Leader;
    DecisionIs(s, t, Leader(s), p, decode);
    LeaderIsFirstMaximum(s, p);
    hide Decide, EveryVoteReads, VotersFor, IsFirstMaximum;
  }

  /** What is hashed on acceptance: the hashes of the votes, in ascending order, end to end. */
  ghost predicate IsFinalHash(t: seq<Slot>, p: nat, decode: Base64, hash: seq<byte>)
    requires p < |t|
  {
    exists c, votes, hashes, q, m ::
      ListsVotes(t, p, decode, c, votes) && HashesOf(votes, hashes) && Arranged(q, hashes) && EndToEnd(q, m) &&
      hash == Sha256(m)
  }

  lemma HashesAreRows(votes: seq<seq<byte>>, hashes: seq<seq<byte>>)
    requires HashesOf(votes, hashes)
    ensures AllRows(hashes)
  {
    hide Sha256;
  }

  lemma ListedAreVoters(t: seq<Slot>, p: nat, decode: Base64, c: seq<nat>, votes: seq<seq<byte>>)
    requires p < |t| && ListsBelow(t, t[p].address, decode, c, votes)
    ensures ListsVotes(t, p, decode, c, votes)
  {
    hide VoteReads;
  }

  lemma AcceptedHash(s: seq<Slot>, t: seq<Slot>, p: nat, decode: Base64)
    requires s != [] && |t| == |s| && Decide(s, t, p, decode).Accepted?
    ensures p < |t| && Decide(s, t, p, decode).votes == s[p].total
    ensures IsFinalHash(t, p, decode, Decide(s, t, p, decode).hash)
  {
    AcceptanceMeans(s, t, p, decode);
    hide VoteHashes, Leader, Sha256, Sort, Concat;
    assert VoteHashes(t, t[p].address, decode).Some?;
    var hashes := VoteHashes(t, t[p].address, decode).value;
    assert Decide(s, t, p, decode).hash == FinalHash(hashes);
    var c, votes := HashesAreListed(t, t[p].address, decode);
    ListedAreVoters(t, p, decode, c, votes);
    HashesAreRows(votes, hashes);
    SortArranges(hashes);
    ConcatIs(Sort(hashes, MemLe));
    hide ListsVotes, HashesOf, Arranged, EndToEnd;
  }
}
