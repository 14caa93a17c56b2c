/** The election in terms of the hexadecimal outputs the delegates publish: who is a candidate, who
    comes ahead of whom, what an elected slot keeps, and who produces. */
module Election {
  import opened Wrappers
  import opened Hex
  import opened HexOrder
  import opened VerifierSlots
  import opened Committee

  // ---------- Candidates ----------

  /** A named delegate, no seed, with an output of 128 hexadecimal digits. */
  predicate IsCandidate(s: Slot, seeds: seq<string>) {
    s.address != "" && s.address !in seeds && |s.beta| == 128 && HexText(s.beta)
  }

  /** The candidate in slot i comes before the one in slot j: its output is less in the order of a
      dictionary, case aside, or the same and its slot is earlier. */
  ghost predicate Ahead(src: seq<Slot>, i: nat, j: nat)
    requires i < |src| && j < |src|
  {
    var a, b := Lowered(src[i].beta), Lowered(src[j].beta);
    LexLess(a, b) || (a == b && i < j)
  }

  lemma CandidateIs(s: Slot, seeds: seq<string>)
    ensures Eligible(s, seeds) <==> IsCandidate(s, seeds)
    ensures Eligible(s, seeds) ==> Spells(BetaOf(s), s.beta)
  {
    DecodingIs(s.beta, 64);
    hide HexText, HexBytes, Spells;
  }

  lemma AheadIs(src: seq<Slot>, seeds: seq<string>, i: nat, j: nat)
    requires i < |src| && j < |src| && i != j && Eligible(src[i], seeds) && Eligible(src[j], seeds)
    ensures Before(src, i, j) <==> Ahead(src, i, j)
  {
    CandidateIs(src[i], seeds);
    CandidateIs(src[j], seeds);
    hide BetaOf, Spells, Lowered, LexLess, Eligible, IsCandidate;
    OrderIs(BetaOf(src[i]), src[i].beta, BetaOf(src[j]), src[j].beta);
  }

  // ---------- The committee ----------

  ghost function CandidateSet(src: seq<Slot>, seeds: seq<string>, n: nat): set<nat>
    requires n <= |src|
  {
    set i: nat | i < n && IsCandidate(src[i], seeds)
  }

  lemma SameSets(src: seq<Slot>, seeds: seq<string>, n: nat)
    requires n <= |src|
    ensures EligibleSet(src, seeds, n) == CandidateSet(src, seeds, n)
  {
    hide Eligible, IsCandidate;
    forall i: nat | i < n ensures Eligible(src[i], seeds) <==> IsCandidate(src[i], seeds) {
      CandidateIs(src[i], seeds);
    }
  }

  /** c lists slots of candidates, each ahead of the next and all of them ahead of everyone not listed;
      ten of them, or everyone there is. */
  ghost predicate IsElected(src: seq<Slot>, seeds: seq<string>, n: nat, c: seq<nat>)
    requires n <= |src|
  {
    && (forall j :: 0 <= j < |c| ==> c[j] in CandidateSet(src, seeds, n))
    && (forall j, k :: 0 <= j < k < |c| ==> c[j] < |src| && c[k] < |src| && Ahead(src, c[j], c[k]))
    && (forall e, j :: e in CandidateSet(src, seeds, n) && e !in c && 0 <= j < |c| ==>
          c[j] < |src| && e < |src| && Ahead(src, c[j], e))
    && |c| <= 10
    && (|c| == 10 || forall e :: e in CandidateSet(src, seeds, n) ==> e in c)
  }

  lemma ElectedInOrder(src: seq<Slot>, seeds: seq<string>, n: nat, j: nat, k: nat)
    requires n <= |src| && j < k < |Lowest(src, seeds, n)|
    ensures var c := Lowest(src, seeds, n); c[j] < |src| && c[k] < |src| && Ahead(src, c[j], c[k])
  {
    CommitteeIsLowest(src, seeds, n);
    hide Lowest, Before, Ahead, Eligible;
    BeforeIsAhead(src, seeds, n, Lowest(src, seeds, n)[j], Lowest(src, seeds, n)[k]);
  }

  lemma LeftBehind(src: seq<Slot>, seeds: seq<string>, n: nat, j: nat, e: nat)
    requires n <= |src| && j < |Lowest(src, seeds, n)| && e in EligibleSet(src, seeds, n)
    requires e !in Lowest(src, seeds, n)
    ensures var c := Lowest(src, seeds, n); c[j] < |src| && e < |src| && Ahead(src, c[j], e)
  {
    CommitteeIsLowest(src, seeds, n);
    hide Lowest, Before, Ahead, Eligible;
    BeforeIsAhead(src, seeds, n, Lowest(src, seeds, n)[j], e);
  }

  lemma LowestIsElected(src: seq<Slot>, seeds: seq<string>, n: nat)
    requires n <= |src|
    ensures IsElected(src, seeds, n, Lowest(src, seeds, n))
  {
    CommitteeIsLowest(src, seeds, n);
    SameSets(src, seeds, n);
    var c := Lowest(src, seeds, n);
    hide Lowest, Before, Ahead, EligibleSet, CandidateSet;
    forall j, k | 0 <= j < k < |c| ensures c[j] < |src| && c[k] < |src| && Ahead(src, c[j], c[k]) {
      ElectedInOrder(src, seeds, n, j, k);
    }
    forall e, j | e in CandidateSet(src, seeds, n) && e !in c && 0 <= j < |c|
      ensures c[j] < |src| && e < |src| && Ahead(src, c[j], e)
    {
      LeftBehind(src, seeds, n, j, e);
    }
  }

  lemma BeforeIsAhead(src: seq<Slot>, seeds: seq<string>, n: nat, i: nat, j: nat)
    requires n <= |src| && i in EligibleSet(src, seeds, n) && j in EligibleSet(src, seeds, n) && Before(src, i, j)
    ensures Ahead(src, i, j)
  {
    AheadIs(src, seeds, i, j);
  }

  /** What the list keeps of a delegate: everything but the votes, of which there are none. */
  predicate KeepsDelegate(s: Slot, from: Slot) {
    && s.name == from.name && s.address == from.address && s.key == from.key && s.ip == from.ip
    && s.proof == from.proof && s.beta == from.beta
    && s.total == 0 && !s.voted && s.signature == "" && s.selected == ""
  }

  lemma SlotIs(src: seq<Slot>, m: seq<nat>, j: nat)
    requires j < |m| && m[j] < |src|
    ensures var list := seq(|m|, k requires 0 <= k < |m| => if m[k] < |src| then Cleared(src[m[k]]) else BLANK);
            KeepsDelegate(list[j], src[m[j]])
  {
  }

  lemma SlotOf(src: seq<Slot>, seeds: seq<string>, n: nat, j: nat)
    requires n <= |src| && j < |Members(src, seeds, n)|
    ensures var m, list := Members(src, seeds, n), CommitteeList(src, seeds, n);
            m[j] < |src| && KeepsDelegate(list[j], src[m[j]])
  {
    IndicesInRange(src, seeds, n);
    MembersInRange(src, seeds, n);
    hide Members, KeepsDelegate, Lowest, FirstSeeds;
    SlotIs(src, Members(src, seeds, n), j);
  }

  lemma MembersInRange(src: seq<Slot>, seeds: seq<string>, n: nat)
    requires n <= |src|
    requires forall j :: 0 <= j < |Lowest(src, seeds, n)| ==> Lowest(src, seeds, n)[j] < |src|
    requires forall j :: 0 <= j < |FirstSeeds(src, seeds, n)| ==> FirstSeeds(src, seeds, n)[j] < |src|
    ensures var c, s, m := Lowest(src, seeds, n), FirstSeeds(src, seeds, n), Members(src, seeds, n);
            m == c + s && |m| <= 50 && forall j :: 0 <= j < |m| ==> m[j] < |src|
  {
    CommitteeIsLowest(src, seeds, n);
    hide Lowest, FirstSeeds, Eligible, Before;
  }

  lemma BlankAfter(src: seq<Slot>, seeds: seq<string>, n: nat, j: nat)
    requires n <= |src| && |Lowest(src, seeds, n)| + |FirstSeeds(src, seeds, n)| <= j < 50
    ensures var s := CommitteeList(src, seeds, n)[j]; s.address == "" && s.key == "" && s.total == 0
  {
    hide Lowest, FirstSeeds;
  }

  lemma SeedIndices(src: seq<Slot>, seeds: seq<string>, n: nat)
    requires n <= |src|
    ensures var s := FirstSeeds(src, seeds, n);
            |s| <= 4 && forall j :: 0 <= j < |s| ==> s[j] < n && src[s[j]].address in seeds
  {
    SeedsAreFirst(src, seeds, n);
    hide FirstSeeds;
    assert forall j :: 0 <= j < |FirstSeeds(src, seeds, n)| ==> EligibleSeed(src[FirstSeeds(src, seeds, n)[j]], seeds);
  }

  /** The list after the election: the elected in order, then up to four seeds, and blanks. */
  lemma ElectedList(src: seq<Slot>, seeds: seq<string>, n: nat)
    requires n <= |src|
    ensures var c, s, list := Lowest(src, seeds, n), FirstSeeds(src, seeds, n), CommitteeList(src, seeds, n);
            && |list| == 50 && |s| <= 4 && IsElected(src, seeds, n, c)
            && (forall j :: 0 <= j < |c| ==> c[j] < |src| && KeepsDelegate(list[j], src[c[j]]))
            && (forall j :: 0 <= j < |s| ==>
                  s[j] < n && src[s[j]].address in seeds && KeepsDelegate(list[|c| + j], src[s[j]]))
            && (forall j :: |c| + |s| <= j < 50 ==> list[j].address == "" && list[j].key == "" && list[j].total == 0)
  {
    LowestIsElected(src, seeds, n);
    SeedIndices(src, seeds, n);
    IndicesInRange(src, seeds, n);
    MembersInRange(src, seeds, n);
    hide Lowest, FirstSeeds, IsElected, CommitteeList, KeepsDelegate, Members;
    var c, s, list := Lowest(src, seeds, n), FirstSeeds(src, seeds, n), CommitteeList(src, seeds, n);
    forall j | 0 <= j < |c| ensures c[j] < |src| && KeepsDelegate(list[j], src[c[j]]) {
      SlotOf(src, seeds, n, j);
    }
    forall j | 0 <= j < |s| ensures |c| + j < 50 && KeepsDelegate(list[|c| + j], src[s[j]]) {
      SlotOf(src, seeds, n, |c| + j);
    }
    forall j | |c| + |s| <= j < 50 ensures list[j].address == "" && list[j].key == "" && list[j].total == 0 {
      BlankAfter(src, seeds, n, j);
    }
  }

  // ---------- The producer ----------

  /** w is a candidate and nobody but those in before is ahead of it. */
  ghost predicate LeastBut(src: seq<Slot>, seeds: seq<string>, n: nat, w: nat, before: set<nat>)
    requires n <= |src|
  {
    && w in CandidateSet(src, seeds, n) && w !in before
    && forall i :: i in CandidateSet(src, seeds, n) && i != w && i !in before ==> w < |src| && Ahead(src, w, i)
  }

  lemma ListedBefore(src: seq<Slot>, seeds: seq<string>, n: nat, c: seq<nat>, k: nat, i: nat)
    requires n <= |src| && IsElected(src, seeds, n, c) && k < |c| && i in CandidateSet(src, seeds, n)
    requires forall j :: 0 <= j <= k ==> c[j] != i
    ensures c[k] < |src| && i < |src| && Ahead(src, c[k], i)
  {
    hide IsCandidate, Ahead;
    if i in c {
      var j :| 0 <= j < |c| && c[j] == i;
    }
  }

  lemma FirstIsLeast(src: seq<Slot>, seeds: seq<string>, n: nat, c: seq<nat>)
    requires n <= |src| && IsElected(src, seeds, n, c) && c != []
    ensures LeastBut(src, seeds, n, c[0], {})
  {
    assert c[0] in CandidateSet(src, seeds, n);
    hide IsElected, CandidateSet, Ahead;
    forall i | i in CandidateSet(src, seeds, n) && i != c[0] ensures c[0] < |src| && i < |src| && Ahead(src, c[0], i) {
      ListedBefore(src, seeds, n, c, 0, i);
    }
  }

  lemma InOrder(src: seq<Slot>, seeds: seq<string>, n: nat, c: seq<nat>)
    requires n <= |src| && IsElected(src, seeds, n, c) && |c| >= 2
    ensures c[0] < |src| && c[1] < |src| && Ahead(src, c[0], c[1]) && c[0] != c[1]
    ensures c[0] in CandidateSet(src, seeds, n) && c[1] in CandidateSet(src, seeds, n)
  {
    hide Ahead, IsCandidate;
    NotBehindItself(src, c[0], c[1]);
  }

  lemma SecondIsNext(src: seq<Slot>, seeds: seq<string>, n: nat, c: seq<nat>)
    requires n <= |src| && IsElected(src, seeds, n, c) && |c| >= 2
    ensures c[0] < |src| && c[1] < |src| && Ahead(src, c[0], c[1]) && LeastBut(src, seeds, n, c[1], {c[0]})
  {
    InOrder(src, seeds, n, c);
    hide IsElected, CandidateSet, Ahead;
    forall i | i in CandidateSet(src, seeds, n) && i != c[1] && i != c[0]
      ensures c[1] < |src| && i < |src| && Ahead(src, c[1], i)
    {
      ListedBefore(src, seeds, n, c, 1, i);
    }
  }

  lemma NotBehindItself(src: seq<Slot>, i: nat, j: nat)
    requires i < |src| && j < |src| && Ahead(src, i, j)
    ensures i != j
  {
    if i == j {
      Irreflexive(Lowered(src[i].beta));
    }
  }

  lemma Irreflexive(a: string)
    ensures !LexLess(a, a)
  {
  }

  /** The node skips the slot f: the chain is stuck and f was its last winner. */
  predicate Skips(stuck: bool, lastWinner: string, f: Slot) {
    stuck && lastWinner != "" && lastWinner == f.name
  }

  /** The round goes on with s as producer. */
  predicate Produces(r: Option<Round>, s: Slot) {
    r.Some? && r.value.producer < |r.value.list| && KeepsDelegate(r.value.list[r.value.producer], s)
  }

  lemma OnlyCandidate(src: seq<Slot>, seeds: seq<string>, n: nat, c: seq<nat>)
    requires n <= |src| && IsElected(src, seeds, n, c) && |c| == 1
    ensures CandidateSet(src, seeds, n) == {c[0]}
  {
    hide Ahead, IsCandidate;
    assert c[0] in CandidateSet(src, seeds, n);
  }

  /** What part 6 does with the elected. */
  lemma RoundWith(src: seq<Slot>, online: nat, stuck: bool, lastWinner: string, seeds: seq<string>)
    requires |src| == 50
    ensures var n := if online < 50 then online else 50;
            var c, r := Lowest(src, seeds, n), RoundOf(src, online, false, stuck, lastWinner, seeds);
            && IsElected(src, seeds, n, c)
            && (c == [] <==> CandidateSet(src, seeds, n) == {})
            && (c == [] ==> r.None?)
            && (c != [] ==> c[0] < |src|)
            && (c != [] && !Skips(stuck, lastWinner, src[c[0]]) ==> Produces(r, src[c[0]]))
            && (|c| == 1 && Skips(stuck, lastWinner, src[c[0]]) ==> r.None?)
            && (|c| >= 2 && Skips(stuck, lastWinner, src[c[0]]) ==> c[1] < |src| && Produces(r, src[c[1]]))
            && (r.Some? ==> r.value.list == CommitteeList(src, seeds, n) &&
                            r.value.count == |c| + |FirstSeeds(src, seeds, n)|)
  {
    var n := Least(online, BLOCK_VERIFIERS);
    LowestIs(src, seeds, n);
    SameSets(src, seeds, n);
    ElectedList(src, seeds, n);
    hide IsElected, IsCandidate, Lowest, CommitteeList, Candidates, ProducerIndex, FirstSeeds, KeepsDelegate;
    if Candidates(src, seeds, n) != [] {
      ProducerIsLowest(src, seeds, n, stuck, lastWinner);
    }
  }

  /** Part 6 at every height but the first: the candidate with the least output produces; on a stuck
      chain that it produced last, the one after it; and the round is given up if there is none. */
  lemma LeastOutputProduces(src: seq<Slot>, online: nat, stuck: bool, lastWinner: string, seeds: seq<string>)
    requires |src| == 50
    ensures var n := if online < 50 then online else 50;
            var candidates := CandidateSet(src, seeds, n);
            match RoundOf(src, online, false, stuck, lastWinner, seeds)
            case None =>
              candidates == {} ||
              exists f: nat :: LeastBut(src, seeds, n, f, {}) && f < |src| && candidates == {f} &&
                Skips(stuck, lastWinner, src[f])
            case Some(r) =>
              exists f: nat :: LeastBut(src, seeds, n, f, {}) && f < |src| &&
                if Skips(stuck, lastWinner, src[f]) then
                  exists w: nat :: LeastBut(src, seeds, n, w, {f}) && w < |src| && Ahead(src, f, w) &&
                    Produces(Some(r), src[w])
                else Produces(Some(r), src[f])
  {
    var n := Least(online, BLOCK_VERIFIERS);
    var c := Lowest(src, seeds, n);
    RoundWith(src, online, stuck, lastWinner, seeds);
    hide Ahead, CandidateSet, Lowest, RoundOf, Produces, Skips, LeastBut, IsElected;
    if c != [] {
      FirstIsLeast(src, seeds, n, c);
      if |c| == 1 {
        OnlyCandidate(src, seeds, n, c);
      } else {
        SecondIsNext(src, seeds, n, c);
      }
    }
  }

  /** At the first proof-of-stake height the list stays and its first slot produces, with at most
      fourteen slots as committee. */
  lemma FirstHeight(list: seq<Slot>, online: nat, stuck: bool, lastWinner: string, seeds: seq<string>)
    requires |list| == 50
    ensures var r := RoundOf(list, online, true, stuck, lastWinner, seeds);
            r.Some? && r.value.list == list && r.value.producer == 0 &&
            r.value.count == if online < 14 then online else 14
  {
  }

  lemma LowerDigit(c: char)
    requires c in DIGITS
    ensures Lower(c) == c
  {
    var v :| 0 <= v < |DIGITS| && DIGITS[v] == c;
    DigitCode(v);
    hide DIGITS;
  }

  /** For outputs in lower case the order is that of the texts themselves. */
  lemma LowerCase(s: string)
    requires forall i :: 0 <= i < |s| ==> s[i] in DIGITS
    ensures Lowered(s) == s
  {
    hide DIGITS, Lower;
    forall i | 0 <= i < |s| ensures Lowered(s)[i] == s[i] {
      LowerDigit(s[i]);
    }
  }
}
