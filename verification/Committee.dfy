/** build_committee_list_from_online_list and the choice of the producer: the ten online
    non-seeds with the lowest VRF outputs, then up to four seeds. */
module Committee {
  import opened Wrappers
  import opened Bytes
  import opened Hex
  import opened Sorting
  import opened VerifierSlots

  // ---------- Who is eligible ----------

  predicate Eligible(s: Slot, seeds: seq<string>) {
    s.address != "" && s.address !in seeds && |s.beta| == BETA_LENGTH && HexBytes(s.beta, BETA_LENGTH / 2).Some?
  }

  predicate EligibleSeed(s: Slot, seeds: seq<string>) {
    s.address != "" && s.address in seeds && |s.beta| == BETA_LENGTH
  }

  /** The VRF output of an eligible slot. */
  function BetaOf(s: Slot): (b: seq<byte>) {
    var r := HexBytes(s.beta, BETA_LENGTH / 2);
    if r.Some? then r.value else []
  }

  datatype Candidate = Candidate(beta: seq<byte>, idx: nat)

  function Candidates(src: seq<Slot>, seeds: seq<string>, n: nat): (c: seq<Candidate>)
    requires n <= |src|
    ensures |c| <= n
  {
    if n == 0 then [] else
      Candidates(src, seeds, n - 1) +
      (if Eligible(src[n - 1], seeds) then [Candidate(BetaOf(src[n - 1]), n - 1)] else [])
  }

  function SeedIndices(src: seq<Slot>, seeds: seq<string>, n: nat): (s: seq<nat>)
    requires n <= |src|
    ensures |s| <= n
  {
    if n == 0 then [] else
      SeedIndices(src, seeds, n - 1) + (if EligibleSeed(src[n - 1], seeds) then [n - 1] else [])
  }

  /** committee_candidate_cmp(a, b) <= 0. */
  predicate CandidateLe(a: Candidate, b: Candidate) {
    if a.beta == b.beta then a.idx <= b.idx else MemLe(a.beta, b.beta)
  }

  lemma CandidateOrder()
    ensures TotalOrder(CandidateLe)
  {
    forall a, b ensures CandidateLe(a, b) || CandidateLe(b, a) {
      MemTotal(a.beta, b.beta);
    }
    forall a, b | CandidateLe(a, b) && CandidateLe(b, a) ensures a == b {
      MemTotal(a.beta, b.beta);
    }
    forall a, b, c | CandidateLe(a, b) && CandidateLe(b, c) ensures CandidateLe(a, c) {
      MemTotal(a.beta, b.beta);
      if a.beta != b.beta && b.beta != c.beta {
        MemTransitive(a.beta, b.beta, c.beta);
      }
    }
  }

  // ---------- The committee ----------

  function Least(m: nat, n: nat): nat {
    if m < n then m else n
  }

  function Ranked(src: seq<Slot>, seeds: seq<string>, n: nat): seq<Candidate>
    requires n <= |src|
  {
    Sort(Candidates(src, seeds, n), CandidateLe)
  }

  /** The indices of the winner-eligible members, best first. */
  function Lowest(src: seq<Slot>, seeds: seq<string>, n: nat): (c: seq<nat>)
    requires n <= |src|
    ensures |c| <= COMMITTEE_SIZE
  {
    var ranked := Ranked(src, seeds, n);
    seq(Least(|ranked|, COMMITTEE_SIZE), j requires 0 <= j < |ranked| => ranked[j].idx)
  }

  function FirstSeeds(src: seq<Slot>, seeds: seq<string>, n: nat): (s: seq<nat>)
    requires n <= |src|
    ensures |s| <= SEED_COUNT
  {
    var all := SeedIndices(src, seeds, n);
    all[..Least(|all|, SEED_COUNT)]
  }

  function Members(src: seq<Slot>, seeds: seq<string>, n: nat): (m: seq<nat>)
    requires n <= |src|
    ensures |m| <= COMMITTEE_SIZE + SEED_COUNT
  {
    Lowest(src, seeds, n) + FirstSeeds(src, seeds, n)
  }

  // ---------- What the committee is, without sorting ----------

  ghost function EligibleSet(src: seq<Slot>, seeds: seq<string>, n: nat): set<nat>
    requires n <= |src|
  {
    set i: nat | i < n && Eligible(src[i], seeds)
  }

  /** Slot a comes before slot b in the election: lower output, and the lower index on a tie. */
  ghost predicate Before(src: seq<Slot>, a: nat, b: nat)
    requires a < |src| && b < |src|
  {
    a != b && CandidateLe(Candidate(BetaOf(src[a]), a), Candidate(BetaOf(src[b]), b))
  }

  ghost predicate ListsEligible(src: seq<Slot>, seeds: seq<string>, n: nat, c: seq<Candidate>)
    requires n <= |src|
  {
    && (forall k :: 0 <= k < |c| ==> c[k].idx < n && Eligible(src[c[k].idx], seeds) &&
                                      c[k].beta == BetaOf(src[c[k].idx]))
    && (forall j, k :: 0 <= j < k < |c| ==> c[j].idx < c[k].idx)
  }

  lemma {:induction false} CandidatesIncrease(src: seq<Slot>, seeds: seq<string>, n: nat)
    requires n <= |src|
    ensures ListsEligible(src, seeds, n, Candidates(src, seeds, n))
  {
    hide Eligible, BetaOf;
    if n > 0 {
      CandidatesIncrease(src, seeds, n - 1);
    }
  }

  lemma {:induction false} CandidatesAre(src: seq<Slot>, seeds: seq<string>, n: nat)
    requires n <= |src|
    ensures |EligibleSet(src, seeds, n)| == |Candidates(src, seeds, n)|
    ensures forall i :: i in EligibleSet(src, seeds, n) ==>
                          Candidate(BetaOf(src[i]), i) in Candidates(src, seeds, n)
  {
    hide Eligible, BetaOf;
    if n > 0 {
      CandidatesAre(src, seeds, n - 1);
      var before, now := EligibleSet(src, seeds, n - 1), EligibleSet(src, seeds, n);
      if Eligible(src[n - 1], seeds) {
        assert now == before + {n - 1};
      } else {
        assert now == before;
      }
    }
  }

  lemma {:induction false} CountInDistinct<T>(t: seq<T>, x: T)
    requires forall j, k :: 0 <= j < k < |t| ==> t[j] != t[k]
    ensures multiset(t)[x] <= 1
  {
    if t != [] {
      CountInDistinct(t[1..], x);
      assert t == [t[0]] + t[1..];
      if x == t[0] {
        assert x !in t[1..];
      }
    }
  }

  lemma {:induction false} DistinctRearranged<T>(s: seq<T>, t: seq<T>)
    requires multiset(s) == multiset(t)
    requires forall j, k :: 0 <= j < k < |t| ==> t[j] != t[k]
    ensures forall j, k :: 0 <= j < k < |s| ==> s[j] != s[k]
  {
    forall j, k | 0 <= j < k < |s| ensures s[j] != s[k] {
      CountInDistinct(t, s[j]);
      assert s == s[..k] + s[k..] && s[j] in s[..k] && s[k] in s[k..];
    }
  }

  /** The ranking lists the eligible slots once each, best first. */
  lemma RankedAre(src: seq<Slot>, seeds: seq<string>, n: nat)
    requires n <= |src|
    ensures var r := Ranked(src, seeds, n);
            && |r| == |EligibleSet(src, seeds, n)|
            && (forall k :: 0 <= k < |r| ==> r[k].idx in EligibleSet(src, seeds, n) &&
                                              r[k] == Candidate(BetaOf(src[r[k].idx]), r[k].idx))
            && (forall i :: i in EligibleSet(src, seeds, n) ==> Candidate(BetaOf(src[i]), i) in r)
            && (forall j, k :: 0 <= j < k < |r| ==> r[j] != r[k] && CandidateLe(r[j], r[k]))
  {
    var c, r := Candidates(src, seeds, n), Ranked(src, seeds, n);
    CandidatesAre(src, seeds, n);
    CandidatesIncrease(src, seeds, n);
    hide Eligible, BetaOf, Candidates, CandidateLe;
    SortKeeps(c, CandidateLe);
    CandidateOrder();
    SortSorts(c, CandidateLe);
    SameMembers(r, c);
    DistinctRearranged(r, c);
  }

  lemma SameMembers<T>(s: seq<T>, t: seq<T>)
    requires multiset(s) == multiset(t)
    ensures forall k :: 0 <= k < |s| ==> s[k] in t
    ensures forall k :: 0 <= k < |t| ==> t[k] in s
  {
    assert forall x :: x in s <==> x in multiset(s);
    assert forall x :: x in t <==> x in multiset(t);
  }

  /** Those chosen: eligible slots in strict order. */
  lemma ChosenAreRanked(src: seq<Slot>, seeds: seq<string>, n: nat)
    requires n <= |src|
    ensures var c := Lowest(src, seeds, n);
            && |c| == Least(|EligibleSet(src, seeds, n)|, COMMITTEE_SIZE)
            && (forall j :: 0 <= j < |c| ==> c[j] in EligibleSet(src, seeds, n))
            && (forall j, k :: 0 <= j < k < |c| ==> Before(src, c[j], c[k]))
  {
    RankedAre(src, seeds, n);
    hide Eligible, BetaOf, Ranked, CandidateLe, EligibleSet;
  }

  /** A slot left out: the committee is full and all of it comes before. */
  ghost predicate LeftOut(src: seq<Slot>, c: seq<nat>, e: nat)
    requires e < |src|
  {
    |c| == COMMITTEE_SIZE && forall j :: 0 <= j < |c| ==> c[j] < |src| && Before(src, c[j], e)
  }

  lemma ChosenOrLeftOut(src: seq<Slot>, seeds: seq<string>, n: nat, e: nat)
    requires n <= |src| && e in EligibleSet(src, seeds, n)
    ensures e in Lowest(src, seeds, n) || LeftOut(src, Lowest(src, seeds, n), e)
  {
    RankedAre(src, seeds, n);
    var r, c := Ranked(src, seeds, n), Lowest(src, seeds, n);
    hide Eligible, BetaOf, Ranked, CandidateLe;
    var k :| 0 <= k < |r| && r[k] == Candidate(BetaOf(src[e]), e);
    if k < |c| {
      assert c[k] == e;
    } else {
      forall j | 0 <= j < |c| ensures c[j] < |src| && Before(src, c[j], e) {
        assert r[j] != r[k] && CandidateLe(r[j], r[k]);
      }
    }
  }

  /** The winner-eligible members: the min(10, eligible) eligible slots with the lowest outputs,
      ascending, none twice, and everyone left out comes after all of them. */
  lemma CommitteeIsLowest(src: seq<Slot>, seeds: seq<string>, n: nat)
    requires n <= |src|
    ensures var c := Lowest(src, seeds, n);
            && |c| == Least(|EligibleSet(src, seeds, n)|, COMMITTEE_SIZE)
            && (forall j :: 0 <= j < |c| ==> c[j] in EligibleSet(src, seeds, n))
            && (forall j, k :: 0 <= j < k < |c| ==> Before(src, c[j], c[k]))
            && (forall e, j :: e in EligibleSet(src, seeds, n) && e !in c && 0 <= j < |c| ==> Before(src, c[j], e))
            && (|c| < COMMITTEE_SIZE ==> forall e :: e in EligibleSet(src, seeds, n) ==> e in c)
  {
    ChosenAreRanked(src, seeds, n);
    hide Eligible, Lowest, Before;
    forall e | e in EligibleSet(src, seeds, n)
      ensures e in Lowest(src, seeds, n) || LeftOut(src, Lowest(src, seeds, n), e)
    {
      ChosenOrLeftOut(src, seeds, n, e);
    }
  }

  ghost predicate ListsSeeds(src: seq<Slot>, seeds: seq<string>, n: nat, s: seq<nat>)
    requires n <= |src|
  {
    && (forall j :: 0 <= j < |s| ==> s[j] < n && EligibleSeed(src[s[j]], seeds))
    && (forall j, k :: 0 <= j < k < |s| ==> s[j] < s[k])
    && (forall i :: 0 <= i < n && EligibleSeed(src[i], seeds) ==> i in s)
  }

  lemma {:induction false} SeedsAre(src: seq<Slot>, seeds: seq<string>, n: nat)
    requires n <= |src|
    ensures ListsSeeds(src, seeds, n, SeedIndices(src, seeds, n))
  {
    hide EligibleSeed;
    if n > 0 {
      SeedsAre(src, seeds, n - 1);
    }
  }

  /** The seeds: the first four eligible ones in list order. */
  lemma SeedsAreFirst(src: seq<Slot>, seeds: seq<string>, n: nat)
    requires n <= |src|
    ensures var s := FirstSeeds(src, seeds, n);
            && (forall j :: 0 <= j < |s| ==> s[j] < n && EligibleSeed(src[s[j]], seeds))
            && (forall j, k :: 0 <= j < k < |s| ==> s[j] < s[k])
            && (forall i, j :: 0 <= i < n && EligibleSeed(src[i], seeds) && i !in s && 0 <= j < |s| ==>
                  |s| == SEED_COUNT && s[j] < i)
            && (|s| < SEED_COUNT ==> forall i :: 0 <= i < n && EligibleSeed(src[i], seeds) ==> i in s)
  {
    SeedsAre(src, seeds, n);
    hide EligibleSeed;
    forall i | 0 <= i < n && EligibleSeed(src[i], seeds)
      ensures i in FirstSeeds(src, seeds, n) ||
              (|FirstSeeds(src, seeds, n)| == SEED_COUNT &&
               forall j :: 0 <= j < |FirstSeeds(src, seeds, n)| ==> FirstSeeds(src, seeds, n)[j] < i)
    {
      PrefixOrLater(SeedIndices(src, seeds, n), SEED_COUNT, i);
    }
    hide SeedIndices;
  }

  /** An element of an ascending list is in its prefix or comes after all of it. */
  lemma {:induction false} PrefixOrLater(all: seq<nat>, m: nat, i: nat)
    requires i in all && forall j, k :: 0 <= j < k < |all| ==> all[j] < all[k]
    ensures var s := all[..Least(|all|, m)];
            i in s || (|s| == m && forall j :: 0 <= j < |s| ==> s[j] < i)
  {
    var k :| 0 <= k < |all| && all[k] == i;
    var s := all[..Least(|all|, m)];
    if k < |s| {
      assert s[k] == i;
    }
  }

  /** Nobody is listed twice. */
  lemma MembersDistinct(src: seq<Slot>, seeds: seq<string>, n: nat)
    requires n <= |src|
    ensures var m := Members(src, seeds, n);
            && (forall j :: 0 <= j < |m| ==> m[j] < n)
            && (forall j, k :: 0 <= j < k < |m| ==> m[j] != m[k])
  {
    CommitteeIsLowest(src, seeds, n);
    SeedsAreFirst(src, seeds, n);
    var c, s := Lowest(src, seeds, n), FirstSeeds(src, seeds, n);
    forall j, k | 0 <= j < |c| && 0 <= k < |s| ensures c[j] != s[k] {
      assert Eligible(src[c[j]], seeds) && EligibleSeed(src[s[k]], seeds);
    }
    hide Eligible, EligibleSeed, Lowest, FirstSeeds, CandidateLe, BetaOf;
  }

  // ---------- The order of the online list does not matter ----------

  function SlotOf(src: seq<Slot>, c: Candidate): Slot {
    if c.idx < |src| then src[c.idx] else BLANK
  }

  function SlotsOf(src: seq<Slot>, c: seq<Candidate>): (s: seq<Slot>)
    ensures |s| == |c| && forall k :: 0 <= k < |c| ==> s[k] == SlotOf(src, c[k])
  {
    if c == [] then [] else [SlotOf(src, c[0])] + SlotsOf(src, c[1..])
  }

  lemma {:induction false} SlotsOfInsert(src: seq<Slot>, x: Candidate, c: seq<Candidate>)
    ensures multiset(SlotsOf(src, Insert(x, c, CandidateLe))) == multiset{SlotOf(src, x)} + multiset(SlotsOf(src, c))
  {
    hide CandidateLe, SlotOf;
    if c != [] && !CandidateLe(x, c[0]) {
      SlotsOfInsert(src, x, c[1..]);
      assert Insert(x, c, CandidateLe)[1..] == Insert(x, c[1..], CandidateLe);
    } else {
      assert Insert(x, c, CandidateLe)[1..] == c;
    }
  }

  lemma {:induction false} SlotsOfSort(src: seq<Slot>, c: seq<Candidate>)
    ensures multiset(SlotsOf(src, Sort(c, CandidateLe))) == multiset(SlotsOf(src, c))
  {
    if c != [] {
      SlotsOfSort(src, c[1..]);
      SlotsOfInsert(src, c[0], Sort(c[1..], CandidateLe));
    }
  }

  lemma CountSnoc(s: seq<Slot>, y: Slot, x: Slot)
    ensures multiset(s + [y])[x] == multiset(s)[x] + (if x == y then 1 else 0)
  {
  }

  lemma SlotsOfSnoc(src: seq<Slot>, c: seq<Candidate>, y: Candidate)
    ensures SlotsOf(src, c + [y]) == SlotsOf(src, c) + [SlotOf(src, y)]
  {
  }

  /** One more slot looked at adds it exactly when it is eligible. */
  lemma SlotsOfStep(src: seq<Slot>, seeds: seq<string>, n: nat)
    requires n < |src|
    ensures SlotsOf(src, Candidates(src, seeds, n + 1))
         == SlotsOf(src, Candidates(src, seeds, n)) + (if Eligible(src[n], seeds) then [src[n]] else [])
  {
    hide Eligible, BetaOf;
    SlotsOfSnoc(src, Candidates(src, seeds, n), Candidate(BetaOf(src[n]), n));
  }

  function Kept(s: seq<Slot>, seeds: seq<string>): seq<Slot> {
    if s == [] then [] else
      Kept(s[..|s| - 1], seeds) + (if Eligible(s[|s| - 1], seeds) then [s[|s| - 1]] else [])
  }

  lemma {:induction false} SlotsOfCandidates(src: seq<Slot>, seeds: seq<string>, n: nat)
    requires n <= |src|
    ensures SlotsOf(src, Candidates(src, seeds, n)) == Kept(src[..n], seeds)
  {
    hide Eligible, BetaOf;
    if n > 0 {
      SlotsOfCandidates(src, seeds, n - 1);
      SlotsOfStep(src, seeds, n - 1);
      assert src[..n][..n - 1] == src[..n - 1];
    }
  }

  lemma {:induction false} KeptCount(s: seq<Slot>, seeds: seq<string>, x: Slot)
    ensures multiset(Kept(s, seeds))[x] == if Eligible(x, seeds) then multiset(s)[x] else 0
  {
    hide Eligible;
    if s != [] {
      var b, y := s[..|s| - 1], s[|s| - 1];
      KeptCount(b, seeds, x);
      assert s == b + [y];
      CountSnoc(b, y, x);
      CountSnoc(Kept(b, seeds), y, x);
      assert Kept(s, seeds) == if Eligible(y, seeds) then Kept(b, seeds) + [y] else Kept(b, seeds);
    }
  }

  function RankedSlots(src: seq<Slot>, seeds: seq<string>, n: nat): seq<Slot>
    requires n <= |src|
  {
    SlotsOf(src, Ranked(src, seeds, n))
  }

  lemma SameEligible(src: seq<Slot>, other: seq<Slot>, seeds: seq<string>, n: nat)
    requires n <= |src| && n <= |other| && multiset(src[..n]) == multiset(other[..n])
    ensures multiset(RankedSlots(src, seeds, n)) == multiset(RankedSlots(other, seeds, n))
  {
    hide Eligible, Kept, SlotsOf;
    SlotsOfCandidates(src, seeds, n);
    SlotsOfCandidates(other, seeds, n);
    SlotsOfSort(src, Candidates(src, seeds, n));
    SlotsOfSort(other, Candidates(other, seeds, n));
    forall x
      ensures multiset(RankedSlots(src, seeds, n))[x] == multiset(RankedSlots(other, seeds, n))[x]
    {
      KeptCount(src[..n], seeds, x);
      KeptCount(other[..n], seeds, x);
    }
  }

  predicate BetaLe(a: Slot, b: Slot) {
    MemLe(BetaOf(a), BetaOf(b))
  }

  /** No two eligible slots have the same VRF output. */
  ghost predicate DistinctBetas(src: seq<Slot>, seeds: seq<string>, n: nat)
    requires n <= |src|
  {
    forall i, j :: i in EligibleSet(src, seeds, n) && j in EligibleSet(src, seeds, n) && i != j ==>
                     BetaOf(src[i]) != BetaOf(src[j])
  }

  lemma RankedAscend(src: seq<Slot>, seeds: seq<string>, n: nat)
    requires n <= |src|
    ensures Sorted(RankedSlots(src, seeds, n), BetaLe)
  {
    RankedAre(src, seeds, n);
    var r, s := Ranked(src, seeds, n), RankedSlots(src, seeds, n);
    hide Eligible, BetaOf, Ranked;
    forall j, k | 0 <= j < k < |s| ensures BetaLe(s[j], s[k]) {
      assert CandidateLe(r[j], r[k]);
      MemTotal(r[j].beta, r[k].beta);
    }
  }

  lemma RankedTellApart(src: seq<Slot>, seeds: seq<string>, n: nat, a: Slot, b: Slot)
    requires n <= |src| && DistinctBetas(src, seeds, n)
    requires a in RankedSlots(src, seeds, n) && b in RankedSlots(src, seeds, n) && BetaLe(a, b) && BetaLe(b, a)
    ensures a == b
  {
    MemTotal(BetaOf(a), BetaOf(b));
    var i := IndexOfRanked(src, seeds, n, a);
    var k := IndexOfRanked(src, seeds, n, b);
    hide Eligible, BetaOf, RankedSlots, MemLe, EligibleSet;
  }

  lemma IndexOfRanked(src: seq<Slot>, seeds: seq<string>, n: nat, a: Slot) returns (i: nat)
    requires n <= |src| && a in RankedSlots(src, seeds, n)
    ensures i in EligibleSet(src, seeds, n) && src[i] == a
  {
    RankedAre(src, seeds, n);
    hide Eligible, BetaOf, Ranked, CandidateLe;
    var r, s := Ranked(src, seeds, n), RankedSlots(src, seeds, n);
    var j :| 0 <= j < |s| && s[j] == a;
    i := r[j].idx;
  }

  /** With distinct outputs, any order of the online list elects the same members in the same
      order, and hence the same producer. */
  lemma OrderDoesNotMatter(src: seq<Slot>, other: seq<Slot>, seeds: seq<string>, n: nat)
    requires n <= |src| && n <= |other| && multiset(src[..n]) == multiset(other[..n])
    requires DistinctBetas(src, seeds, n)
    ensures var c, e := Lowest(src, seeds, n), Lowest(other, seeds, n);
            |c| == |e| && forall j :: 0 <= j < |c| ==> c[j] < n && e[j] < n && src[c[j]] == other[e[j]]
  {
    CommitteeIsLowest(src, seeds, n);
    CommitteeIsLowest(other, seeds, n);
    var s, t := RankedSlots(src, seeds, n), RankedSlots(other, seeds, n);
    SameEligible(src, other, seeds, n);
    RankedAscend(src, seeds, n);
    RankedAscend(other, seeds, n);
    forall a, b | a in s && b in s && BetaLe(a, b) && BetaLe(b, a) ensures a == b {
      RankedTellApart(src, seeds, n, a, b);
    }
    SortedUnique(s, t, BetaLe);
    hide Eligible, BetaOf, Ranked, CandidateLe, BetaLe;
    assert |Ranked(src, seeds, n)| == |Ranked(other, seeds, n)|;
    forall j | 0 <= j < |Lowest(src, seeds, n)|
      ensures src[Lowest(src, seeds, n)[j]] == s[j] && other[Lowest(other, seeds, n)[j]] == t[j]
    {
    }
  }

  // ---------- The code ----------

  /** The list the round goes on with: the members in order, then blanks. */
  function CommitteeList(src: seq<Slot>, seeds: seq<string>, n: nat): (list: seq<Slot>)
    requires n <= |src|
    ensures |list| == BLOCK_VERIFIERS
  {
    var m := Members(src, seeds, n);
    seq(|m|, j requires 0 <= j < |m| => if m[j] < |src| then Cleared(src[m[j]]) else BLANK)
    + Blanks(BLOCK_VERIFIERS - |m|)
  }

  lemma OneMoreSlot(src: seq<Slot>, seeds: seq<string>, n: nat)
    requires n < |src|
    ensures Candidates(src, seeds, n + 1)
         == Candidates(src, seeds, n) + (if Eligible(src[n], seeds) then [Candidate(BetaOf(src[n]), n)] else [])
    ensures FirstSeeds(src, seeds, n + 1)
         == if EligibleSeed(src[n], seeds) && |FirstSeeds(src, seeds, n)| < SEED_COUNT
            then FirstSeeds(src, seeds, n) + [n] else FirstSeeds(src, seeds, n)
  {
    hide Eligible, EligibleSeed, BetaOf;
  }

  /** What the first pass makes of one slot: a seed, a candidate with its decoded output, or neither. */
  method Examine(s: Slot, seeds: seq<string>) returns (seed: bool, beta: Option<seq<byte>>)
    ensures seed == EligibleSeed(s, seeds)
    ensures beta == if Eligible(s, seeds) then Some(BetaOf(s)) else None
  {
    seed, beta := false, None;
    if s.address == "" {
      return;
    }
    if s.address in seeds {
      seed := |s.beta| == BETA_LENGTH;
      return;
    }
    if |s.beta| != BETA_LENGTH {
      return;
    }
    beta := HexBytes(s.beta, BETA_LENGTH / 2);
  }

  lemma NotBoth(s: Slot, seeds: seq<string>)
    ensures !(Eligible(s, seeds) && EligibleSeed(s, seeds))
  {
  }

  method Append<T>(a: array<T>, n: nat, x: T) returns (m: nat)
    requires n < a.Length
    modifies a
    ensures m == n + 1 && a[..m] == old(a[..n]) + [x]
  {
    a[n] := x;
    m := n + 1;
  }

  /** The first pass: candidates with their decoded outputs, and the first four seeds. */
  method Collect(src: array<Slot>, n: nat, seeds: seq<string>)
    returns (candidates: array<Candidate>, count: nat, seedIdx: array<nat>, seedCount: nat)
    requires src.Length == BLOCK_VERIFIERS && n <= src.Length
    ensures fresh(candidates) && fresh(seedIdx) && count <= candidates.Length && seedCount <= seedIdx.Length
    ensures candidates[..count] == Candidates(src[..], seeds, n)
    ensures seedIdx[..seedCount] == FirstSeeds(src[..], seeds, n)
  {
    candidates := new Candidate[BLOCK_VERIFIERS](_ => Candidate([], 0));
    seedIdx := new nat[BLOCK_VERIFIERS](_ => 0);
    count, seedCount := 0, 0;
    ghost var list := src[..];
    assert FirstSeeds(list, seeds, 0) == [] && Candidates(list, seeds, 0) == [];
    hide Eligible, EligibleSeed, BetaOf, FirstSeeds, Candidates, SeedIndices;
    for i := 0 to n
      invariant count <= i && seedCount <= SEED_COUNT
      invariant candidates[..count] == Candidates(list, seeds, i)
      invariant seedIdx[..seedCount] == FirstSeeds(list, seeds, i)
    {
      var s := src[i];
      assert s == list[i];
      OneMoreSlot(list, seeds, i);
      NotBoth(s, seeds);
      var seed, beta := Examine(s, seeds);
      if seed {
        if seedCount < SEED_COUNT {
          seedCount := Append(seedIdx, seedCount, i);
        }
      } else if beta.Some? {
        count := Append(candidates, count, Candidate(beta.value, i));
      }
    }
  }

  method CopySlots(src: array<Slot>, list: array<Slot>, pos: nat, idx: seq<nat>)
    requires list != src && pos + |idx| <= list.Length && forall j :: 0 <= j < |idx| ==> idx[j] < src.Length
    modifies list
    ensures list[..pos] == old(list[..pos]) && list[pos + |idx|..] == old(list[pos + |idx|..])
    ensures forall j :: 0 <= j < |idx| ==> list[pos + j] == Cleared(src[idx[j]])
  {
    for j := 0 to |idx|
      invariant list[..pos] == old(list[..pos]) && list[pos + j..] == old(list[pos + j..])
      invariant forall k :: 0 <= k < j ==> list[pos + k] == Cleared(src[idx[k]])
    {
      list[pos + j] := Cleared(src[idx[j]]);
    }
  }

  lemma IndicesInRange(src: seq<Slot>, seeds: seq<string>, n: nat)
    requires n <= |src|
    ensures forall j :: 0 <= j < |Lowest(src, seeds, n)| ==> Lowest(src, seeds, n)[j] < |src|
    ensures forall j :: 0 <= j < |FirstSeeds(src, seeds, n)| ==> FirstSeeds(src, seeds, n)[j] < |src|
  {
    CommitteeIsLowest(src, seeds, n);
    SeedsAreFirst(src, seeds, n);
  }

  lemma ListIs(src: seq<Slot>, seeds: seq<string>, n: nat, out: seq<Slot>)
    requires n <= |src| && |out| == BLOCK_VERIFIERS
    requires var best, first := Lowest(src, seeds, n), FirstSeeds(src, seeds, n);
             && (forall j :: 0 <= j < |best| ==> best[j] < |src| && out[j] == Cleared(src[best[j]]))
             && (forall j :: 0 <= j < |first| ==> first[j] < |src| && out[|best| + j] == Cleared(src[first[j]]))
             && (forall j :: |best| + |first| <= j < |out| ==> out[j] == BLANK)
    ensures out == CommitteeList(src, seeds, n)
  {
    hide Lowest, FirstSeeds, Cleared;
    var best, first := Lowest(src, seeds, n), FirstSeeds(src, seeds, n);
    var m := Members(src, seeds, n);
    assert forall j :: 0 <= j < |m| ==> m[j] == if j < |best| then best[j] else first[j - |best|];
    forall j | 0 <= j < |out| ensures out[j] == CommitteeList(src, seeds, n)[j] {
      if |best| <= j < |m| {
        assert out[|best| + (j - |best|)] == Cleared(src[first[j - |best|]]);
      }
    }
  }

  /** The second pass: the committee in front, the seeds after it, the rest blank. */
  method Compact(list: array<Slot>, best: seq<nat>, first: seq<nat>, ghost seeds: seq<string>, ghost n: nat)
    returns (out: array<Slot>)
    requires list.Length == BLOCK_VERIFIERS && n <= list.Length
    requires best == Lowest(list[..], seeds, n) && first == FirstSeeds(list[..], seeds, n)
    ensures fresh(out) && out.Length == BLOCK_VERIFIERS && out[..] == CommitteeList(list[..], seeds, n)
  {
    hide Lowest, FirstSeeds, Cleared, CommitteeList;
    IndicesInRange(list[..], seeds, n);
    out := new Slot[BLOCK_VERIFIERS](_ => BLANK);
    CopySlots(list, out, 0, best);
    ghost var half := out[..];
    CopySlots(list, out, |best|, first);
    forall j | 0 <= j < |best| ensures out[j] == Cleared(list[best[j]]) {
      assert out[..|best|][j] == half[..|best|][j] == half[0 + j];
    }
    forall j | |best| + |first| <= j < out.Length ensures out[j] == BLANK {
      assert out[|best| + |first|..][j - |best| - |first|] == half[|best| + |first|..][j - |best| - |first|] == half[j];
      assert half[|best|..][j - |best|] == BLANK;
    }
    ListIs(list[..], seeds, n, out[..]);
  }

  lemma LowestIs(src: seq<Slot>, seeds: seq<string>, n: nat)
    requires n <= |src|
    ensures |Ranked(src, seeds, n)| == |Candidates(src, seeds, n)|
    ensures |Lowest(src, seeds, n)| == Least(|Candidates(src, seeds, n)|, COMMITTEE_SIZE)
    ensures forall j :: 0 <= j < |Lowest(src, seeds, n)| ==> Lowest(src, seeds, n)[j] == Ranked(src, seeds, n)[j].idx
    ensures EligibleSet(src, seeds, n) != {} <==> |Candidates(src, seeds, n)| > 0
  {
    RankedAre(src, seeds, n);
    CandidatesAre(src, seeds, n);
  }

  /** build_committee_list_from_online_list on the current list: an error without any eligible
      non-seed, and the list is then left alone. */
  method BuildCommittee(list: array<Slot>, online: nat, seeds: seq<string>) returns (ok: bool, count: nat)
    requires list.Length == BLOCK_VERIFIERS
    modifies list
    ensures ok <==> EligibleSet(old(list[..]), seeds, Least(online, BLOCK_VERIFIERS)) != {}
    ensures !ok ==> count == 0 && list[..] == old(list[..])
    ensures ok ==> count == |Members(old(list[..]), seeds, Least(online, BLOCK_VERIFIERS))|
    ensures ok ==> list[..] == CommitteeList(old(list[..]), seeds, Least(online, BLOCK_VERIFIERS))
  {
    hide Eligible, CandidateLe, Lowest, FirstSeeds, EligibleSet, Candidates, CommitteeList, BetaOf;
    var n := Least(online, BLOCK_VERIFIERS);
    ghost var src := list[..];
    var candidates, ccount, seedIdx, seedCount := Collect(list, n, seeds);
    LowestIs(src, seeds, n);
    if ccount == 0 {
      return false, 0;
    }
    var sorted := Sort(candidates[..ccount], CandidateLe);
    var best := seq(Least(ccount, COMMITTEE_SIZE), j requires 0 <= j < |sorted| => sorted[j].idx);
    assert best == Lowest(src, seeds, n);
    var out := Compact(list, best, seedIdx[..seedCount], seeds, n);
    count := |best| + seedCount;
    forall j | 0 <= j < list.Length {
      list[j] := out[j];
    }
    assert list[..] == out[..];
    ok := true;
  }

  // ---------- The producer ----------

  /** Part 6 of the round: the front of the list wins, unless the chain is stuck on the same
      winner; None where the round is given up. */
  function ProducerIndex(list: seq<Slot>, stuck: bool, lastWinner: string, seeds: seq<string>): Option<nat>
    requires |list| == BLOCK_VERIFIERS
  {
    if list[0].address == "" || list[0].address in seeds then None
    else if stuck && lastWinner != "" && lastWinner == list[0].name then
      if list[1].address == "" || list[1].address in seeds then None else Some(1)
    else Some(0)
  }

  lemma FrontOfList(src: seq<Slot>, seeds: seq<string>, n: nat, j: nat)
    requires n <= |src| && j < BLOCK_VERIFIERS
    ensures var c, list := Lowest(src, seeds, n), CommitteeList(src, seeds, n);
            if j < |c| then c[j] < |src| && list[j] == Cleared(src[c[j]]) && list[j].address != "" &&
                            list[j].address !in seeds
            else list[j].address == "" || list[j].address in seeds
  {
    CommitteeIsLowest(src, seeds, n);
    SeedsAreFirst(src, seeds, n);
    var c, s := Lowest(src, seeds, n), FirstSeeds(src, seeds, n);
    hide CandidateLe, BetaOf, Lowest, FirstSeeds;
    var list := CommitteeList(src, seeds, n);
    if j < |c| {
      assert Eligible(src[c[j]], seeds);
    } else if j < |c| + |s| {
      assert list[j] == Cleared(src[s[j - |c|]]);
      assert EligibleSeed(src[s[j - |c|]], seeds);
    }
  }

  /** The producer is the eligible non-seed with the lowest output; on a stuck chain whose last
      winner it is, the second lowest, and nobody if there is no second. */
  lemma ProducerIsLowest(src: seq<Slot>, seeds: seq<string>, n: nat, stuck: bool, lastWinner: string)
    requires n <= |src| && EligibleSet(src, seeds, n) != {}
    ensures var c, p := Lowest(src, seeds, n), ProducerIndex(CommitteeList(src, seeds, n), stuck, lastWinner, seeds);
            && c != [] && c[0] < |src|
            && var skip := stuck && lastWinner != "" && lastWinner == src[c[0]].name;
               p == if !skip then Some(0) else if |c| >= 2 then Some(1) else None
  {
    LowestIs(src, seeds, n);
    FrontOfList(src, seeds, n, 0);
    FrontOfList(src, seeds, n, 1);
    hide CandidateLe, BetaOf, Lowest, FirstSeeds, CommitteeList, Eligible, Candidates, Ranked;
  }

  /** Two nodes that saw the same delegates online, in whatever order, and agree on whether to skip
      name the same producer. */
  lemma SameProducer(src: seq<Slot>, other: seq<Slot>, seeds: seq<string>, n: nat, stuck: bool, lastWinner: string)
    requires n <= |src| && n <= |other| && multiset(src[..n]) == multiset(other[..n])
    requires DistinctBetas(src, seeds, n) && EligibleSet(src, seeds, n) != {}
    ensures var a, b := CommitteeList(src, seeds, n), CommitteeList(other, seeds, n);
            var p, q := ProducerIndex(a, stuck, lastWinner, seeds), ProducerIndex(b, stuck, lastWinner, seeds);
            p == q && (p.Some? ==> a[p.value] == b[p.value])
  {
    OrderDoesNotMatter(src, other, seeds, n);
    LowestIs(src, seeds, n);
    LowestIs(other, seeds, n);
    ProducerIsLowest(src, seeds, n, stuck, lastWinner);
    ProducerIsLowest(other, seeds, n, stuck, lastWinner);
    hide CandidateLe, BetaOf, Lowest, FirstSeeds, CommitteeList, Eligible, Candidates, Ranked;
    FrontOfList(src, seeds, n, 0);
    FrontOfList(src, seeds, n, 1);
    FrontOfList(other, seeds, n, 0);
    FrontOfList(other, seeds, n, 1);
  }

  // ---------- Part 6 of the round ----------

  /** The list the votes of the round go to, how many of its slots count as committee, and the slot
      of the producer. */
  datatype Round = Round(list: seq<Slot>, count: nat, producer: nat)

  /** At the first proof-of-stake height, the list stays as it is and its first slot produces. */
  function RoundOf(list: seq<Slot>, online: nat, bootstrap: bool, stuck: bool, lastWinner: string,
                   seeds: seq<string>): Option<Round>
    requires |list| == BLOCK_VERIFIERS
  {
    var n := Least(online, BLOCK_VERIFIERS);
    if bootstrap then Some(Round(list, Least(online, COMMITTEE_SIZE + SEED_COUNT), 0))
    else if Candidates(list, seeds, n) == [] then None
    else
      match ProducerIndex(CommitteeList(list, seeds, n), stuck, lastWinner, seeds)
      case None => None
      case Some(p) => Some(Round(CommitteeList(list, seeds, n), |Members(list, seeds, n)|, p))
  }

  method SelectProducer(list: array<Slot>, online: nat, bootstrap: bool, stuck: bool, lastWinner: string,
                        seeds: seq<string>) returns (ok: bool, count: nat, producer: nat)
    requires list.Length == BLOCK_VERIFIERS
    modifies list
    ensures ok == RoundOf(old(list[..]), online, bootstrap, stuck, lastWinner, seeds).Some?
    ensures ok ==>
              Round(list[..], count, producer) == RoundOf(old(list[..]), online, bootstrap, stuck, lastWinner, seeds).value
    ensures !ok ==> list[..] == old(list[..]) ||
                    list[..] == CommitteeList(old(list[..]), seeds, Least(online, BLOCK_VERIFIERS))
  {
    if bootstrap {
      return true, Least(online, COMMITTEE_SIZE + SEED_COUNT), 0;
    }
    LowestIs(list[..], seeds, Least(online, BLOCK_VERIFIERS));
    hide Eligible, CandidateLe, Lowest, FirstSeeds, EligibleSet, Candidates, CommitteeList, BetaOf;
    ok, count := BuildCommittee(list, online, seeds);
    producer := 0;
    if !ok || count == 0 {
      return false, count, producer;
    }
    if list[0].address == "" || list[0].address in seeds {
      return false, count, producer;
    }
    if stuck && lastWinner != "" && lastWinner == list[0].name {
      if list[1].address == "" || list[1].address in seeds {
        return false, count, producer;
      }
      producer := 1;
    }
  }

  /** The producer of a round is a committee member, and the slots after the committee are blank. */
  lemma RoundIs(list: seq<Slot>, online: nat, stuck: bool, lastWinner: string, seeds: seq<string>)
    requires |list| == BLOCK_VERIFIERS && RoundOf(list, online, false, stuck, lastWinner, seeds).Some?
    ensures var r := RoundOf(list, online, false, stuck, lastWinner, seeds).value;
            && r.producer < r.count <= |r.list| == BLOCK_VERIFIERS
            && r.list == CommitteeList(list, seeds, Least(online, BLOCK_VERIFIERS))
            && r.count == |Members(list, seeds, Least(online, BLOCK_VERIFIERS))|
            && (forall i :: r.count <= i < |r.list| ==> r.list[i] == BLANK)
  {
    var n := Least(online, BLOCK_VERIFIERS);
    LowestIs(list, seeds, n);
    ProducerIsLowest(list, seeds, n, stuck, lastWinner);
    hide Eligible, CandidateLe, Lowest, FirstSeeds, Candidates, BetaOf, ProducerIndex, Cleared;
  }
}
