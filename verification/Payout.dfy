/** run_proof_check: adding up the valid reserve proofs per delegate, collecting the payout outputs
    beside the totals, and sending every online delegate one payout instruction. */
module Payout {
  import opened Wrappers

  const MAX_DELEGATES: nat := 55
  const WALLET_LENGTH: nat := 98
  const INT64_MAX: int := 0x7fff_ffff_ffff_ffff

  datatype Output = Output(voter: string, amount: int)

  datatype Sum = Sum(address: string, total: int)

  datatype Bucket = Bucket(delegate: string, outs: seq<Output>)

  /** A document of the reserve_proofs collection; a field of the wrong type reads as missing. */
  datatype Doc = Doc(voter: Option<string>, delegate: Option<string>, proof: Option<string>, total: Option<int>)

  /** check_reserve_proofs, which asks the wallet. */
  type Checker = (int, string, string) -> bool

  /** strncpy into a buffer of WALLET_LENGTH characters. */
  function Cut(s: string): (c: string)
    ensures |c| <= WALLET_LENGTH
  {
    if |s| <= WALLET_LENGTH then s else s[..WALLET_LENGTH]
  }

  // ---------- The accumulated entries ----------

  predicate WellFormed(d: Doc) {
    d.total.Some? && d.total.value > 0 && d.voter.Some? && d.delegate.Some? && d.proof.Some?
  }

  predicate Valid(d: Doc, check: Checker) {
    WellFormed(d) && check(d.total.value, d.voter.value, d.proof.value)
  }

  /** A contribution that passed every check; memory says whether realloc would succeed for it. */
  datatype Entry = Entry(delegate: string, output: Output, memory: bool)

  /** Whether realloc would succeed at each document. */
  type Memory = nat -> bool

  function EntryOf(d: Doc, memory: bool): Entry
    requires WellFormed(d)
  {
    Entry(d.delegate.value, Output(Cut(d.voter.value), d.total.value), memory)
  }

  function Entries(docs: seq<Doc>, check: Checker, memory: Memory): seq<Entry> {
    if docs == [] then [] else
      Entries(docs[..|docs| - 1], check, memory) +
      (if Valid(docs[|docs| - 1], check) then [EntryOf(docs[|docs| - 1], memory(|docs| - 1))] else [])
  }

  /** The voters of the proofs to delete: complete, positive, and refused by the check. */
  function Deletions(docs: seq<Doc>, check: Checker): seq<string> {
    if docs == [] then [] else
      var d := docs[|docs| - 1];
      Deletions(docs[..|docs| - 1], check) +
      (if WellFormed(d) && !Valid(d, check) then [d.voter.value] else [])
  }

  // ---------- The two tables, step by step ----------

  function FindSum(sums: seq<Sum>, a: string): (i: nat)
    ensures i <= |sums|
  {
    if sums == [] || sums[0].address == a then 0 else 1 + FindSum(sums[1..], a)
  }

  function FindBucket(buckets: seq<Bucket>, a: string): (i: nat)
    ensures i <= |buckets|
  {
    if buckets == [] || buckets[0].delegate == a then 0 else 1 + FindBucket(buckets[1..], a)
  }

  /** add_vote_sum. */
  function AddSum(sums: seq<Sum>, a: string, amount: int): seq<Sum> {
    var i := FindSum(sums, a);
    if i < |sums| then sums[i := Sum(a, sums[i].total + amount)]
    else if |sums| >= MAX_DELEGATES then sums
    else if |a| == 0 || |a| > WALLET_LENGTH then sums
    else sums + [Sum(a, amount)]
  }

  /** The array of a bucket once it is full: 256 entries at first, then twice as many. */
  function Grown(c: nat): nat {
    if c == 0 then 256 else 2 * c
  }

  /** The capacity of a bucket with n outputs. */
  function Capacity(n: nat): (c: nat)
    ensures c >= n
  {
    if n == 0 then 0 else
      var c := Capacity(n - 1);
      if c > n - 1 then c else Grown(c)
  }

  /** bucket_push_output: an output is lost when the bucket is full and cannot grow. */
  function Push(outs: seq<Output>, o: Output, memory: bool): seq<Output> {
    if memory || |outs| < Capacity(|outs|) then outs + [o] else outs
  }

  /** get_bucket_index and bucket_push_output. */
  function AddOutput(buckets: seq<Bucket>, a: string, o: Output, memory: bool): seq<Bucket> {
    var i := FindBucket(buckets, a);
    if i < |buckets| then buckets[i := Bucket(buckets[i].delegate, Push(buckets[i].outs, o, memory))]
    else if |buckets| >= MAX_DELEGATES then buckets
    else buckets + [Bucket(Cut(a), Push([], o, memory))]
  }

  datatype Tables = Tables(sums: seq<Sum>, buckets: seq<Bucket>)

  function Add(t: Tables, e: Entry): Tables {
    Tables(AddSum(t.sums, e.delegate, e.output.amount), AddOutput(t.buckets, e.delegate, e.output, e.memory))
  }

  function AddAll(es: seq<Entry>): Tables {
    if es == [] then Tables([], []) else Add(AddAll(es[..|es| - 1]), es[|es| - 1])
  }

  // ---------- What they should hold ----------

  function SumOf(outs: seq<Output>): int {
    if outs == [] then 0 else SumOf(outs[..|outs| - 1]) + outs[|outs| - 1].amount
  }

  /** All outputs contributed to a delegate, in stream order. */
  function Contributed(es: seq<Entry>, a: string): seq<Output> {
    if es == [] then [] else
      Contributed(es[..|es| - 1], a) + (if es[|es| - 1].delegate == a then [es[|es| - 1].output] else [])
  }

  /** Those of them that found room. */
  function OutputsFor(es: seq<Entry>, a: string): seq<Output> {
    if es == [] then [] else
      var outs, last := OutputsFor(es[..|es| - 1], a), es[|es| - 1];
      if last.delegate == a then Push(outs, last.output, last.memory) else outs
  }

  /** The delegates in order of first appearance, the first 55 of them. */
  function Admitted(es: seq<Entry>): (names: seq<string>)
    ensures |names| <= MAX_DELEGATES
  {
    if es == [] then [] else
      var names, a := Admitted(es[..|es| - 1]), es[|es| - 1].delegate;
      if a in names || |names| >= MAX_DELEGATES then names else names + [a]
  }

  function SumsFor(es: seq<Entry>, names: seq<string>): seq<Sum> {
    seq(|names|, i requires 0 <= i < |names| => Sum(names[i], SumOf(Contributed(es, names[i]))))
  }

  function BucketsFor(es: seq<Entry>, names: seq<string>): seq<Bucket> {
    seq(|names|, i requires 0 <= i < |names| => Bucket(names[i], OutputsFor(es, names[i])))
  }

  predicate GoodAddress(a: string) {
    1 <= |a| <= WALLET_LENGTH
  }

  // ---------- Both tables hold what they should ----------

  lemma {:induction false} FindSumIs(sums: seq<Sum>, a: string)
    ensures var i := FindSum(sums, a);
            && (i < |sums| ==> sums[i].address == a)
            && (forall k :: 0 <= k < i ==> sums[k].address != a)
  {
    if sums != [] && sums[0].address != a {
      FindSumIs(sums[1..], a);
    }
  }

  lemma {:induction false} FindBucketIs(buckets: seq<Bucket>, a: string)
    ensures var i := FindBucket(buckets, a);
            && (i < |buckets| ==> buckets[i].delegate == a)
            && (forall k :: 0 <= k < i ==> buckets[k].delegate != a)
  {
    if buckets != [] && buckets[0].delegate != a {
      FindBucketIs(buckets[1..], a);
    }
  }

  ghost predicate Distinct(names: seq<string>) {
    forall i, j :: 0 <= i < j < |names| ==> names[i] != names[j]
  }

  lemma {:induction false} AdmittedDistinct(es: seq<Entry>)
    ensures Distinct(Admitted(es))
  {
    if es != [] {
      AdmittedDistinct(es[..|es| - 1]);
    }
  }

  /** As long as there is room, whoever is not admitted has not contributed. */
  lemma {:induction false} NotYetSeen(es: seq<Entry>, a: string)
    requires |Admitted(es)| < MAX_DELEGATES && a !in Admitted(es)
    ensures OutputsFor(es, a) == [] && Contributed(es, a) == []
  {
    if es != [] {
      NotYetSeen(es[..|es| - 1], a);
    }
  }

  lemma SumOfOneMore(outs: seq<Output>, o: Output)
    ensures SumOf(outs + [o]) == SumOf(outs) + o.amount
  {
    assert (outs + [o])[..|outs|] == outs;
  }

  lemma NothingToSum()
    ensures SumOf([]) == 0
  {
  }

  /** One more entry changes the outputs of its own delegate only. */
  lemma OneMoreEntry(es: seq<Entry>, e: Entry, a: string)
    ensures OutputsFor(es + [e], a)
         == if e.delegate == a then Push(OutputsFor(es, a), e.output, e.memory) else OutputsFor(es, a)
    ensures Contributed(es + [e], a) == Contributed(es, a) + (if e.delegate == a then [e.output] else [])
    ensures SumOf(Contributed(es + [e], a)) == SumOf(Contributed(es, a)) + (if e.delegate == a then e.output.amount else 0)
  {
    assert (es + [e])[..|es|] == es;
    SumOfOneMore(Contributed(es, a), e.output);
    assert Contributed(es, a) + [] == Contributed(es, a);
  }

  lemma IndexIn(names: seq<string>, sums: seq<Sum>, buckets: seq<Bucket>, a: string) returns (i: nat)
    requires |sums| == |buckets| == |names|
    requires forall k :: 0 <= k < |names| ==> sums[k].address == buckets[k].delegate == names[k]
    ensures FindSum(sums, a) == FindBucket(buckets, a) == i <= |names|
    ensures i < |names| ==> names[i] == a
    ensures i == |names| ==> a !in names
  {
    FindSumIs(sums, a);
    FindBucketIs(buckets, a);
    i := FindSum(sums, a);
  }

  lemma AdmittedStep(es: seq<Entry>, e: Entry)
    ensures var names := Admitted(es);
            Admitted(es + [e]) ==
              if e.delegate in names || |names| >= MAX_DELEGATES then names else names + [e.delegate]
  {
    assert (es + [e])[..|es|] == es;
  }

  lemma SumFor(es: seq<Entry>, e: Entry, names: seq<string>, i: nat)
    requires i < |names|
    ensures var s, t := SumsFor(es, names)[i], SumsFor(es + [e], names)[i];
            t == if names[i] == e.delegate then Sum(names[i], s.total + e.output.amount) else s
  {
    OneMoreEntry(es, e, names[i]);
    hide Contributed, SumOf, OutputsFor, Push;
  }

  lemma BucketFor(es: seq<Entry>, e: Entry, names: seq<string>, i: nat)
    requires i < |names|
    ensures var b, c := BucketsFor(es, names)[i], BucketsFor(es + [e], names)[i];
            c == if names[i] == e.delegate then Bucket(names[i], Push(b.outs, e.output, e.memory)) else b
  {
    OneMoreEntry(es, e, names[i]);
    hide Contributed, SumOf, OutputsFor, Push;
  }

  /** The tables after the entries es. */
  function TablesFor(es: seq<Entry>): Tables {
    Tables(SumsFor(es, Admitted(es)), BucketsFor(es, Admitted(es)))
  }

  lemma AddToKnown(es: seq<Entry>, e: Entry, names: seq<string>, i: nat)
    requires Distinct(names) && i < |names| && names[i] == e.delegate
    ensures SumsFor(es + [e], names) == SumsFor(es, names)[i := Sum(names[i], SumsFor(es, names)[i].total + e.output.amount)]
    ensures BucketsFor(es + [e], names)
         == BucketsFor(es, names)[i := Bucket(names[i], Push(BucketsFor(es, names)[i].outs, e.output, e.memory))]
  {
    forall k | 0 <= k < |names|
      ensures k != i ==> SumsFor(es + [e], names)[k] == SumsFor(es, names)[k]
      ensures k != i ==> BucketsFor(es + [e], names)[k] == BucketsFor(es, names)[k]
    {
      SumFor(es, e, names, k);
      BucketFor(es, e, names, k);
    }
    SumFor(es, e, names, i);
    BucketFor(es, e, names, i);
  }

  lemma AddElsewhere(es: seq<Entry>, e: Entry, names: seq<string>)
    requires e.delegate !in names
    ensures SumsFor(es + [e], names) == SumsFor(es, names) && BucketsFor(es + [e], names) == BucketsFor(es, names)
  {
    forall k | 0 <= k < |names|
      ensures SumsFor(es + [e], names)[k] == SumsFor(es, names)[k]
      ensures BucketsFor(es + [e], names)[k] == BucketsFor(es, names)[k]
    {
      SumFor(es, e, names, k);
      BucketFor(es, e, names, k);
    }
  }

  lemma SumsOfOneMore(es: seq<Entry>, names: seq<string>, a: string)
    ensures SumsFor(es, names + [a]) == SumsFor(es, names) + [Sum(a, SumOf(Contributed(es, a)))]
  {
    hide Contributed, SumOf;
  }

  lemma BucketsOfOneMore(es: seq<Entry>, names: seq<string>, a: string)
    ensures BucketsFor(es, names + [a]) == BucketsFor(es, names) + [Bucket(a, OutputsFor(es, a))]
  {
    hide OutputsFor;
  }

  lemma AddNew(es: seq<Entry>, e: Entry, names: seq<string>)
    requires e.delegate !in names && OutputsFor(es, e.delegate) == [] && Contributed(es, e.delegate) == []
    ensures SumsFor(es + [e], names + [e.delegate]) == SumsFor(es, names) + [Sum(e.delegate, e.output.amount)]
    ensures BucketsFor(es + [e], names + [e.delegate])
         == BucketsFor(es, names) + [Bucket(e.delegate, Push([], e.output, e.memory))]
  {
    AddElsewhere(es, e, names);
    OneMoreEntry(es, e, e.delegate);
    NothingToSum();
    hide OutputsFor, Contributed, SumOf, SumsFor, BucketsFor;
    SumsOfOneMore(es + [e], names, e.delegate);
    BucketsOfOneMore(es + [e], names, e.delegate);
    assert [] + [e.output] == [e.output];
  }

  lemma NamesMatch(es: seq<Entry>, names: seq<string>)
    ensures |SumsFor(es, names)| == |BucketsFor(es, names)| == |names|
    ensures forall k :: 0 <= k < |names| ==>
              SumsFor(es, names)[k].address == BucketsFor(es, names)[k].delegate == names[k]
  {
  }

  lemma AddStep(es: seq<Entry>, e: Entry)
    requires GoodAddress(e.delegate)
    ensures Add(TablesFor(es), e) == TablesFor(es + [e])
  {
    var names := Admitted(es);
    AdmittedStep(es, e);
    AdmittedDistinct(es);
    NamesMatch(es, names);
    hide OutputsFor, Contributed, Push, SumOf, Admitted, FindSum, FindBucket, SumsFor, BucketsFor;
    var i := IndexIn(names, SumsFor(es, names), BucketsFor(es, names), e.delegate);
    if i < |names| {
      AddToKnown(es, e, names, i);
    } else {
      AddElsewhere(es, e, names);
      if |names| < MAX_DELEGATES {
        NotYetSeen(es, e.delegate);
        AddNew(es, e, names);
      }
    }
  }

  /** For every stream of contributions to delegates with addresses of 1 to 98 characters, the
      totals and the buckets list the same delegates in the same order, the first 55 to appear;
      every total is the sum of its delegate's outputs and every bucket holds those that found room. */
  lemma {:induction false} TablesAreRight(es: seq<Entry>)
    requires forall k :: 0 <= k < |es| ==> GoodAddress(es[k].delegate)
    ensures AddAll(es) == TablesFor(es)
  {
    if es == [] {
      assert SumsFor(es, []) == [] && BucketsFor(es, []) == [];
    } else {
      var front, last := es[..|es| - 1], es[|es| - 1];
      TablesAreRight(front);
      assert es == front + [last];
      AddStep(front, last);
    }
  }

  // ---------- Nothing lost ----------

  /** With memory for every contribution, no output is lost. */
  lemma {:induction false} NothingLost(es: seq<Entry>, a: string)
    requires forall k :: 0 <= k < |es| ==> es[k].memory
    ensures OutputsFor(es, a) == Contributed(es, a)
  {
    if es != [] {
      NothingLost(es[..|es| - 1], a);
      assert es[|es| - 1].memory;
    }
  }

  lemma {:induction false} NeverMore(es: seq<Entry>, a: string)
    requires Positive(es)
    ensures SumOf(OutputsFor(es, a)) <= SumOf(Contributed(es, a))
    ensures |OutputsFor(es, a)| <= |Contributed(es, a)|
  {
    if es != [] {
      var front, last := es[..|es| - 1], es[|es| - 1];
      NeverMore(front, a);
      assert last.output.amount > 0;
      SumOfOneMore(OutputsFor(front, a), last.output);
      SumOfOneMore(Contributed(front, a), last.output);
      assert Contributed(front, a) + [] == Contributed(front, a);
      hide SumOf;
    }
  }

  /** A bucket adds up to its delegate's total if and only if no output was lost. */
  lemma {:induction false} FullIff(es: seq<Entry>, a: string)
    requires Positive(es)
    ensures SumOf(OutputsFor(es, a)) == SumOf(Contributed(es, a)) <==> OutputsFor(es, a) == Contributed(es, a)
  {
    if es != [] {
      var front, last := es[..|es| - 1], es[|es| - 1];
      FullIff(front, a);
      NeverMore(front, a);
      assert last.output.amount > 0;
      SumOfOneMore(OutputsFor(front, a), last.output);
      SumOfOneMore(Contributed(front, a), last.output);
      assert Contributed(front, a) + [] == Contributed(front, a);
      hide SumOf;
      if OutputsFor(es, a) == Contributed(es, a) && last.delegate == a {
        assert |OutputsFor(es, a)| == |OutputsFor(front, a)| + 1;
        assert OutputsFor(front, a) == OutputsFor(es, a)[..|OutputsFor(front, a)|];
      }
    }
  }

  /** The two tables in lockstep: the same delegates, every total the sum of its bucket. */
  ghost predicate InStep(t: Tables) {
    && |t.sums| == |t.buckets|
    && (forall i :: 0 <= i < |t.sums| ==>
          && t.sums[i].address == t.buckets[i].delegate && GoodAddress(t.sums[i].address)
          && t.sums[i].total == SumOf(t.buckets[i].outs))
  }

  /** The output finds room, or is dropped from both tables. */
  predicate Keeps(t: Tables, e: Entry) {
    var i := FindBucket(t.buckets, e.delegate);
    if i < |t.buckets| then e.memory || |t.buckets[i].outs| < Capacity(|t.buckets[i].outs|)
    else e.memory || |t.buckets| >= MAX_DELEGATES
  }

  lemma OutsideAddressSplits(t: Tables, e: Entry)
    requires InStep(t) && !GoodAddress(e.delegate) && |t.sums| < MAX_DELEGATES
    ensures !InStep(Add(t, e))
  {
    FindSumIs(t.sums, e.delegate);
    FindBucketIs(t.buckets, e.delegate);
    hide Push;
  }

  lemma FullTablesStay(t: Tables, e: Entry)
    requires InStep(t) && !GoodAddress(e.delegate) && |t.sums| >= MAX_DELEGATES
    ensures Add(t, e) == t && Keeps(t, e)
  {
    FindSumIs(t.sums, e.delegate);
    FindBucketIs(t.buckets, e.delegate);
  }

  lemma SumOfPush(outs: seq<Output>, o: Output, memory: bool)
    ensures SumOf(Push(outs, o, memory)) == SumOf(outs) + o.amount <==>
              memory || |outs| < Capacity(|outs|) || o.amount == 0
  {
    SumOfOneMore(outs, o);
    hide SumOf;
  }

  lemma KnownKeepsStep(t: Tables, e: Entry, i: nat)
    requires InStep(t) && i < |t.sums| && t.sums[i].address == e.delegate
    ensures InStep(Tables(t.sums[i := Sum(e.delegate, t.sums[i].total + e.output.amount)],
                          t.buckets[i := Bucket(t.buckets[i].delegate,
                                                Push(t.buckets[i].outs, e.output, e.memory))])) <==>
              e.memory || |t.buckets[i].outs| < Capacity(|t.buckets[i].outs|) || e.output.amount == 0
  {
    SumOfPush(t.buckets[i].outs, e.output, e.memory);
    hide SumOf, Push;
    var u := Tables(t.sums[i := Sum(e.delegate, t.sums[i].total + e.output.amount)],
                    t.buckets[i := Bucket(t.buckets[i].delegate, Push(t.buckets[i].outs, e.output, e.memory))]);
    assert u.sums[i].total == SumOf(t.buckets[i].outs) + e.output.amount;
    assert u.buckets[i].outs == Push(t.buckets[i].outs, e.output, e.memory);
  }

  lemma NewKeepsStep(t: Tables, e: Entry)
    requires InStep(t) && GoodAddress(e.delegate)
    ensures InStep(Tables(t.sums + [Sum(e.delegate, e.output.amount)],
                          t.buckets + [Bucket(e.delegate, Push([], e.output, e.memory))])) <==>
              e.memory || e.output.amount == 0
  {
    NothingToSum();
    SumOfPush([], e.output, e.memory);
    hide SumOf, Push;
    var u := Tables(t.sums + [Sum(e.delegate, e.output.amount)],
                    t.buckets + [Bucket(e.delegate, Push([], e.output, e.memory))]);
    assert u.sums[|t.sums|].total == e.output.amount && u.buckets[|t.sums|].outs == Push([], e.output, e.memory);
  }

  lemma GoodAddressKeepsStep(t: Tables, e: Entry)
    requires InStep(t) && GoodAddress(e.delegate)
    ensures InStep(Add(t, e)) <==> Keeps(t, e) || e.output.amount == 0
  {
    var names := seq(|t.sums|, i requires 0 <= i < |t.sums| => t.sums[i].address);
    var i := IndexIn(names, t.sums, t.buckets, e.delegate);
    assert Cut(e.delegate) == e.delegate;
    if i < |names| {
      KnownKeepsStep(t, e, i);
    } else {
      NewKeepsStep(t, e);
    }
    hide FindSum, FindBucket, SumOf, InStep, Push, Capacity;
  }

  /** An entry keeps the tables in lockstep if and only if its delegate address has 1 to 98
      characters or the tables are full, and its output finds room or is worth nothing: the two
      helpers treat other addresses differently, and only one of them allocates. */
  lemma LockstepIff(t: Tables, e: Entry)
    requires InStep(t)
    ensures InStep(Add(t, e)) <==>
              (GoodAddress(e.delegate) || |t.sums| >= MAX_DELEGATES) && (Keeps(t, e) || e.output.amount == 0)
  {
    hide Add, InStep, Keeps;
    if GoodAddress(e.delegate) {
      GoodAddressKeepsStep(t, e);
    } else if |t.sums| >= MAX_DELEGATES {
      FullTablesStay(t, e);
    } else {
      OutsideAddressSplits(t, e);
    }
  }

  // ---------- The code of the two tables ----------

  function SumsIn(addrs: seq<string>, totals: seq<int>): (s: seq<Sum>)
    requires |addrs| == |totals|
    ensures |s| == |addrs|
  {
    seq(|addrs|, i requires 0 <= i < |addrs| => Sum(addrs[i], totals[i]))
  }

  lemma TotalsIn(addrs: seq<string>, totals: seq<int>)
    requires |addrs| == |totals|
    ensures forall k :: 0 <= k < |totals| ==> SumsIn(addrs, totals)[k].total == totals[k]
  {
  }

  lemma {:induction false} SumFound(sums: seq<Sum>, a: string, i: nat)
    requires i <= |sums| && (i < |sums| ==> sums[i].address == a)
    requires forall k :: 0 <= k < i ==> sums[k].address != a
    ensures FindSum(sums, a) == i
  {
    FindSumIs(sums, a);
  }

  lemma {:induction false} BucketFound(buckets: seq<Bucket>, a: string, i: nat)
    requires i <= |buckets| && (i < |buckets| ==> buckets[i].delegate == a)
    requires forall k :: 0 <= k < i ==> buckets[k].delegate != a
    ensures FindBucket(buckets, a) == i
  {
    FindBucketIs(buckets, a);
  }

  method AddVoteSum(addrs: array<string>, totals: array<int>, count: nat, addr: string, amount: int) returns (n: nat)
    requires addrs.Length == totals.Length == MAX_DELEGATES && count <= MAX_DELEGATES
    requires forall i :: 0 <= i < count && addrs[i] == addr ==> totals[i] + amount <= INT64_MAX
    modifies addrs, totals
    ensures n <= MAX_DELEGATES
    ensures SumsIn(addrs[..n], totals[..n]) == AddSum(SumsIn(old(addrs[..count]), old(totals[..count])), addr, amount)
  {
    ghost var sums := SumsIn(addrs[..count], totals[..count]);
    for i := 0 to count
      invariant addrs[..] == old(addrs[..]) && totals[..] == old(totals[..])
      invariant forall k :: 0 <= k < i ==> sums[k].address != addr
    {
      if addrs[i] == addr {
        SumFound(sums, addr, i);
        totals[i] := totals[i] + amount;
        assert SumsIn(addrs[..count], totals[..count]) == sums[i := Sum(addr, sums[i].total + amount)];
        return count;
      }
    }
    SumFound(sums, addr, count);
    if count >= MAX_DELEGATES {
      return count;
    }
    if |addr| == 0 || |addr| > WALLET_LENGTH {
      return count;
    }
    addrs[count] := addr;
    totals[count] := amount;
    n := count + 1;
    assert SumsIn(addrs[..n], totals[..n]) == sums + [Sum(addr, amount)];
  }

  /** payout_bucket_t: the delegate and a growable array with count entries in use. */
  datatype Room = Room(delegate: string, outs: array<Output>, count: nat)

  ghost predicate RoomOk(r: Room) {
    r.outs.Length == Capacity(r.count)
  }

  ghost predicate RoomsOk(rooms: seq<Room>) {
    && (forall i :: 0 <= i < |rooms| ==> RoomOk(rooms[i]))
    && (forall i, j :: 0 <= i < j < |rooms| ==> rooms[i].outs != rooms[j].outs)
  }

  ghost function InUse(r: Room): Bucket
    requires RoomOk(r)
    reads r.outs
  {
    Bucket(r.delegate, r.outs[..r.count])
  }

  ghost function BucketsIn(rooms: seq<Room>): (b: seq<Bucket>)
    requires RoomsOk(rooms)
    reads set r | r in rooms :: r.outs
    ensures |b| == |rooms| && forall i :: 0 <= i < |rooms| ==> b[i] == InUse(rooms[i])
  {
    if rooms == [] then [] else BucketsIn(rooms[..|rooms| - 1]) + [InUse(rooms[|rooms| - 1])]
  }

  lemma TableSplit(list: seq<Room>, r: Room)
    requires RoomsOk(list + [r])
    ensures RoomsOk(list) && RoomOk(r)
    ensures BucketsIn(list + [r]) == BucketsIn(list) + [InUse(r)]
  {
    assert (list + [r])[|list|] == r && (list + [r])[..|list|] == list;
    forall i | 0 <= i < |list| ensures (list + [r])[i] == list[i] {
    }
  }

  lemma TableJoin(list: seq<Room>, r: Room)
    requires RoomsOk(list) && RoomOk(r) && forall i :: 0 <= i < |list| ==> list[i].outs != r.outs
    ensures RoomsOk(list + [r])
  {
  }

  /** get_bucket_index: a new bucket starts without outputs; -1 when all are taken. */
  method GetBucketIndex(rooms: array<Room>, count: nat, delegate: string) returns (idx: int, n: nat)
    requires rooms.Length == MAX_DELEGATES && count <= MAX_DELEGATES && RoomsOk(rooms[..count])
    modifies rooms
    ensures n <= MAX_DELEGATES && RoomsOk(rooms[..n]) && idx < n
    ensures forall i :: 0 <= i < n ==> fresh(rooms[i].outs) || (i < count && rooms[i].outs == old(rooms[i].outs))
    ensures var b := old(BucketsIn(rooms[..count]));
            var i := FindBucket(b, delegate);
            && idx == (if i < count || count < MAX_DELEGATES then i else -1)
            && BucketsIn(rooms[..n]) == if i < count || count >= MAX_DELEGATES then b else b + [Bucket(Cut(delegate), [])]
  {
    hide FindBucket, BucketsIn, InUse, Cut, RoomsOk;
    idx := ScanBuckets(rooms, count, delegate);
    if idx < count {
      return idx, count;
    }
    if count >= MAX_DELEGATES {
      return -1, count;
    }
    ghost var list := rooms[..count];
    ghost var r := AddRoom(rooms, count, delegate);
    n := count + 1;
    TableSplit(list, r);
    forall i | 0 <= i < n ensures rooms[i] == if i < count then list[i] else r {
      assert rooms[i] == rooms[..n][i];
    }
  }

  method ScanBuckets(rooms: array<Room>, count: nat, delegate: string) returns (idx: nat)
    requires count <= rooms.Length && RoomsOk(rooms[..count])
    ensures idx == FindBucket(BucketsIn(rooms[..count]), delegate)
  {
    ghost var buckets := BucketsIn(rooms[..count]);
    for i := 0 to count
      invariant forall k :: 0 <= k < i ==> buckets[k].delegate != delegate
    {
      if rooms[i].delegate == delegate {
        BucketFound(buckets, delegate, i);
        return i;
      }
    }
    BucketFound(buckets, delegate, count);
    idx := count;
  }

  method AddRoom(rooms: array<Room>, count: nat, delegate: string) returns (ghost r: Room)
    requires count < rooms.Length && RoomsOk(rooms[..count])
    modifies rooms
    ensures fresh(r.outs) && RoomOk(r) && InUse(r) == Bucket(Cut(delegate), [])
    ensures rooms[..count + 1] == old(rooms[..count]) + [r] && RoomsOk(old(rooms[..count]) + [r])
  {
    ghost var list := rooms[..count];
    var none := new Output[0];
    rooms[count] := Room(Cut(delegate), none, 0);
    r := rooms[count];
    TableJoin(list, r);
    hide RoomsOk;
    assert InUse(r).outs == [];
  }

  /** bucket_push_output: the array doubles when it is full; memory says whether realloc succeeds. */
  method PushOutput(rooms: array<Room>, idx: nat, voter: string, amount: int, memory: bool) returns (ok: bool)
    requires idx < rooms.Length && RoomOk(rooms[idx])
    modifies rooms, rooms[idx].outs
    ensures ok == (memory || old(rooms[idx]).count < old(rooms[idx]).outs.Length)
    ensures forall j :: 0 <= j < rooms.Length && j != idx ==> rooms[j] == old(rooms[j])
    ensures RoomOk(rooms[idx])
    ensures rooms[idx].outs == old(rooms[idx]).outs || fresh(rooms[idx].outs)
    ensures var b := old(InUse(rooms[idx]));
            InUse(rooms[idx]) == Bucket(b.delegate, Push(b.outs, Output(Cut(voter), amount), memory))
  {
    var r := rooms[idx];
    var outs := r.outs;
    if r.count == outs.Length {
      if !memory {
        return false;
      }
      var size := if outs.Length == 0 then 256 else outs.Length * 2;
      outs := new Output[size](_ => Output("", 0));
      forall i | 0 <= i < r.count {
        outs[i] := r.outs[i];
      }
      assert outs[..r.count] == r.outs[..r.count];
    }
    outs[r.count] := Output(Cut(voter), amount);
    rooms[idx] := Room(r.delegate, outs, r.count + 1);
    ok := true;
  }

  lemma SameUse(r: seq<Room>, buckets: seq<Bucket>)
    requires RoomsOk(r) && |r| == |buckets| && forall i :: 0 <= i < |r| ==> InUse(r[i]) == buckets[i]
    ensures BucketsIn(r) == buckets
  {
  }

  /** The append helper touches no other bucket of the table. */
  method PushInTable(rooms: array<Room>, n: nat, idx: nat, voter: string, amount: int, memory: bool)
    requires idx < n <= rooms.Length && RoomsOk(rooms[..n])
    modifies rooms, rooms[idx].outs
    ensures RoomsOk(rooms[..n])
    ensures forall i :: 0 <= i < n ==> fresh(rooms[i].outs) || rooms[i].outs == old(rooms[i].outs)
    ensures forall i :: 0 <= i < n && i != idx ==> InUse(rooms[i]) == old(InUse(rooms[i]))
    ensures InUse(rooms[idx]).delegate == old(InUse(rooms[idx])).delegate
    ensures InUse(rooms[idx]).outs == Push(old(InUse(rooms[idx])).outs, Output(Cut(voter), amount), memory)
  {
    ghost var list := rooms[..n];
    hide Cut;
    assert forall i :: 0 <= i < n && i != idx ==> list[i].outs != list[idx].outs;
    var ok := PushOutput(rooms, idx, voter, amount, memory);
    assert forall i :: 0 <= i < n && i != idx ==> rooms[i] == list[i];
  }

  /** The append helper seen on the whole table. */
  method AppendOutput(rooms: array<Room>, n: nat, idx: nat, voter: string, amount: int, memory: bool)
    requires idx < n <= rooms.Length && RoomsOk(rooms[..n])
    modifies rooms, rooms[idx].outs
    ensures RoomsOk(rooms[..n])
    ensures forall i :: 0 <= i < n ==> fresh(rooms[i].outs) || rooms[i].outs == old(rooms[i].outs)
    ensures var b := old(BucketsIn(rooms[..n]));
            BucketsIn(rooms[..n]) ==
            b[idx := Bucket(b[idx].delegate, Push(b[idx].outs, Output(Cut(voter), amount), memory))]
  {
    ghost var before := BucketsIn(rooms[..n]);
    hide BucketsIn, Cut;
    PushInTable(rooms, n, idx, voter, amount, memory);
    ghost var o := Output(Cut(voter), amount);
    ghost var after := before[idx := Bucket(before[idx].delegate, Push(before[idx].outs, o, memory))];
    hide InUse;
    SameUse(rooms[..n], after);
  }

  /** Both helpers together. */
  method CollectOutput(rooms: array<Room>, count: nat, delegate: string, voter: string, amount: int, memory: bool)
    returns (n: nat)
    requires rooms.Length == MAX_DELEGATES && count <= MAX_DELEGATES && RoomsOk(rooms[..count])
    modifies rooms, set r | r in rooms[..count] :: r.outs
    ensures n <= MAX_DELEGATES && RoomsOk(rooms[..n])
    ensures forall i :: 0 <= i < n ==> fresh(rooms[i].outs) || (i < count && rooms[i].outs == old(rooms[i].outs))
    ensures BucketsIn(rooms[..n])
         == AddOutput(old(BucketsIn(rooms[..count])), delegate, Output(Cut(voter), amount), memory)
  {
    hide FindBucket, BucketsIn, RoomsOk, Push;
    var idx;
    idx, n := GetBucketIndex(rooms, count, delegate);
    if idx < 0 {
      return;
    }
    AppendOutput(rooms, n, idx, voter, amount, memory);
  }

  /** Everything contributed to anybody. */
  function GrandTotal(es: seq<Entry>): int {
    if es == [] then 0 else GrandTotal(es[..|es| - 1]) + es[|es| - 1].output.amount
  }

  ghost predicate Positive(es: seq<Entry>) {
    forall k :: 0 <= k < |es| ==> es[k].output.amount > 0
  }

  /** No total exceeds what was contributed altogether. */
  lemma {:induction false} TotalsBounded(es: seq<Entry>)
    requires Positive(es)
    ensures GrandTotal(es) >= 0
    ensures forall i :: 0 <= i < |AddAll(es).sums| ==> AddAll(es).sums[i].total <= GrandTotal(es)
  {
    if es != [] {
      var front, last := es[..|es| - 1], es[|es| - 1];
      TotalsBounded(front);
      assert last.output.amount > 0;
      hide FindSum, AddOutput;
    }
  }

  lemma {:induction false} GrandTotalGrows(es: seq<Entry>, i: nat)
    requires Positive(es) && i <= |es|
    ensures GrandTotal(es[..i]) <= GrandTotal(es)
  {
    if i < |es| {
      GrandTotalGrows(es[..|es| - 1], i);
      assert es[..|es| - 1][..i] == es[..i];
      assert es[|es| - 1].output.amount > 0;
    } else {
      assert es[..i] == es;
    }
  }

  lemma {:induction false} EntriesPositive(docs: seq<Doc>, check: Checker, memory: Memory)
    ensures Positive(Entries(docs, check, memory))
  {
    if docs != [] {
      EntriesPositive(docs[..|docs| - 1], check, memory);
    }
  }

  lemma EntriesStep(docs: seq<Doc>, check: Checker, memory: Memory, i: nat)
    requires i < |docs|
    ensures Entries(docs[..i + 1], check, memory) ==
              if Valid(docs[i], check) then Entries(docs[..i], check, memory) + [EntryOf(docs[i], memory(i))] else Entries(docs[..i], check, memory)
    ensures Deletions(docs[..i + 1], check) ==
              if WellFormed(docs[i]) && !Valid(docs[i], check) then Deletions(docs[..i], check) + [docs[i].voter.value]
              else Deletions(docs[..i], check)
  {
    assert docs[..i + 1][..i] == docs[..i];
  }

  lemma AddAllStep(es: seq<Entry>, e: Entry)
    ensures AddAll(es + [e]) == Add(AddAll(es), e)
  {
    assert (es + [e])[..|es|] == es;
  }

  lemma {:induction false} EntriesPrefix(docs: seq<Doc>, check: Checker, memory: Memory, i: nat)
    requires i <= |docs|
    ensures |Entries(docs[..i], check, memory)| <= |Entries(docs, check, memory)|
    ensures Entries(docs[..i], check, memory) == Entries(docs, check, memory)[..|Entries(docs[..i], check, memory)|]
    decreases |docs|
  {
    if i < |docs| {
      EntriesPrefix(docs[..|docs| - 1], check, memory, i);
      assert docs[..|docs| - 1][..i] == docs[..i];
    } else {
      assert docs[..i] == docs;
    }
  }

  /** The sum the next entry goes to still fits, if everything together does. */
  lemma NextFits(docs: seq<Doc>, check: Checker, memory: Memory, i: nat)
    requires i < |docs| && Valid(docs[i], check) && GrandTotal(Entries(docs, check, memory)) <= INT64_MAX
    ensures var sums := AddAll(Entries(docs[..i], check, memory)).sums;
            forall k :: 0 <= k < |sums| ==> sums[k].total + docs[i].total.value <= INT64_MAX
  {
    var es, front := Entries(docs, check, memory), Entries(docs[..i], check, memory);
    EntriesPositive(docs, check, memory);
    EntriesPositive(docs[..i], check, memory);
    EntriesStep(docs, check, memory, i);
    EntriesPrefix(docs, check, memory, i + 1);
    GrandTotalGrows(es, |front| + 1);
    TotalsBounded(front);
    assert (front + [EntryOf(docs[i], memory(i))])[..|front|] == front;
    hide AddAll, Entries;
  }

  method EmptyTables() returns (addrs: array<string>, totals: array<int>, rooms: array<Room>)
    ensures fresh(addrs) && fresh(totals) && fresh(rooms)
    ensures addrs.Length == totals.Length == rooms.Length == MAX_DELEGATES
    ensures RoomsOk(rooms[..0]) && SumsIn(addrs[..0], totals[..0]) == [] && BucketsIn(rooms[..0]) == []
  {
    addrs, totals := new string[MAX_DELEGATES](_ => ""), new int[MAX_DELEGATES](_ => 0);
    var none := new Output[0];
    rooms := new Room[MAX_DELEGATES](_ => Room("", none, 0));
  }

  /** A flag looked at before every turn of a loop stays set: how many of n turns are made. */
  function Turns(turns: nat, n: nat): (k: nat)
    ensures k <= n
  {
    if turns < n then turns else n
  }

  /** The scan of run_proof_check: totals, buckets and the proofs to delete.  Shutdown ends it after
      the given number of turns; a cursor that fails ends docs. */
  method ScanProofs(docs: seq<Doc>, check: Checker, memory: Memory, turns: nat)
    returns (addrs: array<string>, totals: array<int>, count: nat, rooms: array<Room>, n: nat, deleted: seq<string>)
    requires GrandTotal(Entries(docs, check, memory)) <= INT64_MAX
    ensures count <= addrs.Length == totals.Length && n <= rooms.Length && RoomsOk(rooms[..n])
    ensures Tables(SumsIn(addrs[..count], totals[..count]), BucketsIn(rooms[..n]))
         == AddAll(Entries(docs[..Turns(turns, |docs|)], check, memory))
    ensures deleted == Deletions(docs[..Turns(turns, |docs|)], check)
  {
    hide Entries, Deletions, AddAll, AddSum, AddOutput, Valid, SumsIn, BucketsIn, RoomsOk;
    addrs, totals, rooms := EmptyTables();
    count, n, deleted := 0, 0, [];
    NothingScanned(docs, check, memory);
    for i := 0 to |docs|
      invariant i <= turns && count <= MAX_DELEGATES && n <= MAX_DELEGATES && RoomsOk(rooms[..n])
      invariant fresh(addrs) && fresh(totals) && fresh(rooms)
      invariant forall k :: 0 <= k < n ==> fresh(rooms[k].outs)
      invariant Tables(SumsIn(addrs[..count], totals[..count]), BucketsIn(rooms[..n]))
             == AddAll(Entries(docs[..i], check, memory))
      invariant deleted == Deletions(docs[..i], check)
    {
      if i >= turns {
        return;
      }
      count, n, deleted := ScanOne(docs, i, check, memory, addrs, totals, count, rooms, n, deleted);
    }
  }

  lemma NothingScanned(docs: seq<Doc>, check: Checker, memory: Memory)
    ensures AddAll(Entries(docs[..0], check, memory)) == Tables([], []) && Deletions(docs[..0], check) == []
  {
  }

  /** One document of the scan. */
  method ScanOne(docs: seq<Doc>, i: nat, check: Checker, memory: Memory, addrs: array<string>, totals: array<int>, count: nat,
                 rooms: array<Room>, n: nat, deleted: seq<string>)
    returns (count': nat, n': nat, deleted': seq<string>)
    requires i < |docs| && GrandTotal(Entries(docs, check, memory)) <= INT64_MAX
    requires addrs.Length == totals.Length == rooms.Length == MAX_DELEGATES
    requires count <= MAX_DELEGATES && n <= MAX_DELEGATES && RoomsOk(rooms[..n])
    requires Tables(SumsIn(addrs[..count], totals[..count]), BucketsIn(rooms[..n])) == AddAll(Entries(docs[..i], check, memory))
    requires deleted == Deletions(docs[..i], check)
    modifies addrs, totals, rooms, set r | r in rooms[..n] :: r.outs
    ensures count' <= MAX_DELEGATES && n' <= MAX_DELEGATES && RoomsOk(rooms[..n'])
    ensures forall k :: 0 <= k < n' ==> fresh(rooms[k].outs) || (k < n && rooms[k].outs == old(rooms[k].outs))
    ensures Tables(SumsIn(addrs[..count'], totals[..count']), BucketsIn(rooms[..n'])) == AddAll(Entries(docs[..i + 1], check, memory))
    ensures deleted' == Deletions(docs[..i + 1], check)
  {
    hide Entries, Deletions, AddAll, AddSum, AddOutput, SumsIn, BucketsIn, RoomsOk;
    count', n', deleted' := count, n, deleted;
    var d := docs[i];
    EntriesStep(docs, check, memory, i);
    if d.total.None? {
      return;
    }
    if d.total.value <= 0 {
      return;
    }
    if d.voter.None? || d.delegate.None? || d.proof.None? {
      return;
    }
    if !check(d.total.value, d.voter.value, d.proof.value) {
      deleted' := deleted + [d.voter.value];
      return;
    }
    NextFits(docs, check, memory, i);
    ghost var sums := SumsIn(addrs[..count], totals[..count]);
    TotalsIn(addrs[..count], totals[..count]);
    assert forall k :: 0 <= k < count ==> sums[k].total == totals[..count][k];
    AddAllStep(Entries(docs[..i], check, memory), EntryOf(d, memory(i)));
    count' := AddVoteSum(addrs, totals, count, d.delegate.value, d.total.value);
    n' := CollectOutput(rooms, n, d.delegate.value, d.voter.value, d.total.value, memory(i));
  }
}
