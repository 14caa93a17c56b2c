/** The payout seen from the documents of the reserve_proofs collection: which of them count for a
    delegate, what is owed for each, which are deleted, and who is paid in the end. */
module PayoutDocuments {
  import opened Bits
  import opened Indices
  import opened Payout
  import opened PayoutDispatch

  // ---------- Documents ----------

  /** Document i names a positive total, a voter, a delegate and a proof. */
  predicate IsComplete(docs: seq<Doc>, i: nat) {
    && i < |docs| && docs[i].total.Some? && docs[i].total.value > 0
    && docs[i].voter.Some? && docs[i].delegate.Some? && docs[i].proof.Some?
  }

  /** Its proof is accepted for its total and its voter. */
  predicate IsAccepted(docs: seq<Doc>, check: Checker, i: nat) {
    IsComplete(docs, i) && check(docs[i].total.value, docs[i].voter.value, docs[i].proof.value)
  }

  /** It is accepted and votes for a. */
  predicate Supports(docs: seq<Doc>, check: Checker, a: string, i: nat) {
    IsAccepted(docs, check, i) && docs[i].delegate.value == a
  }

  /** The output owed for document i: its voter, cut to 98 characters, and its total. */
  predicate IsOwed(docs: seq<Doc>, i: nat, o: Output) {
    && IsComplete(docs, i) && o.amount == docs[i].total.value && o.voter <= docs[i].voter.value
    && |o.voter| == (if |docs[i].voter.value| < 98 then |docs[i].voter.value| else 98)
  }

  /** c lists the documents that support a, in order, and outs what is owed for each. */
  ghost predicate ListsProofs(docs: seq<Doc>, check: Checker, a: string, c: seq<nat>, outs: seq<Output>) {
    && |outs| == |c| && Ascending(c)
    && (forall j :: 0 <= j < |c| ==> Supports(docs, check, a, c[j]) && IsOwed(docs, c[j], outs[j]))
    && (forall i: nat :: Supports(docs, check, a, i) ==> i in c)
  }

  lemma OwedUnique(docs: seq<Doc>, i: nat, o: Output, q: Output)
    requires IsOwed(docs, i, o) && IsOwed(docs, i, q)
    ensures o == q
  {
  }

  lemma ListUnique(docs: seq<Doc>, check: Checker, a: string, c: seq<nat>, outs: seq<Output>,
                   e: seq<nat>, owed: seq<Output>)
    requires ListsProofs(docs, check, a, c, outs) && ListsProofs(docs, check, a, e, owed)
    ensures c == e && outs == owed
  {
    hide Supports, IsOwed;
    assert Elements(c) == Elements(e);
    AscendingUnique(c, e);
    forall j | 0 <= j < |c| ensures outs[j] == owed[j] {
      OwedUnique(docs, c[j], outs[j], owed[j]);
    }
  }

  // ---------- What is owed to a delegate ----------

  lemma SupportsMore(docs: seq<Doc>, check: Checker, a: string, i: nat)
    requires docs != []
    ensures Supports(docs, check, a, i) <==>
            Supports(docs[..|docs| - 1], check, a, i) || (i == |docs| - 1 && Supports(docs, check, a, i))
  {
  }

  lemma EntryIsOwed(docs: seq<Doc>, check: Checker, memory: Memory, a: string)
    requires docs != []
    ensures var n := |docs| - 1;
            && Valid(docs[n], check) == IsAccepted(docs, check, n)
            && (Valid(docs[n], check) ==>
                 (EntryOf(docs[n], memory(n)).delegate == a <==> Supports(docs, check, a, n)) &&
                 IsOwed(docs, n, EntryOf(docs[n], memory(n)).output) &&
                 EntryOf(docs[n], memory(n)).memory == memory(n))
  {
  }

  lemma ListsOneMore(docs: seq<Doc>, check: Checker, a: string, c: seq<nat>, outs: seq<Output>, o: Output)
    requires docs != [] && ListsProofs(docs[..|docs| - 1], check, a, c, outs)
    ensures !Supports(docs, check, a, |docs| - 1) ==> ListsProofs(docs, check, a, c, outs)
    ensures Supports(docs, check, a, |docs| - 1) && IsOwed(docs, |docs| - 1, o) ==>
            ListsProofs(docs, check, a, c + [|docs| - 1], outs + [o])
  {
    var n := |docs| - 1;
    var front := docs[..n];
    forall i: nat ensures Supports(docs, check, a, i) ==> Supports(front, check, a, i) || i == n {
      SupportsMore(docs, check, a, i);
    }
    forall j | 0 <= j < |c| ensures Supports(docs, check, a, c[j]) && IsOwed(docs, c[j], outs[j]) && c[j] < n {
      SupportsMore(docs, check, a, c[j]);
    }
    hide Supports, IsOwed;
  }

  lemma {:induction false} ContributionList(docs: seq<Doc>, check: Checker, memory: Memory, a: string)
    returns (c: seq<nat>)
    ensures ListsProofs(docs, check, a, c, Contributed(Entries(docs, check, memory), a))
  {
    if docs == [] {
      c := [];
    } else {
      var n := |docs| - 1;
      c := ContributionList(docs[..n], check, memory, a);
      var es := Entries(docs[..n], check, memory);
      EntryIsOwed(docs, check, memory, a);
      if Valid(docs[n], check) {
        var e := EntryOf(docs[n], memory(n));
        assert (es + [e])[..|es|] == es;
        ListsOneMore(docs, check, a, c, Contributed(es, a), e.output);
        if e.delegate == a {
          c := c + [n];
        }
      } else {
        assert Entries(docs, check, memory) == es;
        ListsOneMore(docs, check, a, c, Contributed(es, a), Output("", 0));
      }
    }
  }

  /** The outputs contributed to a are those owed for the documents that support a, in their order. */
  lemma ContributionsAre(docs: seq<Doc>, check: Checker, memory: Memory, a: string, outs: seq<Output>)
    ensures Contributed(Entries(docs, check, memory), a) == outs <==> exists c :: ListsProofs(docs, check, a, c, outs)
  {
    var e := ContributionList(docs, check, memory, a);
    if c :| ListsProofs(docs, check, a, c, outs) {
      ListUnique(docs, check, a, c, outs, e, Contributed(Entries(docs, check, memory), a));
    }
  }

  // ---------- What is deleted ----------

  /** c lists the complete documents whose proof is refused, in order, and names their voters. */
  ghost predicate ListsRefused(docs: seq<Doc>, check: Checker, c: seq<nat>, names: seq<string>) {
    && |names| == |c| && Ascending(c)
    && (forall j :: 0 <= j < |c| ==> IsRefused(docs, check, c[j]) && names[j] == docs[c[j]].voter.value)
    && (forall i: nat :: IsRefused(docs, check, i) ==> i in c)
  }

  predicate IsRefused(docs: seq<Doc>, check: Checker, i: nat) {
    IsComplete(docs, i) && !check(docs[i].total.value, docs[i].voter.value, docs[i].proof.value)
  }

  lemma RefusedOneMore(docs: seq<Doc>, check: Checker, c: seq<nat>, names: seq<string>)
    requires docs != [] && ListsRefused(docs[..|docs| - 1], check, c, names)
    ensures !IsRefused(docs, check, |docs| - 1) ==> ListsRefused(docs, check, c, names)
    ensures IsRefused(docs, check, |docs| - 1) ==>
            ListsRefused(docs, check, c + [|docs| - 1], names + [docs[|docs| - 1].voter.value])
  {
    var n := |docs| - 1;
    var front := docs[..n];
    forall i: nat ensures IsRefused(docs, check, i) <==> IsRefused(front, check, i) || (i == n && IsRefused(docs, check, n)) {
    }
    assert forall i :: 0 <= i < n ==> front[i] == docs[i];
    assert forall j :: 0 <= j < |c| ==> c[j] < n;
    assert IsRefused(docs, check, n) ==> docs[n].voter.Some?;
    hide IsRefused;
  }

  lemma {:induction false} DeletionList(docs: seq<Doc>, check: Checker) returns (c: seq<nat>)
    ensures ListsRefused(docs, check, c, Deletions(docs, check))
  {
    c := [];
    if docs != [] {
      var n := |docs| - 1;
      c := DeletionList(docs[..n], check);
      RefusedOneMore(docs, check, c, Deletions(docs[..n], check));
      assert WellFormed(docs[n]) && !Valid(docs[n], check) <==> IsRefused(docs, check, n);
      hide IsRefused, ListsRefused, Valid;
      if IsRefused(docs, check, n) {
        c := c + [n];
      }
    }
  }

  /** The proofs deleted are those of the complete documents that the check refuses, in order. */
  lemma DeletionsAre(docs: seq<Doc>, check: Checker, names: seq<string>)
    ensures Deletions(docs, check) == names <==> exists c :: ListsRefused(docs, check, c, names)
  {
    var e := DeletionList(docs, check);
    if c :| ListsRefused(docs, check, c, names) {
      assert Elements(c) == Elements(e);
      AscendingUnique(c, e);
    }
  }

  // ---------- The delegates admitted ----------

  /** Document i is the first that supports a. */
  ghost predicate IsFirstFor(docs: seq<Doc>, check: Checker, a: string, i: nat) {
    Supports(docs, check, a, i) && forall k: nat :: k < i ==> !Supports(docs, check, a, k)
  }

  /** names are the first delegates to appear, at the documents f, up to 55 of them. */
  ghost predicate ListsDelegates(docs: seq<Doc>, check: Checker, names: seq<string>, f: seq<nat>) {
    && |f| == |names| <= 55 && Ascending(f)
    && (forall j :: 0 <= j < |names| ==> IsFirstFor(docs, check, names[j], f[j]))
    && (forall a, i :: IsFirstFor(docs, check, a, i) && a !in names ==> |names| == 55 && AllBefore(f, i))
  }

  ghost predicate AllBefore(f: seq<nat>, i: nat) {
    forall j :: 0 <= j < |f| ==> f[j] < i
  }

  lemma FirstForMore(docs: seq<Doc>, check: Checker, a: string, i: nat)
    requires docs != []
    ensures var n := |docs| - 1;
            IsFirstFor(docs, check, a, i) <==>
            IsFirstFor(docs[..n], check, a, i) ||
            (i == n && Supports(docs, check, a, n) && forall k: nat :: !Supports(docs[..n], check, a, k))
  {
    var n := |docs| - 1;
    forall k: nat ensures Supports(docs, check, a, k) <==>
                          Supports(docs[..n], check, a, k) || (k == n && Supports(docs, check, a, k)) {
      SupportsMore(docs, check, a, k);
    }
    forall k: nat ensures Supports(docs[..n], check, a, k) ==> k < n {
    }
    hide Supports;
  }

  lemma FirstExists(docs: seq<Doc>, check: Checker, a: string, i: nat) returns (k: nat)
    requires Supports(docs, check, a, i)
    ensures IsFirstFor(docs, check, a, k)
  {
    hide Supports;
    k := i;
    if m: nat :| m < i && Supports(docs, check, a, m) {
      k := FirstExists(docs, check, a, m);
    }
  }

  lemma DelegatesStay(docs: seq<Doc>, check: Checker, names: seq<string>, f: seq<nat>)
    requires docs != [] && ListsDelegates(docs[..|docs| - 1], check, names, f)
    requires IsAccepted(docs, check, |docs| - 1) ==> docs[|docs| - 1].delegate.value in names || |names| == 55
    ensures ListsDelegates(docs, check, names, f)
  {
    var n := |docs| - 1;
    BeforeLast(docs, check, names, f);
    forall a, i ensures IsFirstFor(docs, check, a, i) ==>
                        IsFirstFor(docs[..n], check, a, i) || (i == n && Supports(docs, check, a, n))
      ensures IsFirstFor(docs[..n], check, a, i) ==> IsFirstFor(docs, check, a, i)
    {
      FirstForMore(docs, check, a, i);
    }
    hide Supports, IsFirstFor;
  }

  lemma BeforeLast(docs: seq<Doc>, check: Checker, names: seq<string>, f: seq<nat>)
    requires docs != [] && ListsDelegates(docs[..|docs| - 1], check, names, f)
    ensures AllBefore(f, |docs| - 1)
  {
    assert forall j :: 0 <= j < |f| ==> Supports(docs[..|docs| - 1], check, names[j], f[j]);
  }

  lemma DelegateComes(docs: seq<Doc>, check: Checker, names: seq<string>, f: seq<nat>, a: string)
    requires docs != [] && ListsDelegates(docs[..|docs| - 1], check, names, f) && |names| < 55 && a !in names
    requires Supports(docs, check, a, |docs| - 1)
    ensures ListsDelegates(docs, check, names + [a], f + [|docs| - 1])
  {
    var n := |docs| - 1;
    BeforeLast(docs, check, names, f);
    forall k: nat ensures !Supports(docs[..n], check, a, k) {
      if Supports(docs[..n], check, a, k) {
        var i := FirstExists(docs[..n], check, a, k);
      }
    }
    forall b, i ensures IsFirstFor(docs, check, b, i) ==> IsFirstFor(docs[..n], check, b, i) || (i == n && b == a)
      ensures IsFirstFor(docs[..n], check, b, i) || (i == n && b == a) ==> IsFirstFor(docs, check, b, i)
    {
      FirstForMore(docs, check, b, i);
    }
    hide Supports, IsFirstFor;
  }

  lemma AdmittedMore(docs: seq<Doc>, check: Checker, memory: Memory)
    requires docs != []
    ensures var n := |docs| - 1;
            var names := Admitted(Entries(docs[..n], check, memory));
            Admitted(Entries(docs, check, memory)) ==
            if IsAccepted(docs, check, n) && docs[n].delegate.value !in names && |names| < 55
            then names + [docs[n].delegate.value] else names
  {
    var n := |docs| - 1;
    var es := Entries(docs[..n], check, memory);
    EntryIsOwed(docs, check, memory, "");
    if Valid(docs[n], check) {
      AdmittedStep(es, EntryOf(docs[n], memory(n)));
    } else {
      assert Entries(docs, check, memory) == es;
    }
    hide Admitted;
  }

  lemma NobodyListed(check: Checker)
    ensures ListsDelegates([], check, [], [])
  {
  }

  /** The delegates in the tables are the first 55 to appear among the accepted documents. */
  lemma {:induction false} AdmittedList(docs: seq<Doc>, check: Checker, memory: Memory) returns (f: seq<nat>)
    ensures ListsDelegates(docs, check, Admitted(Entries(docs, check, memory)), f)
  {
    if docs == [] {
      f := [];
      NobodyListed(check);
    } else {
      var n := |docs| - 1;
      f := AdmittedList(docs[..n], check, memory);
      var names := Admitted(Entries(docs[..n], check, memory));
      AdmittedMore(docs, check, memory);
      hide ListsDelegates, Admitted, Entries;
      if IsAccepted(docs, check, n) && docs[n].delegate.value !in names && |names| < 55 {
        DelegateComes(docs, check, names, f, docs[n].delegate.value);
        f := f + [n];
      } else {
        DelegatesStay(docs, check, names, f);
      }
    }
  }

  // ---------- Outputs that find no room ----------

  /** The sizes at which a bucket has to grow: 0, 256, 512, 1024 and so on. */
  ghost predicate IsFull(n: nat) {
    n == 0 || exists k: nat :: n == 256 * TwoTo(k)
  }

  lemma {:induction false} TwoToGrows(j: nat, k: nat)
    requires j < k
    ensures TwoTo(k) >= 2 * TwoTo(j)
  {
    if j < k - 1 {
      TwoToGrows(j, k - 1);
    }
  }

  lemma GrownIsFull(c: nat)
    requires IsFull(c)
    ensures IsFull(Grown(c)) && forall m :: c < m < Grown(c) ==> !IsFull(m)
  {
    if c == 0 {
      assert Grown(c) == 256 * TwoTo(0);
      forall m | 0 < m < 256 ensures !IsFull(m) {
      }
    } else {
      var k: nat :| c == 256 * TwoTo(k);
      assert Grown(c) == 256 * TwoTo(k + 1);
      forall m | c < m < Grown(c) ensures !IsFull(m) {
        if j: nat :| m == 256 * TwoTo(j) {
          if j > k {
            TwoToGrows(k, j);
          } else if j < k {
            TwoToGrows(j, k);
          }
        }
      }
    }
  }

  /** A bucket has the least of those sizes that holds its outputs. */
  lemma {:induction false} CapacityIs(n: nat)
    ensures IsFull(Capacity(n)) && Capacity(n) >= n && forall m :: n <= m < Capacity(n) ==> !IsFull(m)
    ensures Capacity(n) == n <==> IsFull(n)
  {
    hide TwoTo, IsFull;
    if n == 0 {
      assert IsFull(0) by { NothingIsFull(); }
    } else {
      CapacityIs(n - 1);
      GrownIsFull(Capacity(n - 1));
    }
  }

  lemma NothingIsFull()
    ensures IsFull(0)
  {
  }

  /** Document i was dropped with m outputs before it: the bucket was full and could not grow. */
  ghost predicate IsDropped(memory: Memory, e: seq<nat>, i: nat, m: nat) {
    && m <= |e| && IsFull(m) && !memory(i)
    && (forall j :: 0 <= j < m ==> e[j] < i) && (forall j :: m <= j < |e| ==> i < e[j])
  }

  /** e lists the documents of a whose output is kept, in order, and outs what is owed for each: those
      for which the bucket has room or can grow. */
  ghost predicate ListsKept(docs: seq<Doc>, check: Checker, memory: Memory, a: string, e: seq<nat>, outs: seq<Output>) {
    && |outs| == |e| && Ascending(e)
    && (forall j :: 0 <= j < |e| ==> Supports(docs, check, a, e[j]) && IsOwed(docs, e[j], outs[j]))
    && (forall j :: 0 <= j < |e| ==> memory(e[j]) || !IsFull(j))
    && (forall i: nat :: Supports(docs, check, a, i) && i !in e ==> exists m :: IsDropped(memory, e, i, m))
  }

  lemma DroppedStays(memory: Memory, e: seq<nat>, i: nat, n: nat)
    requires exists m :: IsDropped(memory, e, i, m)
    requires i < n
    ensures exists m :: IsDropped(memory, e + [n], i, m)
  {
    var m :| IsDropped(memory, e, i, m);
    hide IsFull;
    assert IsDropped(memory, e + [n], i, m);
  }

  lemma KeptOneMore(docs: seq<Doc>, check: Checker, memory: Memory, a: string, e: seq<nat>, outs: seq<Output>, o: Output)
    requires docs != [] && ListsKept(docs[..|docs| - 1], check, memory, a, e, outs)
    requires Supports(docs, check, a, |docs| - 1) && IsOwed(docs, |docs| - 1, o)
    ensures if memory(|docs| - 1) || !IsFull(|outs|) then ListsKept(docs, check, memory, a, e + [|docs| - 1], outs + [o])
            else ListsKept(docs, check, memory, a, e, outs)
  {
    var n := |docs| - 1;
    OfFront(docs, check, a, e, outs);
    hide Supports, IsOwed, IsFull;
    if memory(n) || !IsFull(|outs|) {
      forall i: nat | Supports(docs, check, a, i) && i !in e + [n] ensures exists m :: IsDropped(memory, e + [n], i, m) {
        assert i != n by { assert (e + [n])[|e|] == n; }
        assert i !in e by { assert forall j :: 0 <= j < |e| ==> (e + [n])[j] == e[j]; }
        DroppedStays(memory, e, i, n);
      }
    } else {
      assert IsDropped(memory, e, n, |e|);
    }
  }

  lemma OfFront(docs: seq<Doc>, check: Checker, a: string, e: seq<nat>, outs: seq<Output>)
    requires docs != [] && |outs| == |e|
    requires forall j :: 0 <= j < |e| ==>
               Supports(docs[..|docs| - 1], check, a, e[j]) && IsOwed(docs[..|docs| - 1], e[j], outs[j])
    ensures forall j :: 0 <= j < |e| ==> Supports(docs, check, a, e[j]) && IsOwed(docs, e[j], outs[j]) && e[j] < |docs| - 1
    ensures forall i: nat :: Supports(docs, check, a, i) && i < |docs| - 1 ==> Supports(docs[..|docs| - 1], check, a, i)
    ensures forall i: nat :: Supports(docs, check, a, i) ==> i < |docs|
  {
    assert forall i :: 0 <= i < |docs| - 1 ==> docs[..|docs| - 1][i] == docs[i];
  }

  lemma KeptStays(docs: seq<Doc>, check: Checker, memory: Memory, a: string, e: seq<nat>, outs: seq<Output>)
    requires docs != [] && ListsKept(docs[..|docs| - 1], check, memory, a, e, outs)
    requires !Supports(docs, check, a, |docs| - 1)
    ensures ListsKept(docs, check, memory, a, e, outs)
  {
    OfFront(docs, check, a, e, outs);
    hide Supports, IsOwed, IsFull, IsDropped;
  }

  lemma PushIs(outs: seq<Output>, o: Output, memory: bool)
    ensures Push(outs, o, memory) == if memory || !IsFull(|outs|) then outs + [o] else outs
  {
    CapacityIs(|outs|);
    hide IsFull;
  }

  lemma OutputsMore(docs: seq<Doc>, check: Checker, memory: Memory, a: string) returns (o: Output)
    requires docs != []
    ensures var n := |docs| - 1;
            var outs := OutputsFor(Entries(docs[..n], check, memory), a);
            && (Supports(docs, check, a, n) ==> IsOwed(docs, n, o))
            && OutputsFor(Entries(docs, check, memory), a) ==
               if Supports(docs, check, a, n) && (memory(n) || !IsFull(|outs|)) then outs + [o] else outs
  {
    var n := |docs| - 1;
    var es := Entries(docs[..n], check, memory);
    EntryIsOwed(docs, check, memory, a);
    o := Output("", 0);
    hide Supports, IsFull, Push;
    if Valid(docs[n], check) {
      var e := EntryOf(docs[n], memory(n));
      o := e.output;
      OneMoreEntry(es, e, a);
      PushIs(OutputsFor(es, a), o, memory(n));
    } else {
      assert Entries(docs, check, memory) == es;
      assert !Supports(docs, check, a, n) by { NotAccepted(docs, check, a, n); }
    }
  }

  lemma NotAccepted(docs: seq<Doc>, check: Checker, a: string, i: nat)
    requires !IsAccepted(docs, check, i)
    ensures !Supports(docs, check, a, i)
  {
  }

  /** The bucket of a delegate, from the documents. */
  lemma {:induction false} KeptList(docs: seq<Doc>, check: Checker, memory: Memory, a: string) returns (e: seq<nat>)
    ensures ListsKept(docs, check, memory, a, e, OutputsFor(Entries(docs, check, memory), a))
  {
    e := [];
    if docs != [] {
      var n := |docs| - 1;
      e := KeptList(docs[..n], check, memory, a);
      var outs := OutputsFor(Entries(docs[..n], check, memory), a);
      var o := OutputsMore(docs, check, memory, a);
      hide Supports, IsFull, ListsKept, Entries, OutputsFor, IsOwed;
      if Supports(docs, check, a, n) {
        KeptOneMore(docs, check, memory, a, e, outs, o);
        if memory(n) || !IsFull(|outs|) {
          e := e + [n];
        }
      } else {
        KeptStays(docs, check, memory, a, e, outs);
      }
    }
  }

  /** With memory throughout, everything owed is kept. */
  lemma AllKept(docs: seq<Doc>, check: Checker, memory: Memory, a: string, e: seq<nat>, outs: seq<Output>)
    requires ListsKept(docs, check, memory, a, e, outs) && forall i: nat :: Supports(docs, check, a, i) ==> memory(i)
    ensures ListsProofs(docs, check, a, e, outs)
  {
    hide Supports, IsOwed, IsFull;
  }

  // ---------- From the documents to the messages ----------

  /** A slot is online under address a and reached at ip: both are set, a is no seed, and the status is
      "true". */
  ghost predicate IsReached(all: seq<Delegate>, seeds: seq<string>, a: string, ip: string) {
    exists k :: 0 <= k < |all| && all[k].address == a && all[k].ip == ip && all[k].status == "true" &&
                |a| > 0 && |ip| > 0 && a !in seeds
  }

  lemma ReachedIs(all: seq<Delegate>, seeds: seq<string>, a: string, ip: string)
    ensures OnlineAt(all, seeds, a, ip) <==> IsReached(all, seeds, a, ip)
  {
  }

  /** Message j is the only one to a. */
  ghost predicate IsOnlyFor(sent: seq<Instruction>, a: string, j: nat) {
    j < |sent| && forall k :: 0 <= k < |sent| ==> (sent[k].delegate == a <==> k == j)
  }

  ghost predicate IsSentOnce(sent: seq<Instruction>, a: string) {
    exists j :: IsOnlyFor(sent, a, j)
  }

  ghost predicate IsSentAny(sent: seq<Instruction>, a: string) {
    exists k :: 0 <= k < |sent| && sent[k].delegate == a
  }

  lemma {:induction false} CountIs(sent: seq<Instruction>, a: string)
    ensures CountFor(sent, a) == 0 <==> !IsSentAny(sent, a)
    ensures CountFor(sent, a) == 1 ==> IsSentOnce(sent, a)
  {
    if sent != [] {
      var n := |sent| - 1;
      var front := sent[..n];
      CountIs(front, a);
      assert forall k :: 0 <= k < n ==> front[k] == sent[k];
      if CountFor(sent, a) == 1 {
        if sent[n].delegate == a {
          assert IsOnlyFor(sent, a, n);
        } else {
          var j :| IsOnlyFor(front, a, j);
          assert IsOnlyFor(sent, a, j);
        }
      }
    }
  }

  /** A message carries the outputs kept for its delegate, or none if the delegate is not among the first
      55, to where the delegate is reached. */
  ghost predicate PaysFor(docs: seq<Doc>, check: Checker, memory: Memory, all: seq<Delegate>, seeds: seq<string>,
                          m: Instruction) {
    && IsReached(all, seeds, m.delegate, m.ip)
    && exists names, f :: ListsDelegates(docs, check, names, f) && CarriesKept(docs, check, memory, names, m)
  }

  ghost predicate CarriesKept(docs: seq<Doc>, check: Checker, memory: Memory, names: seq<string>, m: Instruction) {
    if m.delegate in names then exists e :: ListsKept(docs, check, memory, m.delegate, e, m.outs) else m.outs == []
  }

  lemma MessagePays(docs: seq<Doc>, check: Checker, memory: Memory, all: seq<Delegate>, seeds: seq<string>, m: Instruction)
    requires PaysItsBucket(m, Entries(docs, check, memory), all, seeds)
    ensures PaysFor(docs, check, memory, all, seeds, m)
  {
    var names := Admitted(Entries(docs, check, memory));
    var f := AdmittedList(docs, check, memory);
    var e := KeptList(docs, check, memory, m.delegate);
    ReachedIs(all, seeds, m.delegate, m.ip);
    hide Entries, Admitted, OutputsFor, ListsKept, ListsDelegates, IsReached, OnlineAt;
    assert CarriesKept(docs, check, memory, names, m);
  }

  ghost predicate DelegatesFit(docs: seq<Doc>, check: Checker) {
    forall a, i :: Supports(docs, check, a, i) ==> 1 <= |a| <= 98
  }

  lemma EntriesMore(docs: seq<Doc>, check: Checker, memory: Memory)
    requires docs != []
    ensures var n := |docs| - 1;
            Entries(docs, check, memory) ==
            if IsAccepted(docs, check, n) then Entries(docs[..n], check, memory) + [EntryOf(docs[n], memory(n))]
            else Entries(docs[..n], check, memory)
  {
  }

  lemma {:induction false} EntriesFit(docs: seq<Doc>, check: Checker, memory: Memory)
    requires DelegatesFit(docs, check)
    ensures forall e :: e in Entries(docs, check, memory) ==> GoodAddress(e.delegate)
  {
    if docs != [] {
      var n := |docs| - 1;
      forall a, i ensures Supports(docs[..n], check, a, i) ==> Supports(docs, check, a, i) {
        SupportsMore(docs, check, a, i);
      }
      EntriesFit(docs[..n], check, memory);
      EntriesMore(docs, check, memory);
      if IsAccepted(docs, check, n) {
        assert Supports(docs, check, docs[n].delegate.value, n);
      }
    }
  }

  /** Once the scan is over, with addresses of 1 to 98 characters and no delegate in two slots: a delegate
      is sent exactly one message if it is reached and its message can be built, and none otherwise, and
      every message pays for the proofs of its delegate. */
  lemma PaidFromDocuments(docs: seq<Doc>, check: Checker, memory: Memory, all: seq<Delegate>, seeds: seq<string>,
                          works: Works, a: string)
    requires DelegatesFit(docs, check) && DistinctAddresses(all)
    ensures var sent := Sent(AddAll(Entries(docs, check, memory)).buckets, Online(all, seeds), works);
            && (if (exists ip :: IsReached(all, seeds, a, ip)) && works(a) then IsSentOnce(sent, a)
                else !IsSentAny(sent, a))
            && forall m :: m in sent ==> PaysFor(docs, check, memory, all, seeds, m)
  {
    var es := Entries(docs, check, memory);
    EntriesFit(docs, check, memory);
    hide Entries, AddAll, Sent, Online, IsReached, OnlineAt, PaysItsBucket, PaysFor, DistinctAddresses,
      IsSentOnce, IsSentAny, CountFor;
    EveryDelegateIsPaidOnce(es, all, seeds, works, a);
    var sent := Sent(AddAll(es).buckets, Online(all, seeds), works);
    CountIs(sent, a);
    forall b, ip ensures OnlineAt(all, seeds, b, ip) <==> IsReached(all, seeds, b, ip) {
      ReachedIs(all, seeds, b, ip);
    }
    forall m | m in sent ensures PaysFor(docs, check, memory, all, seeds, m) {
      MessagePays(docs, check, memory, all, seeds, m);
    }
  }

  /** The totals written for the delegates: each is the sum of what is owed for its proofs. */
  lemma TotalsFromDocuments(docs: seq<Doc>, check: Checker, memory: Memory)
    requires DelegatesFit(docs, check)
    ensures var t := AddAll(Entries(docs, check, memory));
            exists names, f ::
              ListsDelegates(docs, check, names, f) && |t.sums| == |t.buckets| == |names| &&
              forall i :: 0 <= i < |names| ==> IsTotalled(docs, check, memory, names[i], t.sums[i], t.buckets[i])
  {
    var es := Entries(docs, check, memory);
    EntriesFit(docs, check, memory);
    hide Entries;
    TablesAreRight(es);
    var names := Admitted(es);
    var f := AdmittedList(docs, check, memory);
    hide AddAll, ListsKept, ListsProofs, ListsDelegates, OutputsFor, Contributed, Admitted, SumOf;
    var t := AddAll(es);
    forall i | 0 <= i < |names| ensures IsTotalled(docs, check, memory, names[i], t.sums[i], t.buckets[i]) {
      var c := ContributionList(docs, check, memory, names[i]);
      var e := KeptList(docs, check, memory, names[i]);
    }
  }

  /** The total of a adds up the outputs owed for its proofs, and the bucket of a holds those kept. */
  ghost predicate IsTotalled(docs: seq<Doc>, check: Checker, memory: Memory, a: string, s: Sum, b: Bucket) {
    && s.address == a && b.delegate == a
    && (exists c, outs :: ListsProofs(docs, check, a, c, outs) && s.total == SumOf(outs))
    && (exists e :: ListsKept(docs, check, memory, a, e, b.outs))
  }
}
