/** The last two passes of run_proof_check: a payout instruction for every bucket whose delegate is
    online, and a zero-entry one for every other online delegate. */
module PayoutDispatch {
  import opened Payout

  datatype Delegate = Delegate(address: string, ip: string, status: string)

  /** An entry of the online snapshot. */
  datatype Contact = Contact(address: string, ip: string)

  datatype Instruction = Instruction(ip: string, delegate: string, outs: seq<Output>)

  /** Whether allocating, signing and building the message succeeds for a delegate. */
  type Works = string -> bool

  predicate IsOnline(d: Delegate, seeds: seq<string>) {
    d.address != "" && d.ip != "" && d.address !in seeds && d.status == "true"
  }

  /** The snapshot of delegates_all: the online non-seeds in slot order. */
  function Online(all: seq<Delegate>, seeds: seq<string>): seq<Contact> {
    if all == [] then [] else
      var d := all[|all| - 1];
      Online(all[..|all| - 1], seeds) + (if IsOnline(d, seeds) then [Contact(d.address, d.ip)] else [])
  }

  function FindContact(online: seq<Contact>, a: string): (k: nat)
    ensures k <= |online| && (k < |online| ==> online[k].address == a)
  {
    if online == [] || online[0].address == a then 0 else 1 + FindContact(online[1..], a)
  }

  /** Some bucket of this delegate has outputs. */
  predicate HasOutputs(buckets: seq<Bucket>, a: string) {
    exists i :: 0 <= i < |buckets| && buckets[i].delegate == a && buckets[i].outs != []
  }

  function ForBucket(b: Bucket, online: seq<Contact>, works: Works): seq<Instruction> {
    var k := FindContact(online, b.delegate);
    if k < |online| && b.outs != [] && works(b.delegate) then [Instruction(online[k].ip, b.delegate, b.outs)] else []
  }

  function BucketInstructions(buckets: seq<Bucket>, online: seq<Contact>, works: Works): seq<Instruction> {
    if buckets == [] then [] else
      BucketInstructions(buckets[..|buckets| - 1], online, works) + ForBucket(buckets[|buckets| - 1], online, works)
  }

  function ForContact(buckets: seq<Bucket>, c: Contact, works: Works): seq<Instruction> {
    if HasOutputs(buckets, c.address) || !works(c.address) then [] else [Instruction(c.ip, c.address, [])]
  }

  function ZeroInstructions(buckets: seq<Bucket>, online: seq<Contact>, works: Works): seq<Instruction> {
    if online == [] then [] else
      ZeroInstructions(buckets, online[..|online| - 1], works) + ForContact(buckets, online[|online| - 1], works)
  }

  /** Everything sent, in order. */
  function Sent(buckets: seq<Bucket>, online: seq<Contact>, works: Works): seq<Instruction> {
    BucketInstructions(buckets, online, works) + ZeroInstructions(buckets, online, works)
  }

  // ---------- Exactly one instruction each ----------

  function CountFor(sent: seq<Instruction>, a: string): nat {
    if sent == [] then 0 else CountFor(sent[..|sent| - 1], a) + (if sent[|sent| - 1].delegate == a then 1 else 0)
  }

  lemma {:induction false} CountForConcat(s: seq<Instruction>, t: seq<Instruction>, a: string)
    ensures CountFor(s + t, a) == CountFor(s, a) + CountFor(t, a)
  {
    if t == [] {
      assert s + t == s;
    } else {
      assert (s + t)[..|s + t| - 1] == s + t[..|t| - 1];
      CountForConcat(s, t[..|t| - 1], a);
    }
  }

  lemma CountForOne(m: Instruction, a: string)
    ensures CountFor([m], a) == if m.delegate == a then 1 else 0
  {
    assert [m][..0] == [];
  }

  predicate Listed(online: seq<Contact>, a: string) {
    exists k :: 0 <= k < |online| && online[k].address == a
  }

  lemma {:induction false} FindContactIs(online: seq<Contact>, a: string)
    ensures FindContact(online, a) < |online| <==> Listed(online, a)
  {
    if online != [] {
      FindContactIs(online[1..], a);
      if Listed(online, a) && online[0].address != a {
        var k :| 0 <= k < |online| && online[k].address == a;
        assert online[1..][k - 1].address == a;
      }
      if Listed(online[1..], a) {
        var k :| 0 <= k < |online[1..]| && online[1..][k].address == a;
        assert online[k + 1].address == a;
      }
    }
  }

  ghost predicate DistinctDelegates(buckets: seq<Bucket>) {
    forall i, j :: 0 <= i < j < |buckets| ==> buckets[i].delegate != buckets[j].delegate
  }

  ghost predicate DistinctContacts(online: seq<Contact>) {
    forall i, j :: 0 <= i < j < |online| ==> online[i].address != online[j].address
  }

  lemma HasOutputsStep(buckets: seq<Bucket>, a: string)
    requires buckets != []
    ensures var front, last := buckets[..|buckets| - 1], buckets[|buckets| - 1];
            HasOutputs(buckets, a) <==> HasOutputs(front, a) || (last.delegate == a && last.outs != [])
  {
    var front := buckets[..|buckets| - 1];
    if HasOutputs(front, a) {
      var i :| 0 <= i < |front| && front[i].delegate == a && front[i].outs != [];
      assert buckets[i] == front[i];
    }
    if HasOutputs(buckets, a) {
      var i :| 0 <= i < |buckets| && buckets[i].delegate == a && buckets[i].outs != [];
      assert i == |buckets| - 1 || front[i] == buckets[i];
    }
  }

  lemma {:induction false} BucketInstructionsCount(buckets: seq<Bucket>, online: seq<Contact>, works: Works, a: string)
    requires DistinctDelegates(buckets)
    ensures CountFor(BucketInstructions(buckets, online, works), a)
         == if Listed(online, a) && works(a) && HasOutputs(buckets, a) then 1 else 0
  {
    if buckets != [] {
      var front, last := buckets[..|buckets| - 1], buckets[|buckets| - 1];
      BucketInstructionsCount(front, online, works, a);
      HasOutputsStep(buckets, a);
      var one := ForBucket(last, online, works);
      CountForConcat(BucketInstructions(front, online, works), one, a);
      FindContactIs(online, last.delegate);
      if one != [] {
        CountForOne(one[0], a);
      }
      assert forall i :: 0 <= i < |front| ==> front[i] == buckets[i] && buckets[i].delegate != last.delegate;
    }
  }

  lemma ListedStep(online: seq<Contact>, a: string)
    requires online != []
    ensures Listed(online, a) <==> Listed(online[..|online| - 1], a) || online[|online| - 1].address == a
  {
    var front := online[..|online| - 1];
    if Listed(front, a) {
      var k :| 0 <= k < |front| && front[k].address == a;
      assert online[k] == front[k];
    }
    if Listed(online, a) {
      var k :| 0 <= k < |online| && online[k].address == a;
      assert k == |online| - 1 || front[k] == online[k];
    }
  }

  lemma {:induction false} ZeroInstructionsCount(buckets: seq<Bucket>, online: seq<Contact>, works: Works, a: string)
    requires DistinctContacts(online)
    ensures CountFor(ZeroInstructions(buckets, online, works), a)
         == if Listed(online, a) && works(a) && !HasOutputs(buckets, a) then 1 else 0
  {
    if online != [] {
      var front, last := online[..|online| - 1], online[|online| - 1];
      ListedOnce(online);
      ZeroInstructionsCount(buckets, front, works, a);
      ListedStep(online, a);
      hide Listed, HasOutputs, DistinctContacts;
      var one := ForContact(buckets, last, works);
      CountForConcat(ZeroInstructions(buckets, front, works), one, a);
      if one != [] {
        CountForOne(one[0], a);
      }
    }
  }

  lemma {:induction false} ListedOnce(online: seq<Contact>)
    requires DistinctContacts(online) && online != []
    ensures DistinctContacts(online[..|online| - 1])
    ensures !Listed(online[..|online| - 1], online[|online| - 1].address)
  {
    var front := online[..|online| - 1];
    assert forall k :: 0 <= k < |front| ==> front[k] == online[k];
  }

  /** Every online delegate is sent exactly one instruction unless its own message fails, and
      nobody else is sent any. */
  lemma OneInstructionEach(buckets: seq<Bucket>, online: seq<Contact>, works: Works, a: string)
    requires DistinctDelegates(buckets) && DistinctContacts(online)
    ensures CountFor(Sent(buckets, online, works), a) == if Listed(online, a) && works(a) then 1 else 0
  {
    BucketInstructionsCount(buckets, online, works, a);
    ZeroInstructionsCount(buckets, online, works, a);
    CountForConcat(BucketInstructions(buckets, online, works), ZeroInstructions(buckets, online, works), a);
  }

  // ---------- What the instructions say ----------

  /** An instruction is right: it goes to the delegate's own address and carries its bucket, or
      nothing if it has none. */
  ghost predicate IsRight(m: Instruction, buckets: seq<Bucket>, online: seq<Contact>) {
    && Contact(m.delegate, m.ip) in online
    && if m.outs == [] then !HasOutputs(buckets, m.delegate) else Bucket(m.delegate, m.outs) in buckets
  }

  lemma {:induction false} BucketInstructionsRight(buckets: seq<Bucket>, front: seq<Bucket>, online: seq<Contact>,
                                                   works: Works)
    requires forall b :: b in front ==> b in buckets
    ensures forall m :: m in BucketInstructions(front, online, works) ==> IsRight(m, buckets, online)
  {
    if front != [] {
      BucketInstructionsRight(buckets, front[..|front| - 1], online, works);
      var last := front[|front| - 1];
      assert last in buckets && Bucket(last.delegate, last.outs) == last;
      var k := FindContact(online, last.delegate);
      if k < |online| {
        assert online[k] == Contact(last.delegate, online[k].ip);
      }
    }
  }

  lemma {:induction false} ZeroInstructionsRight(buckets: seq<Bucket>, front: seq<Contact>, online: seq<Contact>,
                                                 works: Works)
    requires forall c :: c in front ==> c in online
    ensures forall m :: m in ZeroInstructions(buckets, front, works) ==> IsRight(m, buckets, online)
  {
    if front != [] {
      ZeroInstructionsRight(buckets, front[..|front| - 1], online, works);
      var last := front[|front| - 1];
      assert last in online && Contact(last.address, last.ip) == last;
    }
  }

  lemma InstructionsRight(buckets: seq<Bucket>, online: seq<Contact>, works: Works)
    ensures forall m :: m in Sent(buckets, online, works) ==> IsRight(m, buckets, online)
  {
    BucketInstructionsRight(buckets, buckets, online, works);
    ZeroInstructionsRight(buckets, online, online, works);
  }

  lemma BucketsDistinct(es: seq<Entry>)
    ensures DistinctDelegates(BucketsFor(es, Admitted(es)))
  {
    AdmittedDistinct(es);
  }

  // ---------- Who is online ----------

  /** Some delegate in the slots is online under this address, and reached at this one. */
  ghost predicate OnlineAt(all: seq<Delegate>, seeds: seq<string>, a: string, ip: string) {
    exists k :: 0 <= k < |all| && IsOnline(all[k], seeds) && all[k].address == a && all[k].ip == ip
  }

  ghost predicate DistinctAddresses(all: seq<Delegate>) {
    forall i, j :: 0 <= i < j < |all| && all[i].address != "" ==> all[i].address != all[j].address
  }

  lemma OnlineAtStep(all: seq<Delegate>, seeds: seq<string>, a: string, ip: string)
    requires all != []
    ensures var last := all[|all| - 1];
            OnlineAt(all, seeds, a, ip) <==>
              OnlineAt(all[..|all| - 1], seeds, a, ip) ||
              (IsOnline(last, seeds) && last.address == a && last.ip == ip)
  {
    hide IsOnline;
    var front := all[..|all| - 1];
    if OnlineAt(front, seeds, a, ip) {
      var k :| 0 <= k < |front| && IsOnline(front[k], seeds) && front[k].address == a && front[k].ip == ip;
      assert all[k] == front[k];
    }
    if OnlineAt(all, seeds, a, ip) {
      var k :| 0 <= k < |all| && IsOnline(all[k], seeds) && all[k].address == a && all[k].ip == ip;
      assert k == |all| - 1 || front[k] == all[k];
    }
  }

  /** The snapshot lists exactly the delegates online. */
  lemma {:induction false} SnapshotIs(all: seq<Delegate>, seeds: seq<string>, a: string, ip: string)
    ensures Contact(a, ip) in Online(all, seeds) <==> OnlineAt(all, seeds, a, ip)
  {
    hide IsOnline, OnlineAt;
    if all != [] {
      SnapshotIs(all[..|all| - 1], seeds, a, ip);
      OnlineAtStep(all, seeds, a, ip);
    } else {
      assert !OnlineAt(all, seeds, a, ip) by { NobodyOnline(seeds, a, ip); }
    }
  }

  lemma NobodyOnline(seeds: seq<string>, a: string, ip: string)
    ensures !OnlineAt([], seeds, a, ip)
  {
  }

  /** Nobody twice, unless a delegate has two slots. */
  lemma {:induction false} SnapshotDistinct(all: seq<Delegate>, seeds: seq<string>)
    requires DistinctAddresses(all)
    ensures DistinctContacts(Online(all, seeds))
  {
    if all != [] {
      var front, last := all[..|all| - 1], all[|all| - 1];
      assert forall k :: 0 <= k < |front| ==> front[k] == all[k];
      SnapshotDistinct(front, seeds);
      var online := Online(front, seeds);
      forall i | 0 <= i < |online| && IsOnline(last, seeds) ensures online[i].address != last.address {
        assert Contact(online[i].address, online[i].ip) == online[i];
        SnapshotIs(front, seeds, online[i].address, online[i].ip);
        var k :| 0 <= k < |front| && IsOnline(front[k], seeds) && front[k].address == online[i].address;
        assert all[k] == front[k];
      }
    }
  }

  lemma ListedIs(all: seq<Delegate>, seeds: seq<string>, a: string)
    ensures Listed(Online(all, seeds), a) <==> exists ip :: OnlineAt(all, seeds, a, ip)
  {
    var online := Online(all, seeds);
    if Listed(online, a) {
      var k :| 0 <= k < |online| && online[k].address == a;
      assert Contact(a, online[k].ip) == online[k];
      SnapshotIs(all, seeds, a, online[k].ip);
    }
    if ip :| OnlineAt(all, seeds, a, ip) {
      SnapshotIs(all, seeds, a, ip);
      var k :| 0 <= k < |online| && online[k] == Contact(a, ip);
    }
  }

  // ---------- From the proofs to the messages ----------

  /** An instruction says what it should: it goes to where its delegate is online, with all the
      outputs kept for the delegate, or none if the delegate is not among the first 55. */
  ghost predicate PaysItsBucket(m: Instruction, es: seq<Entry>, all: seq<Delegate>, seeds: seq<string>) {
    && OnlineAt(all, seeds, m.delegate, m.ip)
    && m.outs == if m.delegate in Admitted(es) then OutputsFor(es, m.delegate) else []
  }

  /** For valid proofs of delegates with addresses of 1 to 98 characters and no delegate in two
      slots, every online delegate whose message can be built gets exactly one instruction, nobody
      else gets any, and every instruction sent carries its delegate's bucket: all the outputs
      contributed, if the scan had the memory for them. */
  lemma {:induction false} EveryDelegateIsPaidOnce(es: seq<Entry>, all: seq<Delegate>, seeds: seq<string>, works: Works,
                                                   a: string)
    requires forall k :: 0 <= k < |es| ==> GoodAddress(es[k].delegate)
    requires DistinctAddresses(all)
    ensures CountFor(Sent(AddAll(es).buckets, Online(all, seeds), works), a)
         == if (exists ip :: OnlineAt(all, seeds, a, ip)) && works(a) then 1 else 0
    ensures forall m :: m in Sent(AddAll(es).buckets, Online(all, seeds), works) ==> PaysItsBucket(m, es, all, seeds)
    ensures (forall k :: 0 <= k < |es| ==> es[k].memory) ==> forall b :: OutputsFor(es, b) == Contributed(es, b)
  {
    var online := Online(all, seeds);
    TablesAreRight(es);
    BucketsDistinct(es);
    SnapshotDistinct(all, seeds);
    ListedIs(all, seeds, a);
    var buckets := BucketsFor(es, Admitted(es));
    OneInstructionEach(buckets, online, works, a);
    InstructionsRight(buckets, online, works);
    hide Sent, OutputsFor, Admitted, AddAll, OnlineAt, Online, DistinctAddresses, GoodAddress;
    forall m | m in Sent(buckets, online, works) ensures PaysItsBucket(m, es, all, seeds) {
      RightInstruction(es, m, online);
      SnapshotIs(all, seeds, m.delegate, m.ip);
    }
    if forall k :: 0 <= k < |es| ==> es[k].memory {
      forall b ensures OutputsFor(es, b) == Contributed(es, b) {
        NothingLost(es, b);
      }
    }
  }

  lemma RightInstruction(es: seq<Entry>, m: Instruction, online: seq<Contact>)
    requires IsRight(m, BucketsFor(es, Admitted(es)), online)
    ensures m.outs == if m.delegate in Admitted(es) then OutputsFor(es, m.delegate) else []
  {
    var names := Admitted(es);
    var buckets := BucketsFor(es, names);
    hide OutputsFor, Admitted;
    if m.delegate in names {
      var i :| 0 <= i < |names| && names[i] == m.delegate;
      assert buckets[i] == Bucket(m.delegate, OutputsFor(es, m.delegate));
    }
  }

  // ---------- The code ----------

  method TakeSnapshot(all: seq<Delegate>, seeds: seq<string>) returns (online: seq<Contact>)
    ensures online == Online(all, seeds)
  {
    online := [];
    for i := 0 to |all|
      invariant online == Online(all[..i], seeds)
    {
      assert all[..i + 1][..i] == all[..i];
      if all[i].address == "" || all[i].ip == "" {
        continue;
      }
      if all[i].address in seeds {
        continue;
      }
      if all[i].status == "true" {
        online := online + [Contact(all[i].address, all[i].ip)];
      }
    }
    assert all[..|all|] == all;
  }

  lemma {:induction false} FirstContact(online: seq<Contact>, a: string, k: nat)
    requires k <= |online| && (k < |online| ==> online[k].address == a)
    requires forall j :: 0 <= j < k ==> online[j].address != a
    ensures FindContact(online, a) == k
  {
    if k > 0 {
      FirstContact(online[1..], a, k - 1);
    }
  }

  /** The inner loop that looks up the address of a delegate. */
  method LookUp(online: seq<Contact>, a: string) returns (k: nat)
    ensures k == FindContact(online, a)
  {
    k := 0;
    while k < |online| && online[k].address != a
      invariant k <= |online| && forall j :: 0 <= j < k ==> online[j].address != a
    {
      k := k + 1;
    }
    FirstContact(online, a, k);
  }

  /** Both loops look at the shutdown flag before every turn, and it stays set: turns is how many
      turns they get. */
  method SendBuckets(buckets: seq<Bucket>, online: seq<Contact>, works: Works, turns: nat)
    returns (sent: seq<Instruction>)
    ensures sent == BucketInstructions(buckets[..Turns(turns, |buckets|)], online, works)
  {
    sent := [];
    for i := 0 to |buckets|
      invariant i <= turns && sent == BucketInstructions(buckets[..i], online, works)
    {
      if i >= turns {
        return;
      }
      assert buckets[..i + 1][..i] == buckets[..i];
      var b := buckets[i];
      var k := LookUp(online, b.delegate);
      if k == |online| {
        continue;
      }
      if |b.outs| == 0 {
        continue;
      }
      if !works(b.delegate) {
        continue;
      }
      sent := sent + [Instruction(online[k].ip, b.delegate, b.outs)];
    }
  }

  method SendZeros(buckets: seq<Bucket>, online: seq<Contact>, works: Works, turns: nat)
    returns (sent: seq<Instruction>)
    ensures sent == ZeroInstructions(buckets, online[..Turns(turns, |online|)], works)
  {
    sent := [];
    for i := 0 to |online|
      invariant i <= turns && sent == ZeroInstructions(buckets, online[..i], works)
    {
      if i >= turns {
        return;
      }
      assert online[..i + 1][..i] == online[..i];
      var c := online[i];
      var hasBucket := false;
      for j := 0 to |buckets|
        invariant hasBucket <==> exists k :: 0 <= k < j && buckets[k].delegate == c.address && buckets[k].outs != []
      {
        if |buckets[j].outs| == 0 {
          continue;
        }
        if buckets[j].delegate == c.address {
          hasBucket := true;
          break;
        }
      }
      if hasBucket {
        continue;
      }
      if !works(c.address) {
        continue;
      }
      sent := sent + [Instruction(c.ip, c.address, [])];
    }
  }

  // ---------- Shutdown in the middle ----------

  lemma {:induction false} BucketsPrefix(buckets: seq<Bucket>, online: seq<Contact>, works: Works, i: nat)
    requires i <= |buckets|
    ensures BucketInstructions(buckets[..i], online, works) <= BucketInstructions(buckets, online, works)
    decreases |buckets|
  {
    if i == |buckets| {
      assert buckets[..i] == buckets;
    } else {
      var front := buckets[..|buckets| - 1];
      BucketsPrefix(front, online, works, i);
      assert front[..i] == buckets[..i];
    }
  }

  lemma {:induction false} ZerosPrefix(buckets: seq<Bucket>, online: seq<Contact>, works: Works, i: nat)
    requires i <= |online|
    ensures ZeroInstructions(buckets, online[..i], works) <= ZeroInstructions(buckets, online, works)
    decreases |online|
  {
    if i == |online| {
      assert online[..i] == online;
    } else {
      var front := online[..|online| - 1];
      ZerosPrefix(buckets, front, works, i);
      assert front[..i] == online[..i];
    }
  }

  /** How many turns are left for the second loop. */
  function Left(turns: nat, n: nat): nat {
    if turns <= n then 0 else turns - n
  }

  lemma {:induction false} BucketsFirst(buckets: seq<Bucket>, online: seq<Contact>, works: Works, turns: nat)
    ensures var b := BucketInstructions(buckets[..Turns(turns, |buckets|)], online, works);
            && b <= BucketInstructions(buckets, online, works)
            && (turns >= |buckets| ==> b == BucketInstructions(buckets, online, works))
  {
    hide BucketInstructions;
    BucketsPrefix(buckets, online, works, Turns(turns, |buckets|));
    assert turns >= |buckets| ==> buckets[..Turns(turns, |buckets|)] == buckets;
  }

  lemma {:induction false} ZerosFirst(buckets: seq<Bucket>, online: seq<Contact>, works: Works, left: nat)
    ensures var z := ZeroInstructions(buckets, online[..Turns(left, |online|)], works);
            && z <= ZeroInstructions(buckets, online, works)
            && (left == 0 ==> z == [])
            && (left >= |online| ==> z == ZeroInstructions(buckets, online, works))
  {
    assert ZeroInstructions(buckets, [], works) == [];
    hide ZeroInstructions;
    ZerosPrefix(buckets, online, works, Turns(left, |online|));
    assert left >= |online| ==> online[..Turns(left, |online|)] == online;
    assert left == 0 ==> online[..Turns(left, |online|)] == [];
  }

  lemma {:induction false} PrefixJoin<T>(b: seq<T>, z: seq<T>, c: seq<T>, w: seq<T>)
    requires b <= c && z <= w && (b == c || z == [])
    ensures b + z <= c + w
  {
  }

  /** The first loop gets its turns before the second gets any, so that what is sent is a prefix of
      what would have been. */
  method Dispatch(buckets: seq<Bucket>, online: seq<Contact>, works: Works, turns: nat)
    returns (sent: seq<Instruction>)
    ensures sent <= Sent(buckets, online, works)
    ensures turns >= |buckets| + |online| ==> sent == Sent(buckets, online, works)
  {
    BucketsFirst(buckets, online, works, turns);
    ZerosFirst(buckets, online, works, Left(turns, |buckets|));
    hide BucketInstructions, ZeroInstructions;
    sent := SendBuckets(buckets, online, works, turns);
    var zeros := SendZeros(buckets, online, works, Left(turns, |buckets|));
    PrefixJoin(sent, zeros, BucketInstructions(buckets, online, works), ZeroInstructions(buckets, online, works));
    sent := sent + zeros;
  }

  lemma {:induction false} CountForPrefix(s: seq<Instruction>, t: seq<Instruction>, a: string)
    requires s <= t
    ensures CountFor(s, a) <= CountFor(t, a)
  {
    assert t == s + t[|s|..];
    CountForConcat(s, t[|s|..], a);
  }

  /** Whenever it shuts down, a seed has sent no delegate two instructions, and those it has sent
      carry their buckets. */
  lemma {:induction false} NobodyIsPaidTwice(es: seq<Entry>, all: seq<Delegate>, seeds: seq<string>, works: Works,
                                             sent: seq<Instruction>, a: string)
    requires forall k :: 0 <= k < |es| ==> GoodAddress(es[k].delegate)
    requires DistinctAddresses(all) && sent <= Sent(AddAll(es).buckets, Online(all, seeds), works)
    ensures CountFor(sent, a) <= 1
    ensures forall m :: m in sent ==> PaysItsBucket(m, es, all, seeds)
  {
    EveryDelegateIsPaidOnce(es, all, seeds, works, a);
    hide Sent, AddAll, Online, PaysItsBucket, OnlineAt, DistinctAddresses, GoodAddress;
    CountForPrefix(sent, Sent(AddAll(es).buckets, Online(all, seeds), works), a);
  }
}
