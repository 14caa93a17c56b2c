/** The octets a committee vote signs: the canonical set of round keys and the vote preimage, as
    built on the signing side (block_verifiers_create_vote_majority_result) and on the verifying
    side (verify_vrf_vote_signature). */
module VotePreimage {
  import opened Wrappers
  import opened Bytes
  import opened Hex
  import opened Sorting
  import opened Sha256Spec
  import opened VerifierSlots
  import Sha256Code = Sha256

  const KEY_BYTES: nat := 32
  const BETA_BYTES: nat := 64
  const HASH_INPUT_SIZE: nat := 160
  const KEY_SET_BUFFER_SIZE: nat := 5 + 16 + 8 + BLOCK_VERIFIERS * KEY_BYTES

  /** "PKSET". */
  const TAG: seq<byte> := [0x50, 0x4b, 0x53, 0x45, 0x54]

  // ---------- The keys of the round ----------

  predicate ValidKey(hex: string) {
    |hex| == KEY_LENGTH && HexBytes(hex, KEY_BYTES).Some?
  }

  /** The decoded keys of the non-blank slots, in slot order; None at the first malformed one. */
  function KeysOf(slots: seq<Slot>): (r: Option<seq<seq<byte>>>)
    ensures r.Some? ==> |r.value| <= |slots| && forall k :: k in r.value ==> |k| == KEY_BYTES
  {
    if slots == [] then Some([]) else
      var front, last := slots[..|slots| - 1], slots[|slots| - 1];
      match KeysOf(front)
      case None => None
      case Some(keys) =>
        if last.key == "" then Some(keys)
        else if ValidKey(last.key) then Some(keys + [HexBytes(last.key, KEY_BYTES).value])
        else None
  }

  /** The sorted keys, or None where either side gives up: a malformed key, or no key at all. */
  function KeySet(slots: seq<Slot>): (r: Option<seq<seq<byte>>>) {
    match KeysOf(slots)
    case None => None
    case Some(keys) => if keys == [] then None else Some(Sort(keys, MemLe))
  }

  function Concat(keys: seq<seq<byte>>): seq<byte> {
    if keys == [] then [] else keys[0] + Concat(keys[1..])
  }

  /** The length and the count are cut to one octet, as the casts do. */
  function KeySetBuffer(height: seq<byte>, keys: seq<seq<byte>>): seq<byte> {
    TAG + [|height| % 256] + height + [|keys| % 256] + Concat(keys)
  }

  function Preimage(height: seq<byte>, beta: seq<byte>, key: seq<byte>, setHash: seq<byte>): seq<byte> {
    height + beta + key + setHash
  }

  // ---------- Both sides see the same keys ----------

  ghost predicate WellFormed(slots: seq<Slot>) {
    forall s :: s in slots ==> s.key == "" || ValidKey(s.key)
  }

  function KeyOf(s: Slot): seq<byte> {
    var r := HexBytes(s.key, KEY_BYTES);
    if r.Some? then r.value else []
  }

  lemma {:induction false} KeysOfWellFormed(slots: seq<Slot>)
    ensures KeysOf(slots).Some? <==> WellFormed(slots)
  {
    hide ValidKey;
    if slots != [] {
      var front, last := slots[..|slots| - 1], slots[|slots| - 1];
      KeysOfWellFormed(front);
      assert slots == front + [last];
    }
  }

  function KeysIn(slots: seq<Slot>): seq<seq<byte>> {
    if slots == [] then [] else
      KeysIn(slots[..|slots| - 1]) + (if slots[|slots| - 1].key == "" then [] else [KeyOf(slots[|slots| - 1])])
  }

  lemma {:induction false} KeysOfIs(slots: seq<Slot>)
    requires KeysOf(slots).Some?
    ensures KeysOf(slots).value == KeysIn(slots)
  {
    if slots != [] {
      KeysOfIs(slots[..|slots| - 1]);
    }
  }

  lemma {:induction false} KeysInConcat(a: seq<Slot>, b: seq<Slot>)
    ensures KeysIn(a + b) == KeysIn(a) + KeysIn(b)
  {
    if b == [] {
      assert a + b == a;
    } else {
      KeysInConcat(a, b[..|b| - 1]);
      assert (a + b)[..|a + b| - 1] == a + b[..|b| - 1];
    }
  }

  lemma WithoutOne<T>(b: seq<T>, i: nat)
    requires i < |b|
    ensures multiset(b) == multiset(b[..i] + b[i + 1..]) + multiset{b[i]}
  {
    assert b == b[..i] + ([b[i]] + b[i + 1..]);
  }

  lemma MiddleOut<T>(x: seq<T>, y: seq<T>, z: seq<T>)
    ensures multiset(x + (y + z)) == multiset(x + z) + multiset(y)
  {
  }

  lemma KeysWithoutOne(b: seq<Slot>, i: nat)
    requires i < |b|
    ensures multiset(KeysIn(b)) == multiset(KeysIn(b[..i] + b[i + 1..])) + multiset(KeysIn([b[i]]))
  {
    hide KeysIn;
    var before, x, after := b[..i], [b[i]], b[i + 1..];
    assert b == before + (x + after);
    KeysInConcat(before, x + after);
    KeysInConcat(x, after);
    KeysInConcat(before, after);
    MiddleOut(KeysIn(before), KeysIn(x), KeysIn(after));
  }

  lemma CancelOne<T>(a: multiset<T>, b: multiset<T>, x: T)
    requires a + multiset{x} == b + multiset{x}
    ensures a == b
  {
    assert a == (a + multiset{x}) - multiset{x} && b == (b + multiset{x}) - multiset{x};
  }

  /** Slot order does not change which keys there are. */
  lemma {:induction false} KeysInPermutes(a: seq<Slot>, b: seq<Slot>)
    requires multiset(a) == multiset(b)
    ensures multiset(KeysIn(a)) == multiset(KeysIn(b))
    decreases |a|
  {
    hide KeysIn;
    if a == [] {
      assert |multiset(b)| == 0;
    } else {
      assert a[0] in multiset(b);
      var i :| 0 <= i < |b| && b[i] == a[0];
      var u, v := a[..0] + a[1..], b[..i] + b[i + 1..];
      WithoutOne(a, 0);
      WithoutOne(b, i);
      CancelOne(multiset(u), multiset(v), a[0]);
      KeysWithoutOne(a, 0);
      KeysWithoutOne(b, i);
      KeysInPermutes(u, v);
    }
  }

  /** Any two orderings of the same slots give the same key set, and fail together. */
  lemma KeySetIgnoresOrder(a: seq<Slot>, b: seq<Slot>)
    requires multiset(a) == multiset(b)
    ensures KeySet(a) == KeySet(b)
  {
    KeysOfWellFormed(a);
    KeysOfWellFormed(b);
    forall s ensures s in a <==> s in b {
      assert s in multiset(a) <==> s in multiset(b);
    }
    if WellFormed(a) {
      KeysOfIs(a);
      KeysOfIs(b);
      KeysInPermutes(a, b);
      MemOrder();
      SortOfPermutation(KeysIn(a), KeysIn(b), MemLe);
      assert |multiset(KeysIn(a))| == |multiset(KeysIn(b))|;
    }
  }

  // ---------- The octets say what was signed ----------

  /** The two parts of a concatenation with a known last length are determined. */
  lemma SplitLast(a: seq<byte>, b: seq<byte>, x: seq<byte>, y: seq<byte>)
    requires a + x == b + y && |x| == |y|
    ensures a == b && x == y
  {
    assert |a| == |b|;
    assert a == (a + x)[..|a|] && b == (b + y)[..|b|];
    assert x == (a + x)[|a|..] && y == (b + y)[|b|..];
  }

  lemma SplitFirst(a: seq<byte>, b: seq<byte>, x: seq<byte>, y: seq<byte>)
    requires a + x == b + y && |a| == |b|
    ensures a == b && x == y
  {
    assert a == (a + x)[..|a|] && b == (b + y)[..|b|];
    assert x == (a + x)[|a|..] && y == (b + y)[|b|..];
  }

  /** The outer preimage is injective, for heights of every length. */
  lemma PreimageInjective(h: seq<byte>, beta: seq<byte>, key: seq<byte>, s: seq<byte>,
                          h': seq<byte>, beta': seq<byte>, key': seq<byte>, s': seq<byte>)
    requires |beta| == |beta'| == BETA_BYTES && |key| == |key'| == KEY_BYTES && |s| == |s'| == KEY_BYTES
    requires Preimage(h, beta, key, s) == Preimage(h', beta', key', s')
    ensures h == h' && beta == beta' && key == key' && s == s'
  {
    SplitLast(h + beta + key, h' + beta' + key', s, s');
    SplitLast(h + beta, h' + beta', key, key');
    SplitLast(h, h', beta, beta');
  }

  lemma {:induction false} ConcatInjective(a: seq<seq<byte>>, b: seq<seq<byte>>)
    requires |a| == |b|
    requires forall k :: 0 <= k < |a| ==> |a[k]| == KEY_BYTES
    requires forall k :: 0 <= k < |b| ==> |b[k]| == KEY_BYTES
    requires Concat(a) == Concat(b)
    ensures a == b
  {
    if a != [] {
      SplitFirst(a[0], b[0], Concat(a[1..]), Concat(b[1..]));
      ConcatInjective(a[1..], b[1..]);
      assert a == [a[0]] + a[1..] && b == [b[0]] + b[1..];
    }
  }

  lemma {:induction false} ConcatLength(a: seq<seq<byte>>)
    requires forall k :: 0 <= k < |a| ==> |a[k]| == KEY_BYTES
    ensures |Concat(a)| == KEY_BYTES * |a|
  {
    if a != [] {
      ConcatLength(a[1..]);
    }
  }

  /** The key set buffer is injective as long as the height fits its length octet and the keys
      their count, which heights of at most 20 digits and 50 slots do. */
  lemma KeySetBufferInjective(h: seq<byte>, a: seq<seq<byte>>, h': seq<byte>, b: seq<seq<byte>>)
    requires |h| < 256 && |h'| < 256 && |a| < 256 && |b| < 256
    requires forall k :: 0 <= k < |a| ==> |a[k]| == KEY_BYTES
    requires forall k :: 0 <= k < |b| ==> |b[k]| == KEY_BYTES
    requires KeySetBuffer(h, a) == KeySetBuffer(h', b)
    ensures h == h' && a == b
  {
    var x, y := KeySetBuffer(h, a), KeySetBuffer(h', b);
    assert x == TAG + ([|h| % 256] + (h + ([|a| % 256] + Concat(a))));
    assert y == TAG + ([|h'| % 256] + (h' + ([|b| % 256] + Concat(b))));
    SplitFirst(TAG, TAG, [|h| % 256] + (h + ([|a| % 256] + Concat(a))), [|h'| % 256] + (h' + ([|b| % 256] + Concat(b))));
    SplitFirst([|h| % 256], [|h'| % 256], h + ([|a| % 256] + Concat(a)), h' + ([|b| % 256] + Concat(b)));
    SplitFirst(h, h', [|a| % 256] + Concat(a), [|b| % 256] + Concat(b));
    SplitFirst([|a| % 256], [|b| % 256], Concat(a), Concat(b));
    ConcatInjective(a, b);
  }

  /** Both buffers hold their contents exactly when the height is short enough: 22 characters for
      the key set with every slot filled, 32 for the vote preimage. */
  lemma BuffersSuffice(height: seq<byte>, keys: seq<seq<byte>>, beta: seq<byte>, key: seq<byte>, setHash: seq<byte>)
    requires |keys| <= BLOCK_VERIFIERS && forall k :: 0 <= k < |keys| ==> |keys[k]| == KEY_BYTES
    requires |beta| == BETA_BYTES && |key| == KEY_BYTES && |setHash| == KEY_BYTES
    ensures |height| <= 22 ==> |KeySetBuffer(height, keys)| <= KEY_SET_BUFFER_SIZE
    ensures |keys| == BLOCK_VERIFIERS ==> (|KeySetBuffer(height, keys)| <= KEY_SET_BUFFER_SIZE <==> |height| <= 22)
    ensures |Preimage(height, beta, key, setHash)| <= HASH_INPUT_SIZE <==> |height| <= 32
  {
    ConcatLength(keys);
  }

  // ---------- The code of the two sides ----------

  /** memcpy into a buffer at an offset. */
  method Write(buf: array<byte>, off: nat, data: seq<byte>) returns (end: nat)
    requires off + |data| <= buf.Length
    modifies buf
    ensures end == off + |data| && buf[..end] == old(buf[..off]) + data
  {
    forall i | 0 <= i < |data| {
      buf[off + i] := data[i];
    }
    end := off + |data|;
  }

  lemma NoKeys(list: seq<Slot>)
    ensures KeysOf(list[..0]) == Some([])
  {
  }

  lemma KeysOfStep(list: seq<Slot>, i: nat)
    requires i < |list| && KeysOf(list[..i]).Some?
    ensures var keys := KeysOf(list[..i]).value;
            KeysOf(list[..i + 1]) == if list[i].key == "" then Some(keys)
                                     else if ValidKey(list[i].key) then Some(keys + [KeyOf(list[i])]) else None
  {
    assert list[..i + 1][..i] == list[..i];
  }

  /** A malformed key anywhere stops the collection. */
  lemma StaysBad(list: seq<Slot>, i: nat)
    requires i <= |list| && KeysOf(list[..i]).None?
    ensures KeysOf(list).None?
  {
    KeysOfWellFormed(list[..i]);
    KeysOfWellFormed(list);
  }

  /** Collecting the keys of the non-blank slots; n counts the keys decoded so far. */
  method CollectKeys(slots: array<Slot>) returns (ok: bool, pks: array<seq<byte>>, n: nat)
    requires slots.Length == BLOCK_VERIFIERS
    ensures ok <==> KeysOf(slots[..]).Some?
    ensures fresh(pks) && n <= pks.Length && (ok ==> pks[..n] == KeysOf(slots[..]).value)
  {
    hide ValidKey, KeysOf, KeyOf;
    pks, n, ok := new seq<byte>[BLOCK_VERIFIERS](_ => []), 0, true;
    ghost var list := slots[..];
    NoKeys(list);
    for i := 0 to slots.Length
      invariant n <= i && slots[..] == list
      invariant KeysOf(list[..i]) == Some(pks[..n])
    {
      KeysOfStep(list, i);
      var hex := slots[i].key;
      if hex == "" {
        continue;
      }
      if !ValidKey(hex) {
        StaysBad(list, i + 1);
        return false, pks, n;
      }
      ghost var before := pks[..n];
      pks[n] := KeyOf(slots[i]);
      n := n + 1;
      assert pks[..n] == before + [KeyOf(list[i])];
    }
    assert list[..slots.Length] == list;
  }

  /** Domain tag, height with its length, and the number of keys. */
  method FillHeader(buf: array<byte>, height: seq<byte>, n: nat) returns (off: nat)
    requires |height| <= 22 && buf.Length == KEY_SET_BUFFER_SIZE
    modifies buf
    ensures off == 7 + |height| && buf[..off] == TAG + [|height| % 256] + height + [n % 256]
  {
    off := Write(buf, 0, TAG);
    assert buf[..off] == TAG;
    off := Write(buf, off, [|height| % 256]);
    off := Write(buf, off, height);
    off := Write(buf, off, [n % 256]);
  }

  /** The buffer under the key set hash, filled piece by piece. */
  method FillKeySet(height: seq<byte>, keys: seq<seq<byte>>) returns (buf: array<byte>, off: nat)
    requires |height| <= 22 && |keys| <= BLOCK_VERIFIERS
    requires forall k :: 0 <= k < |keys| ==> |keys[k]| == KEY_BYTES
    ensures fresh(buf) && off <= buf.Length && buf[..off] == KeySetBuffer(height, keys)
  {
    buf := new byte[KEY_SET_BUFFER_SIZE](_ => 0);
    off := FillHeader(buf, height, |keys|);
    ghost var head := buf[..off];
    for i := 0 to |keys|
      invariant off == 7 + |height| + KEY_BYTES * i <= buf.Length
      invariant buf[..off] == head + Concat(keys[..i])
    {
      ConcatSnoc(keys, i);
      off := Write(buf, off, keys[i]);
    }
    assert keys[..|keys|] == keys;
  }

  lemma {:induction false} ConcatSnoc(keys: seq<seq<byte>>, i: nat)
    requires i < |keys|
    ensures Concat(keys[..i + 1]) == Concat(keys[..i]) + keys[i]
  {
    if i > 0 {
      ConcatSnoc(keys[1..], i - 1);
      assert keys[..i + 1][1..] == keys[1..][..i] && keys[..i][1..] == keys[1..][..i - 1];
    } else {
      assert keys[..1][1..] == [];
    }
  }

  lemma {:induction false} SortedKeysFit(keys: seq<seq<byte>>)
    requires forall k :: k in keys ==> |k| == KEY_BYTES
    ensures |Sort(keys, MemLe)| == |keys|
    ensures forall k :: 0 <= k < |keys| ==> |Sort(keys, MemLe)[k]| == KEY_BYTES
  {
    var sorted := Sort(keys, MemLe);
    SortKeeps(keys, MemLe);
    hide Sort, MemLe;
    forall k | 0 <= k < |sorted| ensures sorted[k] in keys {
      assert sorted[k] in multiset(sorted);
    }
  }

  /** The digest of the sorted key set, computed by either side from its own list. */
  method HashKeySet(height: seq<byte>, slots: array<Slot>) returns (r: Option<seq<byte>>)
    requires |height| <= 22 && slots.Length == BLOCK_VERIFIERS
    ensures r == KeySetHash(height, slots[..])
  {
    hide Sha256, Sort, KeysOf, KeySetBuffer;
    var ok, pks, n := CollectKeys(slots);
    if !ok || n == 0 {
      return None;
    }
    var sorted := Sort(pks[..n], MemLe);
    SortedKeysFit(pks[..n]);
    var buf, off := FillKeySet(height, sorted);
    var digest := Sha256Code.HashAll(buf[..off]);
    r := Some(digest);
  }

  function KeySetHash(height: seq<byte>, slots: seq<Slot>): (r: Option<seq<byte>>)
    ensures r.Some? ==> |r.value| == KEY_BYTES
  {
    match KeySet(slots)
    case None => None
    case Some(keys) => Some(Sha256(KeySetBuffer(height, keys)))
  }

  method HashVote(height: seq<byte>, beta: seq<byte>, key: seq<byte>, setHash: seq<byte>) returns (hash: seq<byte>)
    requires |height| <= 32 && |beta| == BETA_BYTES && |key| == KEY_BYTES && |setHash| == KEY_BYTES
    ensures hash == Sha256(Preimage(height, beta, key, setHash))
  {
    hide Sha256;
    var input := new byte[HASH_INPUT_SIZE](_ => 0);
    var offset := Write(input, 0, height);
    assert input[..offset] == height;
    offset := Write(input, offset, beta);
    offset := Write(input, offset, key);
    offset := Write(input, offset, setHash);
    assert input[..offset] == Preimage(height, beta, key, setHash);
    hash := Sha256Code.HashAll(input[..offset]);
  }

  /** What block_verifiers_create_vote_majority_result has the wallet sign for slot p. */
  function SignedHash(height: seq<byte>, slots: seq<Slot>, p: nat): Option<seq<byte>>
    requires p < |slots|
  {
    var s := slots[p];
    if s.key == "" || s.proof == "" || s.beta == "" then None else
      match (HexBytes(s.key, KEY_BYTES), HexBytes(s.beta, BETA_BYTES), KeySetHash(height, slots))
      case (Some(key), Some(beta), Some(setHash)) => Some(Sha256(Preimage(height, beta, key, setHash)))
      case _ => None
  }

  method SigningHash(height: seq<byte>, slots: array<Slot>, p: nat) returns (r: Option<seq<byte>>)
    requires |height| <= 22 && slots.Length == BLOCK_VERIFIERS && p < slots.Length
    ensures r == SignedHash(height, slots[..], p)
  {
    var s := slots[p];
    if s.key == "" || s.proof == "" || s.beta == "" {
      return None;
    }
    var key := HexBytes(s.key, KEY_BYTES);
    if key.None? {
      return None;
    }
    var beta := HexBytes(s.beta, BETA_BYTES);
    if beta.None? {
      return None;
    }
    var setHash := HashKeySet(height, slots);
    if setHash.None? {
      return None;
    }
    var hash := HashVote(height, beta.value, key.value, setHash.value);
    r := Some(hash);
  }

  /** What verify_vrf_vote_signature checks the signature of a vote message against: the round's own
      height goes into the key set, the message's into the preimage. */
  function CheckedHash(current: seq<byte>, slots: seq<Slot>, height: seq<byte>, beta: string, key: string):
    Option<seq<byte>>
  {
    if |beta| != BETA_LENGTH || |key| != KEY_LENGTH then None else
      match (HexBytes(beta, BETA_BYTES), HexBytes(key, KEY_BYTES), KeySetHash(current, slots))
      case (Some(b), Some(k), Some(setHash)) => Some(Sha256(Preimage(height, b, k, setHash)))
      case _ => None
  }

  method CheckingHash(current: seq<byte>, slots: array<Slot>, height: seq<byte>, beta: string, key: string)
    returns (r: Option<seq<byte>>)
    requires |current| <= 22 && |height| <= 32 && slots.Length == BLOCK_VERIFIERS
    ensures r == CheckedHash(current, slots[..], height, beta, key)
  {
    if |beta| != BETA_LENGTH || |key| != KEY_LENGTH {
      return None;
    }
    var b := HexBytes(beta, BETA_BYTES);
    if b.None? {
      return None;
    }
    var k := HexBytes(key, KEY_BYTES);
    if k.None? {
      return None;
    }
    var setHash := HashKeySet(current, slots);
    if setHash.None? {
      return None;
    }
    var hash := HashVote(height, b.value, k.value, setHash.value);
    r := Some(hash);
  }

  /** Signer and verifier hash the same octets, whatever order each of them has its slots in. */
  lemma SignerAndVerifierAgree(height: seq<byte>, mine: seq<Slot>, theirs: seq<Slot>, p: nat)
    requires p < |mine| && multiset(mine) == multiset(theirs)
    requires mine[p].proof != "" && |mine[p].beta| == BETA_LENGTH && |mine[p].key| == KEY_LENGTH
    ensures SignedHash(height, mine, p) == CheckedHash(height, theirs, height, mine[p].beta, mine[p].key)
  {
    KeySetIgnoresOrder(mine, theirs);
  }
}
