/** The octets of a vote, read off the slots and the message: what is signed, what is checked, and that a
    signature is good for one message and one set of keys only. */
module VoteBinding {
  import opened Wrappers
  import opened Bytes
  import opened Hex
  import opened HexOrder
  import opened Sorting
  import opened Indices
  import opened Sha256Spec
  import opened VerifierSlots
  import opened VotePreimage
  import opened OctetLayout

  // ---------- The keys ----------

  /** Slot i has a key of 64 digits, which the octets k spell. */
  ghost predicate HasKey(slots: seq<Slot>, i: nat, k: seq<byte>) {
    i < |slots| && |slots[i].key| == 64 && Spells(k, slots[i].key)
  }

  /** Every slot with a key has one of 64 digits; c lists those slots in order and rows their keys. */
  ghost predicate ListsKeys(slots: seq<Slot>, c: seq<nat>, rows: seq<seq<byte>>) {
    && |c| == |rows| && Ascending(c)
    && (forall j :: 0 <= j < |c| ==> HasKey(slots, c[j], rows[j]))
    && (forall i: nat :: i < |slots| && slots[i].key != "" ==> i in c)
  }

  lemma KeyIs(s: Slot, k: seq<byte>)
    ensures ValidKey(s.key) && KeyOf(s) == k <==> |s.key| == 64 && Spells(k, s.key)
  {
    DecodingIs(s.key, 32);
    hide HexBytes, Spells;
  }

  lemma KeyListed(slots: seq<Slot>, c: seq<nat>, rows: seq<seq<byte>>, k: seq<byte>)
    requires slots != [] && ListsKeys(slots[..|slots| - 1], c, rows)
    ensures slots[|slots| - 1].key == "" ==> ListsKeys(slots, c, rows)
    ensures HasKey(slots, |slots| - 1, k) ==> ListsKeys(slots, c + [|slots| - 1], rows + [k])
  {
    var n := |slots| - 1;
    forall j | 0 <= j < |c| ensures HasKey(slots, c[j], rows[j]) && c[j] < n {
      assert HasKey(slots[..n], c[j], rows[j]);
    }
    assert forall i :: 0 <= i < n ==> slots[..n][i] == slots[i];
    assert (c + [n])[|c|] == n;
    hide Spells;
  }

  lemma KeysMore(slots: seq<Slot>)
    requires slots != []
    ensures var front, last := slots[..|slots| - 1], slots[|slots| - 1];
            KeysOf(slots) ==
            if KeysOf(front).None? then None
            else if last.key == "" then KeysOf(front)
            else if ValidKey(last.key) then Some(KeysOf(front).value + [KeyOf(last)])
            else None
  {
    hide HexBytes;
  }

  lemma LastKey(slots: seq<Slot>)
    requires slots != [] && ValidKey(slots[|slots| - 1].key)
    ensures HasKey(slots, |slots| - 1, KeyOf(slots[|slots| - 1]))
  {
    KeyIs(slots[|slots| - 1], KeyOf(slots[|slots| - 1]));
    hide ValidKey, KeyOf, Spells;
  }

  lemma {:induction false} KeyList(slots: seq<Slot>) returns (c: seq<nat>)
    requires KeysOf(slots).Some?
    ensures ListsKeys(slots, c, KeysOf(slots).value)
  {
    if slots == [] {
      c := [];
    } else {
      var n := |slots| - 1;
      KeysMore(slots);
      hide ValidKey, KeyOf, ListsKeys, KeysOf, HasKey;
      c := KeyList(slots[..n]);
      KeyListed(slots, c, KeysOf(slots[..n]).value, KeyOf(slots[n]));
      if slots[n].key != "" {
        LastKey(slots);
        assert KeysOf(slots).value == KeysOf(slots[..n]).value + [KeyOf(slots[n])];
        c := c + [n];
      } else {
        assert KeysOf(slots).value == KeysOf(slots[..n]).value;
      }
    }
  }

  lemma ListedAreWellFormed(slots: seq<Slot>, c: seq<nat>, rows: seq<seq<byte>>)
    requires ListsKeys(slots, c, rows)
    ensures WellFormed(slots)
  {
    hide Spells, ValidKey;
    forall s | s in slots ensures s.key == "" || ValidKey(s.key) {
      var i :| 0 <= i < |slots| && slots[i] == s;
      if s.key != "" {
        var j :| 0 <= j < |c| && c[j] == i;
        KeyIs(s, rows[j]);
      }
    }
  }

  lemma SameSlots(slots: seq<Slot>, c: seq<nat>, rows: seq<seq<byte>>, e: seq<nat>, keys: seq<seq<byte>>)
    requires ListsKeys(slots, c, rows) && ListsKeys(slots, e, keys)
    ensures Elements(c) == Elements(e)
  {
    forall j | 0 <= j < |c| ensures slots[c[j]].key != "" {
      assert HasKey(slots, c[j], rows[j]);
    }
    forall j | 0 <= j < |e| ensures slots[e[j]].key != "" {
      assert HasKey(slots, e[j], keys[j]);
    }
    hide Spells;
  }

  /** The keys collected are those of the slots that have one, in order; none if one is malformed. */
  lemma KeysAre(slots: seq<Slot>, rows: seq<seq<byte>>)
    ensures KeysOf(slots) == Some(rows) <==> exists c :: ListsKeys(slots, c, rows)
  {
    KeysOfWellFormed(slots);
    hide KeysOf, WellFormed, HexBytes;
    if KeysOf(slots).Some? {
      var e := KeyList(slots);
    }
    if c :| ListsKeys(slots, c, rows) {
      ListedAreWellFormed(slots, c, rows);
      var keys := KeysOf(slots).value;
      var e := KeyList(slots);
      SameSlots(slots, c, rows, e, keys);
      AscendingUnique(c, e);
      forall j | 0 <= j < |rows| ensures rows[j] == keys[j] {
        assert HasKey(slots, c[j], rows[j]) && HasKey(slots, c[j], keys[j]);
        KeyIs(slots[c[j]], rows[j]);
        KeyIs(slots[c[j]], keys[j]);
      }
      assert rows == keys;
    }
  }

  // ---------- The digest of the key set ----------

  /** h is the hash of "PKSET", the height behind its length, the number of keys, and the keys in
      ascending order. */
  ghost predicate IsSetHash(height: seq<byte>, slots: seq<Slot>, h: seq<byte>) {
    exists c, rows, q, m ::
      ListsKeys(slots, c, rows) && rows != [] && Arranged(q, rows) && EndToEnd(q, m) &&
      h == Sha256([0x50, 0x4b, 0x53, 0x45, 0x54] + [|height| % 256] + height + [|rows| % 256] + m)
  }

  lemma KeysAreRows(slots: seq<Slot>, c: seq<nat>, rows: seq<seq<byte>>)
    requires ListsKeys(slots, c, rows)
    ensures AllRows(rows)
  {
    forall j | 0 <= j < |rows| ensures |rows[j]| == 32 {
      assert HasKey(slots, c[j], rows[j]);
    }
  }

  /** The buffer that is hashed, from the keys however they are listed. */
  lemma BufferIs(height: seq<byte>, rows: seq<seq<byte>>, q: seq<seq<byte>>, m: seq<byte>)
    requires AllRows(rows)
    ensures Arranged(q, rows) && EndToEnd(q, m) ==> q == Sort(rows, MemLe) && m == Concat(q)
    ensures Arranged(Sort(rows, MemLe), rows) && EndToEnd(Sort(rows, MemLe), Concat(Sort(rows, MemLe)))
    ensures KeySetBuffer(height, Sort(rows, MemLe)) ==
            [0x50, 0x4b, 0x53, 0x45, 0x54] + [|height| % 256] + height + [|rows| % 256] + Concat(Sort(rows, MemLe))
  {
    SortArranges(rows);
    SortKeeps(rows, MemLe);
    ConcatIs(Sort(rows, MemLe));
    hide Sort, Concat, MemLe, EndToEnd, Arranged;
    if Arranged(q, rows) && EndToEnd(q, m) {
      ArrangedIsSort(q, rows);
      EndToEndUnique(q, m, Concat(q));
    }
  }

  lemma SetHashFrom(height: seq<byte>, slots: seq<Slot>, c: seq<nat>, rows: seq<seq<byte>>, q: seq<seq<byte>>, m: seq<byte>)
    requires ListsKeys(slots, c, rows) && rows != [] && Arranged(q, rows) && EndToEnd(q, m)
    ensures KeySetHash(height, slots) ==
            Some(Sha256([0x50, 0x4b, 0x53, 0x45, 0x54] + [|height| % 256] + height + [|rows| % 256] + m))
  {
    KeysAre(slots, rows);
    KeysAreRows(slots, c, rows);
    BufferIs(height, rows, q, m);
    hide KeysOf, Sort, Concat, Sha256, EndToEnd, Arranged, ListsKeys, KeySetBuffer;
  }

  lemma SetHashParts(height: seq<byte>, slots: seq<Slot>)
    returns (c: seq<nat>, rows: seq<seq<byte>>, q: seq<seq<byte>>, m: seq<byte>)
    requires KeySetHash(height, slots).Some?
    ensures ListsKeys(slots, c, rows) && rows != [] && Arranged(q, rows) && EndToEnd(q, m)
  {
    rows := KeysOf(slots).value;
    q := Sort(rows, MemLe);
    m := Concat(q);
    KeysAre(slots, rows);
    hide KeysOf, Sort, Concat, Sha256, EndToEnd, Arranged, ListsKeys, KeySetBuffer;
    c :| ListsKeys(slots, c, rows);
    KeysAreRows(slots, c, rows);
    BufferIs(height, rows, q, m);
  }

  lemma SetHashIs(height: seq<byte>, slots: seq<Slot>, h: seq<byte>)
    ensures KeySetHash(height, slots) == Some(h) <==> IsSetHash(height, slots, h)
  {
    hide KeySetHash, Sha256, EndToEnd, Arranged, ListsKeys;
    if KeySetHash(height, slots) == Some(h) {
      var c, rows, q, m := SetHashParts(height, slots);
      SetHashFrom(height, slots, c, rows, q, m);
    }
    if IsSetHash(height, slots, h) {
      var c, rows, q, m :| ListsKeys(slots, c, rows) && rows != [] && Arranged(q, rows) && EndToEnd(q, m) &&
        h == Sha256([0x50, 0x4b, 0x53, 0x45, 0x54] + [|height| % 256] + height + [|rows| % 256] + m);
      SetHashFrom(height, slots, c, rows, q, m);
    }
  }

  // ---------- What is signed and what is checked ----------

  /** h is the hash a node has its wallet sign for slot p. */
  ghost predicate IsSigned(height: seq<byte>, slots: seq<Slot>, p: nat, h: seq<byte>)
    requires p < |slots|
  {
    && |slots[p].key| > 0 && |slots[p].proof| > 0 && |slots[p].beta| > 0
    && exists b, k, s :: Fills(b, slots[p].beta, 64) && Fills(k, slots[p].key, 32) && IsSetHash(height, slots, s) &&
                         h == Sha256(height + b + k + s)
  }

  /** h is the hash the signature of a message is checked against: the message's height, output and key
      and the keys of the round at its own height. */
  ghost predicate IsChecked(current: seq<byte>, slots: seq<Slot>, height: seq<byte>, beta: string, key: string, h: seq<byte>) {
    && |beta| == 128 && |key| == 64
    && exists b, k, s :: Spells(b, beta) && Spells(k, key) && IsSetHash(current, slots, s) &&
                         h == Sha256(height + b + k + s)
  }

  lemma SignedFrom(height: seq<byte>, slots: seq<Slot>, p: nat, b: seq<byte>, k: seq<byte>, s: seq<byte>)
    requires p < |slots| && |slots[p].key| > 0 && |slots[p].proof| > 0 && |slots[p].beta| > 0
    requires Fills(b, slots[p].beta, 64) && Fills(k, slots[p].key, 32) && IsSetHash(height, slots, s)
    ensures SignedHash(height, slots, p) == Some(Sha256(height + b + k + s))
  {
    FillIs(slots[p].beta, 64, b);
    FillIs(slots[p].key, 32, k);
    SetHashIs(height, slots, s);
    hide HexBytes, Fills, KeySetHash, IsSetHash, Sha256;
  }

  lemma SignedParts(height: seq<byte>, slots: seq<Slot>, p: nat) returns (b: seq<byte>, k: seq<byte>, s: seq<byte>)
    requires p < |slots| && SignedHash(height, slots, p).Some?
    ensures |slots[p].key| > 0 && |slots[p].proof| > 0 && |slots[p].beta| > 0
    ensures Fills(b, slots[p].beta, 64) && Fills(k, slots[p].key, 32) && IsSetHash(height, slots, s)
  {
    hide HexBytes, Fills, KeySetHash, IsSetHash, Sha256;
    b, k := HexBytes(slots[p].beta, 64).value, HexBytes(slots[p].key, 32).value;
    s := KeySetHash(height, slots).value;
    FillIs(slots[p].beta, 64, b);
    FillIs(slots[p].key, 32, k);
    SetHashIs(height, slots, s);
  }

  /** The signing side hashes exactly that, and gives up where there is nothing of the kind. */
  lemma SignedIs(height: seq<byte>, slots: seq<Slot>, p: nat, h: seq<byte>)
    requires p < |slots|
    ensures SignedHash(height, slots, p) == Some(h) <==> IsSigned(height, slots, p, h)
  {
    hide SignedHash, Fills, IsSetHash, Sha256;
    if SignedHash(height, slots, p).Some? {
      var b, k, s := SignedParts(height, slots, p);
      SignedFrom(height, slots, p, b, k, s);
    }
    if IsSigned(height, slots, p, h) {
      var b, k, s :| Fills(b, slots[p].beta, 64) && Fills(k, slots[p].key, 32) && IsSetHash(height, slots, s) &&
        h == Sha256(height + b + k + s);
      SignedFrom(height, slots, p, b, k, s);
    }
  }

  lemma CheckedFrom(current: seq<byte>, slots: seq<Slot>, height: seq<byte>, beta: string, key: string,
                    b: seq<byte>, k: seq<byte>, s: seq<byte>)
    requires |beta| == 128 && |key| == 64 && Spells(b, beta) && Spells(k, key) && IsSetHash(current, slots, s)
    ensures CheckedHash(current, slots, height, beta, key) == Some(Sha256(height + b + k + s))
  {
    DecodingIs(beta, 64);
    DecodingIs(key, 32);
    SetHashIs(current, slots, s);
    hide HexBytes, Spells, KeySetHash, IsSetHash, Sha256;
  }

  lemma CheckedParts(current: seq<byte>, slots: seq<Slot>, height: seq<byte>, beta: string, key: string)
    returns (b: seq<byte>, k: seq<byte>, s: seq<byte>)
    requires CheckedHash(current, slots, height, beta, key).Some?
    ensures |beta| == 128 && |key| == 64 && Spells(b, beta) && Spells(k, key) && IsSetHash(current, slots, s)
  {
    DecodingIs(beta, 64);
    DecodingIs(key, 32);
    hide HexBytes, Spells, KeySetHash, IsSetHash, Sha256;
    b, k := HexBytes(beta, 64).value, HexBytes(key, 32).value;
    s := KeySetHash(current, slots).value;
    SetHashIs(current, slots, s);
  }

  /** So does the checking side. */
  lemma CheckedIs(current: seq<byte>, slots: seq<Slot>, height: seq<byte>, beta: string, key: string, h: seq<byte>)
    ensures CheckedHash(current, slots, height, beta, key) == Some(h) <==>
            IsChecked(current, slots, height, beta, key, h)
  {
    hide CheckedHash, Spells, IsSetHash, Sha256;
    if CheckedHash(current, slots, height, beta, key).Some? {
      var b, k, s := CheckedParts(current, slots, height, beta, key);
      CheckedFrom(current, slots, height, beta, key, b, k, s);
    }
    if IsChecked(current, slots, height, beta, key, h) {
      var b, k, s :| Spells(b, beta) && Spells(k, key) && IsSetHash(current, slots, s) && h == Sha256(height + b + k + s);
      CheckedFrom(current, slots, height, beta, key, b, k, s);
    }
  }

  // ---------- One message for one signature ----------

  /** Two different octet strings with the same hash. */
  ghost predicate Sha256Collides() {
    exists m, n :: m != n && Sha256(m) == Sha256(n)
  }

  lemma EqualHashes(m: seq<byte>, n: seq<byte>)
    requires Sha256(m) == Sha256(n)
    ensures m == n || Sha256Collides()
  {
    hide Sha256;
  }

  /** Both lists have the same keys. */
  ghost predicate SameKeys(slots: seq<Slot>, slots': seq<Slot>) {
    exists c, rows, c', rows' ::
      ListsKeys(slots, c, rows) && ListsKeys(slots', c', rows') && multiset(rows) == multiset(rows')
  }

  lemma ListedFit(slots: seq<Slot>)
    requires KeysOf(slots).Some? && |slots| < 256
    ensures |KeysOf(slots).value| < 256
  {
    hide KeysOf;
  }

  lemma BufferBinds(height: seq<byte>, rows: seq<seq<byte>>, height': seq<byte>, rows': seq<seq<byte>>)
    requires |height| < 256 && |height'| < 256 && |rows| < 256 && |rows'| < 256 && AllRows(rows) && AllRows(rows')
    requires KeySetBuffer(height, Sort(rows, MemLe)) == KeySetBuffer(height', Sort(rows', MemLe))
    ensures height == height' && multiset(rows) == multiset(rows')
  {
    SortArranges(rows);
    SortArranges(rows');
    SortKeeps(rows, MemLe);
    SortKeeps(rows', MemLe);
    hide Sort, MemLe, KeySetBuffer, Arranged;
    KeySetBufferInjective(height, Sort(rows, MemLe), height', Sort(rows', MemLe));
  }

  lemma SetOctets(height: seq<byte>, slots: seq<Slot>) returns (c: seq<nat>, rows: seq<seq<byte>>)
    requires KeySetHash(height, slots).Some? && |slots| < 256
    ensures ListsKeys(slots, c, rows) && AllRows(rows) && |rows| < 256
    ensures KeySetHash(height, slots) == Some(Sha256(KeySetBuffer(height, Sort(rows, MemLe))))
  {
    rows := KeysOf(slots).value;
    KeysAre(slots, rows);
    ListedFit(slots);
    hide KeysOf, Sort, Sha256, ListsKeys, KeySetBuffer, MemLe;
    c :| ListsKeys(slots, c, rows);
    KeysAreRows(slots, c, rows);
  }

  /** Equal key set hashes: the same height and the same keys, or a collision. */
  lemma SetHashBinds(height: seq<byte>, slots: seq<Slot>, height': seq<byte>, slots': seq<Slot>)
    requires |height| < 256 && |height'| < 256 && |slots| < 256 && |slots'| < 256
    requires KeySetHash(height, slots).Some? && KeySetHash(height, slots) == KeySetHash(height', slots')
    ensures (height == height' && SameKeys(slots, slots')) || Sha256Collides()
  {
    var c, rows := SetOctets(height, slots);
    var c', rows' := SetOctets(height', slots');
    hide KeySetHash, Sort, Sha256, ListsKeys, KeySetBuffer, Sha256Collides, MemLe, AllRows;
    EqualHashes(KeySetBuffer(height, Sort(rows, MemLe)), KeySetBuffer(height', Sort(rows', MemLe)));
    if KeySetBuffer(height, Sort(rows, MemLe)) == KeySetBuffer(height', Sort(rows', MemLe)) {
      BufferBinds(height, rows, height', rows');
    }
  }

  /** h is the hash of height, output, key and key set hash. */
  ghost predicate Joins(h: seq<byte>, height: seq<byte>, b: seq<byte>, k: seq<byte>, s: seq<byte>) {
    |b| == 64 && |k| == 32 && |s| == 32 && h == Sha256(height + b + k + s)
  }

  /** The same for the hash over all. */
  lemma OuterBinds(height: seq<byte>, b: seq<byte>, k: seq<byte>, s: seq<byte>,
                   height': seq<byte>, b': seq<byte>, k': seq<byte>, s': seq<byte>)
    requires exists h :: Joins(h, height, b, k, s) && Joins(h, height', b', k', s')
    ensures (height == height' && b == b' && k == k' && s == s') || Sha256Collides()
  {
    EqualHashes(height + b + k + s, height' + b' + k' + s');
    hide Sha256, Sha256Collides;
    if height + b + k + s == height' + b' + k' + s' {
      PreimageInjective(height, b, k, s, height', b', k', s');
    }
  }

  lemma CheckedOctets(current: seq<byte>, slots: seq<Slot>, height: seq<byte>, beta: string, key: string)
    returns (b: seq<byte>, k: seq<byte>, s: seq<byte>)
    requires CheckedHash(current, slots, height, beta, key).Some?
    ensures |beta| == 128 && |key| == 64 && Spells(b, beta) && Spells(k, key)
    ensures KeySetHash(current, slots) == Some(s)
    ensures Joins(CheckedHash(current, slots, height, beta, key).value, height, b, k, s)
  {
    b, k, s := CheckedParts(current, slots, height, beta, key);
    CheckedFrom(current, slots, height, beta, key, b, k, s);
    SetHashIs(current, slots, s);
    hide CheckedHash, KeySetHash, IsSetHash, Sha256;
  }

  lemma SameText(x: seq<byte>, a: string, b: string)
    requires Spells(x, a) && Spells(x, b)
    ensures Lowered(a) == Lowered(b)
  {
    OrderIs(x, a, x, b);
  }

  /** A signature that checks for two messages: they have the same height, output and key, up to case, and
      were checked at the same height and against the same keys; or SHA-256 collides. */
  lemma CheckBinds(current: seq<byte>, slots: seq<Slot>, height: seq<byte>, beta: string, key: string,
                   current': seq<byte>, slots': seq<Slot>, height': seq<byte>, beta': string, key': string)
    requires |current| < 256 && |current'| < 256 && |slots| < 256 && |slots'| < 256
    requires CheckedHash(current, slots, height, beta, key).Some?
    requires CheckedHash(current, slots, height, beta, key) == CheckedHash(current', slots', height', beta', key')
    ensures (height == height' && Lowered(beta) == Lowered(beta') && Lowered(key) == Lowered(key') &&
             current == current' && SameKeys(slots, slots')) || Sha256Collides()
  {
    hide *;
    var b, k, s := CheckedOctets(current, slots, height, beta, key);
    var b', k', s' := CheckedOctets(current', slots', height', beta', key');
    OuterBinds(height, b, k, s, height', b', k', s');
    if !Sha256Collides() {
      SameText(b, beta, beta');
      SameText(k, key, key');
      SetHashBinds(current, slots, current', slots');
    }
  }
}
