/** What memcmp orders and what the digests are taken over, octet by octet: sorted rows of 32 octets laid
    end to end. */
module OctetLayout {
  import opened Bytes
  import opened Sorting
  import opened VotePreimage

  // ---------- Order ----------

  /** a is less than b at the first octet where they differ. */
  ghost predicate OctetsLess(a: seq<byte>, b: seq<byte>) {
    exists i :: 0 <= i < |a| && i < |b| && a[..i] == b[..i] && a[i] < b[i]
  }

  lemma SplitLess(a: seq<byte>, b: seq<byte>)
    requires a != [] && b != [] && a[0] == b[0] && OctetsLess(a, b)
    ensures OctetsLess(a[1..], b[1..])
  {
    var i :| 0 <= i < |a| && i < |b| && a[..i] == b[..i] && a[i] < b[i];
    var x, y := a[1..], b[1..];
    assert x[..i - 1] == a[..i][1..] && y[..i - 1] == b[..i][1..];
    assert x[i - 1] == a[i] && y[i - 1] == b[i];
  }

  lemma JoinLess(a: seq<byte>, b: seq<byte>)
    requires a != [] && b != [] && a[0] == b[0] && OctetsLess(a[1..], b[1..])
    ensures OctetsLess(a, b)
  {
    var x, y := a[1..], b[1..];
    var i :| 0 <= i < |x| && i < |y| && x[..i] == y[..i] && x[i] < y[i];
    assert a[..i + 1] == [a[0]] + x[..i] && b[..i + 1] == [b[0]] + y[..i];
    assert a[i + 1] == x[i] && b[i + 1] == y[i];
  }

  lemma LessAtFirst(a: seq<byte>, b: seq<byte>)
    requires a != [] && b != [] && a[0] != b[0]
    ensures OctetsLess(a, b) <==> a[0] < b[0]
  {
    assert a[..0] == b[..0];
    if OctetsLess(a, b) {
      var i :| 0 <= i < |a| && i < |b| && a[..i] == b[..i] && a[i] < b[i];
      if i > 0 {
        assert a[..i][0] == b[..i][0];
      }
    }
  }

  /** memcmp <= 0: equal, or less where they first differ. */
  lemma {:induction false} MemLeIs(a: seq<byte>, b: seq<byte>)
    requires |a| == |b|
    ensures MemLe(a, b) <==> a == b || OctetsLess(a, b)
  {
    if a != [] {
      MemLeIs(a[1..], b[1..]);
      if a[0] == b[0] {
        assert a == [a[0]] + a[1..] && b == [b[0]] + b[1..];
        if OctetsLess(a, b) {
          SplitLess(a, b);
        }
        if OctetsLess(a[1..], b[1..]) {
          JoinLess(a, b);
        }
      } else {
        LessAtFirst(a, b);
      }
    }
  }

  // ---------- Rows ----------

  ghost predicate AllRows(q: seq<seq<byte>>) {
    forall i :: 0 <= i < |q| ==> |q[i]| == 32
  }

  /** q is r in ascending order. */
  ghost predicate Arranged(q: seq<seq<byte>>, r: seq<seq<byte>>) {
    multiset(q) == multiset(r) && forall i, j :: 0 <= i < j < |q| ==> q[i] == q[j] || OctetsLess(q[i], q[j])
  }

  lemma SortArranges(r: seq<seq<byte>>)
    requires AllRows(r)
    ensures Arranged(Sort(r, MemLe), r) && AllRows(Sort(r, MemLe))
  {
    var q := Sort(r, MemLe);
    MemOrder();
    SortSorts(r, MemLe);
    SortKeeps(r, MemLe);
    hide Sort, MemLe, OctetsLess;
    forall i | 0 <= i < |q| ensures |q[i]| == 32 {
      assert q[i] in multiset(q);
    }
    forall i, j | 0 <= i < j < |q| ensures q[i] == q[j] || OctetsLess(q[i], q[j]) {
      MemLeIs(q[i], q[j]);
    }
  }

  lemma ArrangedIsSort(q: seq<seq<byte>>, r: seq<seq<byte>>)
    requires AllRows(r) && Arranged(q, r)
    ensures q == Sort(r, MemLe)
  {
    MemOrder();
    SortSorts(r, MemLe);
    SortKeeps(r, MemLe);
    hide Sort, MemLe, OctetsLess;
    forall i | 0 <= i < |q| ensures |q[i]| == 32 {
      assert q[i] in multiset(q);
    }
    forall i, j | 0 <= i < j < |q| ensures MemLe(q[i], q[j]) {
      MemLeIs(q[i], q[j]);
    }
    SortedUnique(q, Sort(r, MemLe), MemLe);
  }

  /** m is the rows of q end to end. */
  ghost predicate EndToEnd(q: seq<seq<byte>>, m: seq<byte>) {
    |m| == 32 * |q| && forall i :: 0 <= i < |q| ==> m[32 * i..32 * i + 32] == q[i]
  }

  lemma {:induction false} ConcatIs(q: seq<seq<byte>>)
    requires AllRows(q)
    ensures EndToEnd(q, Concat(q))
  {
    if q != [] {
      var t := q[1..];
      ConcatIs(t);
      var m, n := Concat(q), Concat(t);
      forall i | 0 <= i < |q| ensures m[32 * i..32 * i + 32] == q[i] {
        if i > 0 {
          assert t[i - 1] == q[i];
          assert m[32 * i..32 * i + 32] == n[32 * (i - 1)..32 * (i - 1) + 32];
        }
      }
    }
  }

  lemma EndToEndUnique(q: seq<seq<byte>>, m: seq<byte>, n: seq<byte>)
    requires EndToEnd(q, m) && EndToEnd(q, n)
    ensures m == n
  {
    forall k | 0 <= k < |m| ensures m[k] == n[k] {
      var i := k / 32;
      assert m[32 * i..32 * i + 32][k - 32 * i] == m[k] && n[32 * i..32 * i + 32][k - 32 * i] == n[k];
      assert q[i] == m[32 * i..32 * i + 32];
    }
  }
}
