/** Ascending lists of indices: a list is determined by the indices in it. */
module Indices {
  ghost predicate Ascending(c: seq<nat>) {
    forall j, k :: 0 <= j < k < |c| ==> c[j] < c[k]
  }

  ghost function Elements(c: seq<nat>): set<nat> {
    set i | i in c
  }

  lemma {:induction false} AscendingUnique(c: seq<nat>, e: seq<nat>)
    requires Ascending(c) && Ascending(e) && Elements(c) == Elements(e)
    ensures c == e
  {
    assert c != [] ==> c[0] in Elements(c);
    assert e != [] ==> e[0] in Elements(e);
    if c != [] {
      SameLast(c, e);
      LastIsGone(c);
      LastIsGone(e);
      hide Ascending, Elements;
      AscendingUnique(c[..|c| - 1], e[..|e| - 1]);
      assert c == c[..|c| - 1] + [c[|c| - 1]] && e == e[..|e| - 1] + [e[|e| - 1]];
    }
  }

  lemma SameLast(c: seq<nat>, e: seq<nat>)
    requires Ascending(c) && Ascending(e) && c != [] && e != [] && Elements(c) == Elements(e)
    ensures c[|c| - 1] == e[|e| - 1]
  {
    assert c[|c| - 1] in Elements(c) && e[|e| - 1] in Elements(e);
  }

  lemma LastIsGone(c: seq<nat>)
    requires Ascending(c) && c != []
    ensures Ascending(c[..|c| - 1])
    ensures Elements(c[..|c| - 1]) == Elements(c) - {c[|c| - 1]}
  {
    var d := c[..|c| - 1];
    forall i | i in c && i != c[|c| - 1] ensures i in d {
      var j :| 0 <= j < |c| && c[j] == i;
      assert d[j] == i;
    }
  }
}
