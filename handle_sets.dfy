/** Ordered sets of handles, as `std::set<XHandle>` keeps them: iterating a
    set visits its elements in ascending order of `operator<`, each once. */
module HandleSets {
  import opened Handles

  /** Strictly increasing by index: ascending and duplicate-free. */
  predicate Ascending<K(!new)>(s: seq<Handle<K>>) {
    forall i, j :: 0 <= i < j < |s| ==> s[i].idx < s[j].idx
  }

  predicate IsLeast<K(!new)>(m: Handle<K>, s: set<Handle<K>>) {
    m in s && forall x :: x in s ==> m.idx <= x.idx
  }

  /** A non-empty finite set of handles has a least element, and only one. */
  lemma {:induction false} LeastExists<K(!new)>(s: set<Handle<K>>)
    requires s != {}
    ensures exists m :: IsLeast(m, s)
    ensures forall m, m' :: IsLeast(m, s) && IsLeast(m', s) ==> m == m'
    decreases |s|
  {
    var x :| x in s;
    if s != {x} {
      var rest := s - {x};
      LeastExists(rest);
      var m :| IsLeast(m, rest);
      if x.idx < m.idx {
        assert IsLeast(x, s);
      } else {
        assert IsLeast(m, s);
      }
    } else {
      assert IsLeast(x, s);
    }
  }

  /** The elements of `s` in the order a `std::set` iterates them. */
  ghost function InOrder<K(!new)>(s: set<Handle<K>>): (r: seq<Handle<K>>)
    ensures Ascending(r)
    ensures forall h :: h in r <==> h in s
    ensures |r| == |s|
    decreases |s|
  {
    if s == {} then []
    else
      LeastExists(s);
      var m :| IsLeast(m, s);
      var rest := InOrder(s - {m});
      assert forall h :: h in rest ==> m.idx < h.idx;
      [m] + rest
  }

  /** Copying a `std::set` into a vector: the result is `InOrder(s)`. */
  method CopyInOrder<K(!new)>(s: set<Handle<K>>) returns (r: seq<Handle<K>>)
    ensures r == InOrder(s)
  {
    r := [];
    var todo := s;
    while todo != {}
      invariant todo <= s
      invariant Ascending(r)
      invariant forall h :: h in s <==> h in r || h in todo
      invariant forall i, h :: 0 <= i < |r| && h in todo ==> r[i].idx < h.idx
      decreases |todo|
    {
      LeastExists(todo);
      var m :| IsLeast(m, todo);
      r := r + [m];
      todo := todo - {m};
    }
    InOrderIsTheAscendingListing(s, r);
  }

  /** An ascending sequence is determined by its elements. */
  lemma {:induction false} AscendingIsUnique<K(!new)>(a: seq<Handle<K>>, b: seq<Handle<K>>)
    requires Ascending(a) && Ascending(b)
    requires forall h :: h in a <==> h in b
    ensures a == b
    decreases |a|
  {
    assert a != [] ==> a[0] in b;
    assert b != [] ==> b[0] in a;
    if a != [] && b != [] {
      assert a[0] == b[0] by {
        var i :| 0 <= i < |b| && b[i] == a[0];
        var j :| 0 <= j < |a| && a[j] == b[0];
        assert b[0].idx <= b[i].idx;
        assert a[0].idx <= a[j].idx;
      }
      forall h ensures h in a[1..] <==> h in b[1..] {
        if h in a[1..] {
          var i :| 0 <= i < |a| - 1 && a[1..][i] == h;
          assert a[i + 1] == h && h != a[0] && h in a && h in b;
          var k :| 0 <= k < |b| && b[k] == h;
          assert k > 0 && b[1..][k - 1] == h;
        }
        if h in b[1..] {
          var i :| 0 <= i < |b| - 1 && b[1..][i] == h;
          assert b[i + 1] == h && h != b[0] && h in b && h in a;
          var k :| 0 <= k < |a| && a[k] == h;
          assert k > 0 && a[1..][k - 1] == h;
        }
      }
      AscendingIsUnique(a[1..], b[1..]);
    }
  }

  /** `InOrder` is the only ascending listing of a set. */
  lemma InOrderIsTheAscendingListing<K(!new)>(s: set<Handle<K>>, r: seq<Handle<K>>)
    requires Ascending(r) && forall h :: h in r <==> h in s
    ensures r == InOrder(s)
  {
    AscendingIsUnique(r, InOrder(s));
  }
}
