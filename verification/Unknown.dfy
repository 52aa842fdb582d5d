/** The unknown-field set a message carries along.

    The runtime keeps, per field number, the unknown records in arrival order. The
    canonical listing used here orders the records by field number and keeps arrival
    order inside a number, so two sets are equal exactly when their per-number lists are.
 */
module Unknown {
  import opened Seqs
  import opened Wire

  predicate Listed(u: seq<Rec>) {
    forall i, j :: 0 <= i < j < |u| ==> u[i].num <= u[j].num
  }

  /** Add one record after every record whose number is not larger. */
  function Insert(u: seq<Rec>, r: Rec): (v: seq<Rec>)
    ensures |v| == |u| + 1
    ensures multiset(v) == multiset(u) + multiset{r}
  {
    if u == [] || r.num >= u[|u| - 1].num then u + [r]
    else
      var k := |u| - 1;
      assert u == u[..k] + [u[k]];
      Insert(u[..k], r) + [u[k]]
  }

  /** Add the records of `v` one by one. */
  function Union(u: seq<Rec>, v: seq<Rec>): (w: seq<Rec>)
    ensures multiset(w) == multiset(u) + multiset(v)
  {
    if v == [] then u
    else
      var k := |v| - 1;
      assert v == v[..k] + [v[k]];
      Insert(Union(u, v[..k]), v[k])
  }

  /** The records with field number `n`, in order. */
  function Only(u: seq<Rec>, n: nat): seq<Rec> {
    if u == [] then []
    else Only(u[..|u| - 1], n) + (if u[|u| - 1].num == n then [u[|u| - 1]] else [])
  }

  lemma InsertMembers(u: seq<Rec>, r: Rec, x: Rec)
    ensures x in Insert(u, r) <==> x in u || x == r
  {
    assert x in Insert(u, r) <==> x in multiset(Insert(u, r));
    assert x in u <==> x in multiset(u);
  }

  lemma UnionMembers(u: seq<Rec>, v: seq<Rec>, x: Rec)
    ensures x in Union(u, v) <==> x in u || x in v
  {
    assert x in Union(u, v) <==> x in multiset(Union(u, v));
    assert x in u <==> x in multiset(u);
    assert x in v <==> x in multiset(v);
  }

  lemma {:induction false} InsertListed(u: seq<Rec>, r: Rec)
    requires Listed(u)
    ensures Listed(Insert(u, r))
  {
    if u != [] && r.num < u[|u| - 1].num {
      var k := |u| - 1;
      InsertListed(u[..k], r);
      forall x | x in Insert(u[..k], r) ensures x.num <= u[k].num {
        InsertMembers(u[..k], r, x);
      }
    }
  }

  lemma {:induction false} UnionListed(u: seq<Rec>, v: seq<Rec>)
    requires Listed(u)
    ensures Listed(Union(u, v))
  {
    if v != [] {
      UnionListed(u, v[..|v| - 1]);
      InsertListed(Union(u, v[..|v| - 1]), v[|v| - 1]);
    }
  }

  /** Listing an already listed set changes nothing. */
  lemma {:induction false} UnionLeftIdentity(v: seq<Rec>)
    requires Listed(v)
    ensures Union([], v) == v
  {
    if v != [] {
      var head, last := v[..|v| - 1], v[|v| - 1];
      UnionLeftIdentity(head);
      Last(v);
    }
  }

  lemma InsertLast(u: seq<Rec>, last: Rec, r: Rec)
    ensures Insert(u + [last], r) == if r.num >= last.num then u + [last] + [r] else Insert(u, r) + [last]
  {
    Snoc(u, last);
  }

  lemma {:induction false} InsertCommutes(u: seq<Rec>, r: Rec, s: Rec)
    requires Listed(u) && r.num != s.num
    ensures Insert(Insert(u, r), s) == Insert(Insert(u, s), r)
  {
    if u == [] {
      Snoc(u, r);
      Snoc(u, s);
    } else {
      var head, last := u[..|u| - 1], u[|u| - 1];
      Last(u);
      if r.num < last.num && s.num < last.num { InsertCommutes(head, r, s); }
      hide Insert;
      InsertLast(head, last, r);
      InsertLast(head, last, s);
      InsertLast(Insert(head, r), last, s);
      InsertLast(Insert(head, s), last, r);
      InsertLast(u, r, s);
      InsertLast(u, s, r);
    }
  }

  lemma UnionLast(u: seq<Rec>, v: seq<Rec>, last: Rec)
    ensures Union(u, v + [last]) == Insert(Union(u, v), last)
  {
    Snoc(v, last);
  }

  /** Inserting into the second argument of a union is inserting into the union. */
  lemma {:induction false} UnionInsert(u: seq<Rec>, v: seq<Rec>, r: Rec)
    requires Listed(u) && Listed(v)
    ensures Union(u, Insert(v, r)) == Insert(Union(u, v), r)
  {
    if v == [] || r.num >= v[|v| - 1].num {
      UnionLast(u, v, r);
    } else {
      var head, last := v[..|v| - 1], v[|v| - 1];
      Last(v);
      UnionInsert(u, head, r);
      UnionListed(u, head);
      hide Insert, Union;
      InsertLast(head, last, r);
      InsertCommutes(Union(u, head), r, last);
      UnionLast(u, head, last);
      UnionLast(u, Insert(head, r), last);
    }
  }

  lemma {:induction false} UnionAssociative(u: seq<Rec>, v: seq<Rec>, w: seq<Rec>)
    requires Listed(u) && Listed(v)
    ensures Union(Union(u, v), w) == Union(u, Union(v, w))
  {
    if w != [] {
      var k := |w| - 1;
      UnionAssociative(u, v, w[..k]);
      UnionListed(v, w[..k]);
      UnionInsert(u, Union(v, w[..k]), w[k]);
    }
  }

  lemma {:induction false} UnionConcat(u: seq<Rec>, v: seq<Rec>, w: seq<Rec>)
    ensures Union(u, v + w) == Union(Union(u, v), w)
  {
    if w == [] {
      Unit(v);
    } else {
      var head, last := w[..|w| - 1], w[|w| - 1];
      Last(w);
      UnionConcat(u, v, head);
      Assoc(v, head, [last]);
      UnionLast(u, v + head, last);
      UnionLast(Union(u, v), head, last);
    }
  }

  // ------------------------------------------- a set is its per-number lists

  lemma OnlySnoc(u: seq<Rec>, r: Rec, n: nat)
    ensures Only(u + [r], n) == Only(u, n) + (if r.num == n then [r] else [])
  {
    Snoc(u, r);
  }

  lemma {:induction false} OnlyInsert(u: seq<Rec>, r: Rec, n: nat)
    requires Listed(u)
    ensures Only(Insert(u, r), n) == Only(u, n) + (if r.num == n then [r] else [])
  {
    if u == [] || r.num >= u[|u| - 1].num {
      OnlySnoc(u, r, n);
    } else {
      var head, last := u[..|u| - 1], u[|u| - 1];
      Last(u);
      OnlyInsert(head, r, n);
      OnlySnoc(head, last, n);
      OnlySnoc(Insert(head, r), last, n);
      hide Only, Insert;
      Unit(Only(head, n));
      Unit(Only(head, n) + [r]);
    }
  }

  lemma {:induction false} OnlyUnion(u: seq<Rec>, v: seq<Rec>, n: nat)
    requires Listed(u)
    ensures Only(Union(u, v), n) == Only(u, n) + Only(v, n)
  {
    if v == [] {
      Unit(Only(u, n));
    } else {
      var head, last := v[..|v| - 1], v[|v| - 1];
      Last(v);
      OnlyUnion(u, head, n);
      UnionListed(u, head);
      OnlyInsert(Union(u, head), last, n);
      OnlySnoc(head, last, n);
      Assoc(Only(u, n), Only(head, n), if last.num == n then [last] else []);
    }
  }

  lemma {:induction false} OnlyMembers(u: seq<Rec>, r: Rec)
    ensures r in Only(u, r.num) <==> r in u
  {
    if u != [] {
      OnlyMembers(u[..|u| - 1], r);
      assert u == u[..|u| - 1] + [u[|u| - 1]];
    }
  }

  lemma {:induction false} OnlyEmptyAll(u: seq<Rec>)
    requires forall n: nat :: Only(u, n) == []
    ensures u == []
  {
    if u != [] {
      OnlyMembers(u, u[0]);
      assert Only(u, u[0].num) != [];
    }
  }

  /** Two listed sets with the same per-number lists are the same set. */
  lemma {:induction false} ListedExtensional(u: seq<Rec>, v: seq<Rec>)
    requires Listed(u) && Listed(v)
    requires forall n: nat :: Only(u, n) == Only(v, n)
    ensures u == v
    decreases |u|
  {
    if u == [] {
      forall n: nat ensures Only(v, n) == [] { assert Only(u, n) == Only(v, n); }
      OnlyEmptyAll(v);
    } else if v == [] {
      forall n: nat ensures Only(u, n) == [] { assert Only(u, n) == Only(v, n); }
      OnlyEmptyAll(u);
    } else {
      var hu, hv, a, b := u[..|u| - 1], v[..|v| - 1], u[|u| - 1], v[|v| - 1];
      LastIsMax(u, v);
      LastIsMax(v, u);
      var m := a.num;
      assert Only(u, m) == Only(v, m);
      SnocInjective(Only(hu, m), a, Only(hv, m), b);
      forall n: nat ensures Only(hu, n) == Only(hv, n) {
        assert Only(u, n) == Only(v, n);
        if n != m {
          Unit(Only(hu, n));
          Unit(Only(hv, n));
        }
      }
      ListedExtensional(hu, hv);
      assert u == hu + [a] && v == hv + [b];
    }
  }

  lemma SnocInjective(s: seq<Rec>, a: Rec, t: seq<Rec>, b: Rec)
    requires s + [a] == t + [b]
    ensures s == t && a == b
  {
    Snoc(s, a);
    Snoc(t, b);
  }

  lemma {:induction false} LastIsMax(u: seq<Rec>, v: seq<Rec>)
    requires u != [] && v != [] && Listed(v)
    requires Only(u, u[|u| - 1].num) == Only(v, u[|u| - 1].num)
    ensures u[|u| - 1].num <= v[|v| - 1].num
  {
    var a := u[|u| - 1];
    OnlyMembers(u, a);
    OnlyMembers(v, a);
    assert a in v;
  }
}
