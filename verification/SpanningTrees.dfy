/** Undirected graphs, connectedness and spanning trees, and the exchange step behind
    both minimum-spanning-tree programs of 5_section_6/3_minSpanTree.cpp. */
module SpanningTrees {
  import opened GraphMatrix
  import opened Counting

  /** An undirected edge, smaller end first. */
  type Link = (nat, nat)

  function MakeLink(a: nat, b: nat): Link {
    if a <= b then (a, b) else (b, a)
  }

  // ----- connectedness -----

  ghost predicate Crosses(e: Link, s: set<nat>) {
    (e.0 in s) != (e.1 in s)
  }

  /** No link of `es` leaves `s`. */
  ghost predicate Closed(es: set<Link>, s: set<nat>) {
    forall e :: e in es ==> !Crosses(e, s)
  }

  /** Every closed set that holds `x` holds `y`. */
  ghost predicate Connected(es: set<Link>, x: nat, y: nat) {
    forall s: set<nat> :: Closed(es, s) && x in s ==> y in s
  }

  ghost predicate Step(es: set<Link>, x: nat, y: nat) {
    (x, y) in es || (y, x) in es
  }

  ghost predicate Walk(es: set<Link>, p: seq<nat>) {
    |p| > 0 && forall i :: 0 <= i < |p| - 1 ==> Step(es, p[i], p[i + 1])
  }

  ghost predicate Walkable(es: set<Link>, x: nat, y: nat) {
    exists p :: Walk(es, p) && p[0] == x && p[|p| - 1] == y
  }

  lemma {:induction false} WalkStays(es: set<Link>, p: seq<nat>, s: set<nat>)
    requires Walk(es, p) && Closed(es, s) && p[0] in s
    ensures p[|p| - 1] in s
    decreases |p|
  {
    if |p| > 1 {
      assert Step(es, p[0], p[1]);
      assert p[1] in s by {
        if (p[0], p[1]) in es { assert !Crosses((p[0], p[1]), s); } else { assert !Crosses((p[1], p[0]), s); }
      }
      forall i | 0 <= i < |p[1..]| - 1 ensures Step(es, p[1..][i], p[1..][i + 1]) {
        assert Step(es, p[i + 1], p[i + 2]);
      }
      WalkStays(es, p[1..], s);
    }
  }

  lemma WalkExtend(es: set<Link>, x: nat, y: nat, z: nat)
    requires Walkable(es, x, y) && Step(es, y, z)
    ensures Walkable(es, x, z)
  {
    var p :| Walk(es, p) && p[0] == x && p[|p| - 1] == y;
    var q := p + [z];
    assert Walk(es, q) && q[0] == x && q[|q| - 1] == z;
  }

  /** Connected means joined by a walk along the links. */
  lemma ConnectedIffWalkable(es: set<Link>, x: nat, y: nat)
    ensures Connected(es, x, y) <==> Walkable(es, x, y)
  {
    if Walkable(es, x, y) {
      var p :| Walk(es, p) && p[0] == x && p[|p| - 1] == y;
      forall s: set<nat> | Closed(es, s) && x in s ensures y in s {
        WalkStays(es, p, s);
      }
    }
    if Connected(es, x, y) {
      var ends := Ends(es) + {x};
      var s := set z | z in ends && Walkable(es, x, z);
      assert Walk(es, [x]);
      forall e | e in es ensures !Crosses(e, s) {
        assert e.0 in ends && e.1 in ends;
        assert Step(es, e.0, e.1) && Step(es, e.1, e.0);
        if e.0 in s { WalkExtend(es, x, e.0, e.1); }
        if e.1 in s { WalkExtend(es, x, e.1, e.0); }
      }
      assert Closed(es, s) && x in s;
    }
  }

  ghost function Ends(es: set<Link>): set<nat> {
    (set e | e in es :: e.0) + (set e | e in es :: e.1)
  }

  lemma ConnectedSym(es: set<Link>, x: nat, y: nat)
    requires Connected(es, x, y)
    ensures Connected(es, y, x)
  {
    forall s: set<nat> | Closed(es, s) && y in s ensures x in s {
      var t := Ends(es) + {x, y} - s;
      assert Closed(es, t) by {
        forall e | e in es ensures !Crosses(e, t) { assert !Crosses(e, s); }
      }
      assert y !in t;
    }
  }

  lemma ConnectedTrans(es: set<Link>, x: nat, y: nat, z: nat)
    requires Connected(es, x, y) && Connected(es, y, z)
    ensures Connected(es, x, z)
  {
  }

  lemma ConnectedLink(es: set<Link>, a: nat, b: nat)
    requires MakeLink(a, b) in es
    ensures Connected(es, a, b)
  {
    forall s: set<nat> | Closed(es, s) && a in s ensures b in s {
      assert !Crosses(MakeLink(a, b), s);
    }
  }

  /** If the ends of every link of `es` are connected in `es'`, so is all that `es` connects. */
  lemma ConnectedReplace(es: set<Link>, es': set<Link>, x: nat, y: nat)
    requires Connected(es, x, y)
    requires forall e :: e in es ==> Connected(es', e.0, e.1)
    ensures Connected(es', x, y)
  {
    forall s: set<nat> | Closed(es', s) && x in s ensures y in s {
      forall e | e in es ensures !Crosses(e, s) {
        ConnectedSym(es', e.0, e.1);
      }
      assert Closed(es, s);
    }
  }

  lemma ConnectedMore(es: set<Link>, es': set<Link>, x: nat, y: nat)
    requires Connected(es, x, y) && es <= es'
    ensures Connected(es', x, y)
  {
    forall s: set<nat> | Closed(es', s) && x in s ensures y in s {
      assert Closed(es, s);
    }
  }

  /** What one more link `f` connects, it connects through its two ends. */
  lemma ConnectedThrough(es: set<Link>, f: Link, x: nat, y: nat)
    requires Connected(es + {f}, x, y) && !Connected(es, x, y)
    ensures (Connected(es, x, f.0) && Connected(es, f.1, y)) || (Connected(es, x, f.1) && Connected(es, f.0, y))
  {
    var s0: set<nat> :| Closed(es, s0) && x in s0 && y !in s0;
    assert !Closed(es + {f}, s0);
    assert Crosses(f, s0);
    var p, q := if f.0 in s0 then f.0 else f.1, if f.0 in s0 then f.1 else f.0;
    forall s: set<nat> | Closed(es, s) && x in s ensures p in s {
      if p !in s {
        var both := s0 * s;
        forall e | e in es + {f} ensures !Crosses(e, both) {
          if e in es { assert !Crosses(e, s0) && !Crosses(e, s); }
        }
        assert Closed(es + {f}, both);
      }
    }
    forall s: set<nat> | Closed(es, s) && q in s ensures y in s {
      if y !in s {
        var either := s0 + s;
        forall e | e in es + {f} ensures !Crosses(e, either) {
          if e in es { assert !Crosses(e, s0) && !Crosses(e, s); }
        }
        assert Closed(es + {f}, either);
      }
    }
  }

  /** Of the links of `es` that cross `s`, one really joins `x` to `y`: without it each of
      its ends is still connected to one of them. */
  lemma JoiningLink(es: set<Link>, s: set<nat>, x: nat, y: nat) returns (f: Link)
    requires Connected(es, x, y) && x in s && y !in s
    ensures f in es && Crosses(f, s)
    ensures (Connected(es - {f}, x, f.0) && Connected(es - {f}, f.1, y)) ||
            (Connected(es - {f}, x, f.1) && Connected(es - {f}, f.0, y))
    decreases |es|
  {
    f :| f in es && Crosses(f, s);
    assert es == es - {f} + {f};
    if Connected(es - {f}, x, y) {
      var g := JoiningLink(es - {f}, s, x, y);
      var small, large := es - {f} - {g}, es - {g};
      forall a: nat, b: nat | Connected(small, a, b) ensures Connected(large, a, b) {
        ConnectedMore(small, large, a, b);
      }
      f := g;
    } else {
      ConnectedThrough(es - {f}, f, x, y);
    }
  }

  // ----- weights -----

  /** Total weight of a set of links in a matrix. */
  ghost function Weight(g: seq<seq<int>>, es: set<Link>): int
    requires forall e :: e in es ==> e.0 < |g| && e.1 < |g[e.0]|
  {
    if es == {} then 0
    else
      var e :| e in es;
      g[e.0][e.1] + Weight(g, es - {e})
  }

  lemma {:induction false} WeightAdd(g: seq<seq<int>>, es: set<Link>, e: Link)
    requires forall d :: d in es + {e} ==> d.0 < |g| && d.1 < |g[d.0]|
    requires e !in es
    ensures Weight(g, es + {e}) == Weight(g, es) + g[e.0][e.1]
    decreases |es|
  {
    var all := es + {e};
    var d :| d in all && Weight(g, all) == g[d.0][d.1] + Weight(g, all - {d});
    if d == e {
      assert all - {d} == es;
    } else {
      var rest := es - {d};
      assert all - {d} == rest + {e} && es == rest + {d};
      WeightAdd(g, rest, e);
      WeightAdd(g, rest, d);
    }
  }

  // ----- spanning trees -----

  ghost predicate Symmetric(g: seq<seq<int>>)
    requires Square(g)
  {
    forall i, j :: 0 <= i < |g| && 0 <= j < |g| ==> g[i][j] == g[j][i]
  }

  /** The links of a graph given by its weight matrix; zero means no link. */
  ghost function Links(g: seq<seq<int>>): set<Link>
    requires Square(g)
  {
    set a: nat, b: nat | a < |g| && b < |g| && a < b && g[a][b] != 0 :: (a, b)
  }

  ghost predicate Spans(g: seq<seq<int>>, es: set<Link>) {
    forall a: nat, b: nat :: a < |g| && b < |g| ==> Connected(es, a, b)
  }

  ghost predicate ConnectedGraph(g: seq<seq<int>>) {
    Square(g) && Symmetric(g) && |g| > 0 && Spans(g, Links(g))
  }

  ghost predicate SpanningTree(g: seq<seq<int>>, t: set<Link>)
    requires Square(g)
  {
    t <= Links(g) && Spans(g, t) && |t| == |g| - 1
  }

  ghost predicate MinimumSpanningTree(g: seq<seq<int>>, t: set<Link>)
    requires Square(g)
  {
    SpanningTree(g, t) && forall u :: SpanningTree(g, u) ==> Weight(g, t) <= Weight(g, u)
  }

  // ----- spanning forests -----

  /** The two sets of links connect the same of the first `n` nodes. */
  ghost predicate SameComponents(n: nat, es: set<Link>, es': set<Link>) {
    forall x: nat, y: nat :: x < n && y < n ==> (Connected(es, x, y) <==> Connected(es', x, y))
  }

  /** `t` connects all that the graph connects. */
  ghost predicate Preserves(g: seq<seq<int>>, t: set<Link>)
    requires Square(g)
  {
    t <= Links(g) && SameComponents(|g|, t, Links(g))
  }

  /** `t` connects all that the graph connects, with as few links as possible. */
  ghost predicate SpanningForest(g: seq<seq<int>>, t: set<Link>)
    requires Square(g)
  {
    Preserves(g, t) && forall u :: Preserves(g, u) ==> |t| <= |u|
  }

  ghost predicate MinimumSpanningForest(g: seq<seq<int>>, t: set<Link>)
    requires Square(g)
  {
    SpanningForest(g, t) && forall u :: SpanningForest(g, u) ==> Weight(g, t) <= Weight(g, u)
  }

  /** Every graph has a spanning forest. */
  lemma {:induction false} SomeForest(g: seq<seq<int>>, u: set<Link>) returns (t: set<Link>)
    requires Square(g) && Preserves(g, u)
    ensures SpanningForest(g, t)
    decreases |u|
  {
    if v :| Preserves(g, v) && |v| < |u| {
      t := SomeForest(g, v);
    } else {
      t := u;
    }
  }

  /** In a connected graph a spanning tree is a spanning forest if any spanning tree is. */
  lemma TreeIsForest(g: seq<seq<int>>, t: set<Link>, u: set<Link>)
    requires Square(g) && SpanningTree(g, t) && SpanningForest(g, t) && SpanningTree(g, u)
    ensures SpanningForest(g, u)
  {
    forall x: nat, y: nat | x < |g| && y < |g| ensures Connected(u, x, y) <==> Connected(Links(g), x, y) {
      ConnectedMore(u, Links(g), x, y);
    }
  }

  /** `t'` is a spanning forest around `a` that weighs no more than `t`. */
  ghost predicate Improves(g: seq<seq<int>>, a: set<Link>, t: set<Link>, t': set<Link>)
    requires Square(g) && SpanningForest(g, t)
  {
    SpanningForest(g, t') && a <= t' && Weight(g, t') <= Weight(g, t)
  }

  ghost predicate Improvable(g: seq<seq<int>>, a: set<Link>, t: set<Link>)
    requires Square(g) && SpanningForest(g, t)
  {
    exists t' :: Improves(g, a, t, t')
  }

  /** No spanning forest is lighter than every spanning forest around `a`. */
  ghost predicate Promising(g: seq<seq<int>>, a: set<Link>)
    requires Square(g)
  {
    a <= Links(g) && forall t {:trigger Improvable(g, a, t)} :: SpanningForest(g, t) ==> Improvable(g, a, t)
  }

  lemma PromisingEmpty(g: seq<seq<int>>)
    requires Square(g)
    ensures Promising(g, {})
  {
    forall t | SpanningForest(g, t)
      ensures Improvable(g, {}, t)
    {
      assert Improves(g, {}, t, t);
    }
  }

  /** A promising choice that connects enough is a minimum spanning forest. */
  lemma PromisingForest(g: seq<seq<int>>, a: set<Link>)
    requires Square(g) && Promising(g, a) && Preserves(g, a)
    ensures MinimumSpanningForest(g, a)
  {
    var f := SomeForest(g, a);
    IsImproved(g, a, f);
    forall u | SpanningForest(g, u) ensures Weight(g, a) <= Weight(g, u) {
      IsImproved(g, a, u);
    }
  }

  /** The improvement around a choice that connects enough is that choice. */
  lemma IsImproved(g: seq<seq<int>>, a: set<Link>, t: set<Link>)
    requires Square(g) && Promising(g, a) && Preserves(g, a) && SpanningForest(g, t)
    ensures SpanningForest(g, a) && Weight(g, a) <= Weight(g, t)
  {
    assert Improvable(g, a, t);
    var t' :| Improves(g, a, t, t');
    SubsetSize(a, t');
    SubsetSameSize(a, t');
  }

  /** A promising spanning tree is a minimum one. */
  lemma PromisingTree(g: seq<seq<int>>, t: set<Link>)
    requires Square(g) && Promising(g, t) && SpanningTree(g, t)
    ensures MinimumSpanningTree(g, t)
  {
    forall x: nat, y: nat | x < |g| && y < |g| ensures Connected(t, x, y) <==> Connected(Links(g), x, y) {
      ConnectedMore(t, Links(g), x, y);
    }
    PromisingForest(g, t);
    forall u | SpanningTree(g, u) ensures Weight(g, t) <= Weight(g, u) {
      TreeIsForest(g, t, u);
    }
  }

  /** A lightest link over a cut that no chosen link crosses. */
  ghost predicate LightestAcross(g: seq<seq<int>>, a: set<Link>, s: set<nat>, e: Link)
    requires Square(g)
  {
    && e in Links(g) && Crosses(e, s) && Closed(a, s)
    && forall f :: f in Links(g) && Crosses(f, s) ==> g[e.0][e.1] <= g[f.0][f.1]
  }

  /** The exchange: any spanning forest around `a` can take up `e` for a link not lighter. */
  lemma Exchange(g: seq<seq<int>>, a: set<Link>, s: set<nat>, e: Link, t: set<Link>) returns (t': set<Link>)
    requires Square(g) && SpanningForest(g, t) && a <= t && LightestAcross(g, a, s, e)
    ensures SpanningForest(g, t') && a + {e} <= t' && Weight(g, t') <= Weight(g, t)
  {
    if e in t {
      t' := t;
    } else {
      var x, y := if e.0 in s then e.0 else e.1, if e.0 in s then e.1 else e.0;
      EndsConnected(g, t, e);
      var f := JoiningLink(t, s, x, y);
      t' := t - {f} + {e};
      ExchangePreserves(g, t, e, f, x, y);
      assert f !in a;
      ExchangeWeight(g, t, e, f);
    }
  }

  lemma EndsConnected(g: seq<seq<int>>, t: set<Link>, e: Link)
    requires Square(g) && Preserves(g, t) && e in Links(g)
    ensures Connected(t, e.0, e.1) && Connected(t, e.1, e.0)
  {
    ConnectedLink(Links(g), e.0, e.1);
    ConnectedSym(t, e.0, e.1);
  }

  lemma ExchangeWeight(g: seq<seq<int>>, t: set<Link>, e: Link, f: Link)
    requires Square(g) && t <= Links(g) && e in Links(g) && f in t && e !in t
    ensures Weight(g, t - {f} + {e}) == Weight(g, t) + g[e.0][e.1] - g[f.0][f.1] && |t - {f} + {e}| == |t|
  {
    assert t == t - {f} + {f};
    WeightAdd(g, t - {f}, f);
    WeightAdd(g, t - {f}, e);
  }

  lemma ExchangePreserves(g: seq<seq<int>>, t: set<Link>, e: Link, f: Link, x: nat, y: nat)
    requires Square(g) && Preserves(g, t) && f in t && e in Links(g) && (e == (x, y) || e == (y, x))
    requires (Connected(t - {f}, x, f.0) && Connected(t - {f}, f.1, y)) ||
             (Connected(t - {f}, x, f.1) && Connected(t - {f}, f.0, y))
    ensures Preserves(g, t - {f} + {e})
  {
    var t' := t - {f} + {e};
    forall a: nat, b: nat | a < |g| && b < |g| ensures Connected(t', a, b) <==> Connected(Links(g), a, b) {
      if Connected(t', a, b) {
        ConnectedMore(t', Links(g), a, b);
      }
      if Connected(Links(g), a, b) {
        ExchangeConnects(t, e, f, x, y, a, b);
      }
    }
  }

  lemma ExchangeConnects(t: set<Link>, e: Link, f: Link, x: nat, y: nat, a: nat, b: nat)
    requires f in t && (e == (x, y) || e == (y, x)) && Connected(t, a, b)
    requires (Connected(t - {f}, x, f.0) && Connected(t - {f}, f.1, y)) ||
             (Connected(t - {f}, x, f.1) && Connected(t - {f}, f.0, y))
    ensures Connected(t - {f} + {e}, a, b)
  {
    var t' := t - {f} + {e};
    forall p: nat, q: nat | Connected(t - {f}, p, q) ensures Connected(t', p, q) && Connected(t', q, p) {
      ConnectedMore(t - {f}, t', p, q);
      ConnectedSym(t', p, q);
    }
    assert Connected(t', x, y) by {
      forall s: set<nat> | Closed(t', s) && x in s ensures y in s { assert !Crosses(e, s); }
    }
    ConnectedSym(t', x, y);
    assert Connected(t', f.0, f.1);
    forall d | d in t ensures Connected(t', d.0, d.1) {
      if d != f {
        forall s: set<nat> | Closed(t', s) && d.0 in s ensures d.1 in s { assert !Crosses(d, s); }
      }
    }
    ConnectedReplace(t, t', a, b);
  }

  /** Adding a lightest link over a cut keeps the choice promising. */
  lemma PromisingGrows(g: seq<seq<int>>, a: set<Link>, s: set<nat>, e: Link)
    requires Square(g) && Promising(g, a) && LightestAcross(g, a, s, e)
    ensures Promising(g, a + {e}) && e !in a
  {
    forall t | SpanningForest(g, t)
      ensures Improvable(g, a + {e}, t)
    {
      assert Improvable(g, a, t);
      var t1 :| Improves(g, a, t, t1);
      var t2 := Exchange(g, a, s, e, t1);
      assert Improves(g, a + {e}, t, t2);
    }
  }

  /** All minimum spanning trees weigh the same. */
  lemma SameMinimum(g: seq<seq<int>>, t: set<Link>, u: set<Link>)
    requires Square(g) && MinimumSpanningTree(g, t) && MinimumSpanningTree(g, u)
    ensures Weight(g, t) == Weight(g, u)
  {
  }
}
