/// Parent links between live categories: ancestor chains, the depth-bounded climb that guards
/// re-parenting, and why no run of accepted changes closes a cycle.

module Ancestry {
  import opened Options

  /** The live categories, each with its parent id if it has one. A parent id need not be live. */
  type Parents = map<nat, Option<nat>>

  /** The first `n` ids of the chain that starts at `id` and follows parent ids; the chain ends
      at a root or at an id that is not live. */
  function Chain(m: Parents, id: nat, n: nat): (c: seq<nat>)
    ensures |c| <= n
    decreases n
  {
    if n == 0 then []
    else if id in m && m[id].Some? then [id] + Chain(m, m[id].value, n - 1)
    else [id]
  }

  /** The whole chain of `id` has fewer than `n` ids. */
  predicate EndsBy(m: Parents, id: nat, n: nat) {
    |Chain(m, id, n)| < n
  }

  /** `self` is `id` itself or one of its ancestors. */
  ghost predicate OnChain(m: Parents, id: nat, self: nat) {
    exists n: nat :: self in Chain(m, id, n)
  }

  ghost predicate Ends(m: Parents, id: nat) {
    exists n: nat :: EndsBy(m, id, n)
  }

  /** Every ancestor chain comes to an end. */
  ghost predicate Acyclic(m: Parents) {
    forall id :: id in m ==> Ends(m, id)
  }

  // ---------- chains ----------

  lemma {:induction false} EndedChain(m: Parents, id: nat, n: nat, k: nat)
    requires EndsBy(m, id, n) && n <= k
    ensures Chain(m, id, k) == Chain(m, id, n) && EndsBy(m, id, k)
    decreases n
  {
    if n > 1 && id in m && m[id].Some? {
      EndedChain(m, m[id].value, n - 1, k - 1);
    }
  }

  lemma {:induction false} ChainGrows(m: Parents, id: nat, n: nat, k: nat)
    requires n <= k
    ensures Chain(m, id, n) <= Chain(m, id, k)
    decreases n
  {
    if n > 0 && id in m && m[id].Some? {
      ChainGrows(m, m[id].value, n - 1, k - 1);
    }
  }

  /** An ended chain holds all ancestors there are. */
  lemma EndedChainIsWhole(m: Parents, id: nat, self: nat, n: nat)
    requires EndsBy(m, id, n)
    ensures OnChain(m, id, self) <==> self in Chain(m, id, n)
  {
    if k: nat :| self in Chain(m, id, k) {
      if k < n {
        ChainGrows(m, id, k, n);
      } else {
        EndedChain(m, id, n, k);
      }
    }
  }

  /** A chain that ends passes no id twice: a live category is not its own proper ancestor. */
  lemma {:induction false} NotOwnAncestor(m: Parents, id: nat)
    requires Ends(m, id) && id in m && m[id].Some?
    ensures !OnChain(m, m[id].value, id)
  {
    var n: nat :| EndsBy(m, id, n);
    if k: nat :| id in Chain(m, m[id].value, k) {
      EndedChain(m, id, n, n + 1);
      ChainOfAncestor(m, m[id].value, id, k, n);
      assert false;
    }
  }

  /** The chain of an ancestor is no longer. */
  lemma {:induction false} ChainOfAncestor(m: Parents, x: nat, y: nat, k: nat, n: nat)
    requires y in Chain(m, x, k) && EndsBy(m, x, n)
    ensures EndsBy(m, y, n) && |Chain(m, y, n)| <= |Chain(m, x, n)|
    decreases n
  {
    if y != x {
      ChainOfAncestor(m, m[x].value, y, k - 1, n - 1);
      EndedChain(m, y, n - 1, n);
    }
  }

  /** A chain that never ends passes some category twice. */
  lemma {:induction false} EndlessChainRepeats(m: Parents, x: nat, n: nat, seen: set<nat>) returns (y: nat)
    requires !EndsBy(m, x, n) && |m| + 1 < n + |seen| && seen <= m.Keys
    requires forall z :: z in seen ==> z in m && m[z].Some? && OnChain(m, m[z].value, x)
    ensures y in m && m[y].Some? && OnChain(m, m[y].value, y)
    decreases n
  {
    if x in seen {
      y := x;
    } else {
      SubsetSize(seen, m.Keys);
      assert m[x].value in Chain(m, m[x].value, 1);
      forall z | z in seen ensures OnChain(m, m[z].value, m[x].value) {
        var k: nat :| x in Chain(m, m[z].value, k);
        OneFurther(m, m[z].value, x, k);
      }
      y := EndlessChainRepeats(m, m[x].value, n - 1, seen + {x});
    }
  }

  lemma {:induction false} OneFurther(m: Parents, x: nat, y: nat, k: nat)
    requires y in Chain(m, x, k) && y in m && m[y].Some?
    ensures m[y].value in Chain(m, x, k + 1)
    decreases k
  {
    if y == x {
      assert m[y].value in Chain(m, m[y].value, k);
    } else {
      OneFurther(m, m[x].value, y, k - 1);
    }
  }

  lemma {:induction false} SubsetSize(a: set<nat>, b: set<nat>)
    requires a <= b
    ensures |a| <= |b|
  {
    if a == {} {
    } else {
      var x :| x in a;
      SubsetSize(a - {x}, b - {x});
    }
  }

  /** "Every chain ends" says exactly that no category is its own proper ancestor. */
  lemma AcyclicMeansNoCycle(m: Parents)
    ensures Acyclic(m) <==> forall id :: id in m && m[id].Some? ==> !OnChain(m, m[id].value, id)
  {
    if Acyclic(m) {
      forall id | id in m && m[id].Some? ensures !OnChain(m, m[id].value, id) {
        NotOwnAncestor(m, id);
      }
    } else {
      var x :| x in m && !Ends(m, x);
      assert !EndsBy(m, x, |m| + 2);
      var y := EndlessChainRepeats(m, x, |m| + 2, {});
    }
  }

  // ---------- the climb that guards a re-parenting ----------

  datatype Climb = Safe | Circular | TooDeep

  /** What the climb from `id` finds within `n` categories. */
  function Climbing(m: Parents, self: nat, id: nat, n: nat): Climb
    decreases n
  {
    if n == 0 then TooDeep
    else if id == self then Circular
    else if id !in m || m[id].None? then Safe
    else Climbing(m, self, m[id].value, n - 1)
  }

  /** "Circular" is found exactly when the category is among the first `n` of the chain, and the
      depth error exactly when it is not and the chain has more than `n` ids. */
  lemma {:induction false} ClimbFinds(m: Parents, self: nat, id: nat, n: nat)
    ensures Climbing(m, self, id, n) == Circular <==> self in Chain(m, id, n)
    ensures Climbing(m, self, id, n) == TooDeep <==> self !in Chain(m, id, n) && !EndsBy(m, id, n + 1)
    decreases n
  {
    if n > 0 && id != self && id in m && m[id].Some? {
      ClimbFinds(m, self, m[id].value, n - 1);
    }
  }

  /** A re-parenting that passes the climb puts a category under a chain it is not on. */
  lemma SafeMeansNotAncestor(m: Parents, self: nat, id: nat, n: nat)
    requires Climbing(m, self, id, n) == Safe
    ensures !OnChain(m, id, self) && EndsBy(m, id, n + 1)
  {
    ClimbFinds(m, self, id, n);
    EndedChainIsWhole(m, id, self, n + 1);
    if EndsBy(m, id, n) {
      EndedChain(m, id, n, n + 1);
    } else {
      ChainGrows(m, id, n, n + 1);
    }
  }

  // ---------- changes keep every chain finite ----------

  /** `id` gets the parent `p`, whose chain ends without passing `id`. */
  lemma {:induction false} RelinkEnds(m: Parents, id: nat, p: Option<nat>, x: nat, n: nat)
    requires EndsBy(m, x, n)
    requires p.Some? ==> Ends(m, p.value) && !OnChain(m, p.value, id)
    ensures Ends(m[id := p], x)
    decreases n
  {
    var m' := m[id := p];
    if x == id {
      if p.Some? {
        var k: nat :| EndsBy(m, p.value, k);
        SameChain(m, m', p.value, id, k);
        assert EndsBy(m', id, k + 1);
      } else {
        assert EndsBy(m', id, 2);
      }
    } else if x in m && m[x].Some? {
      RelinkEnds(m, id, p, m[x].value, n - 1);
      var k: nat :| EndsBy(m', m[x].value, k);
      assert EndsBy(m', x, k + 1);
    } else {
      assert EndsBy(m', x, 2);
    }
  }

  /** A chain that does not pass `id` does not see how `id` is linked. */
  lemma {:induction false} SameChain(m: Parents, m': Parents, x: nat, id: nat, n: nat)
    requires !OnChain(m, x, id) && m - {id} == m' - {id}
    ensures Chain(m', x, n) == Chain(m, x, n)
    decreases n
  {
    if n == 0 {
    } else {
      assert id !in Chain(m, x, 1);
      assert x in m <==> x in m - {id};
      assert x in m' <==> x in m' - {id};
      if x in m && m[x].Some? {
        assert (m - {id})[x] == (m' - {id})[x];
        if k: nat :| id in Chain(m, m[x].value, k) {
          assert id in Chain(m, x, k + 1);
        }
        SameChain(m, m', m[x].value, id, n - 1);
      }
    }
  }

  /** An id that no live category names as its parent is on no other chain. */
  lemma {:induction false} UnnamedIsOnNoChain(m: Parents, x: nat, id: nat, n: nat)
    requires x != id && forall y :: y in m && m[y].Some? ==> m[y].value != id
    ensures id !in Chain(m, x, n)
    decreases n
  {
    if n > 0 && x in m && m[x].Some? {
      UnnamedIsOnNoChain(m, m[x].value, id, n - 1);
    }
  }

  /** Linking below a chain that does not pass the category keeps every chain finite, for a new
      category as for an old one. */
  lemma LinkKeepsAcyclic(m: Parents, id: nat, p: Option<nat>)
    requires Acyclic(m)
    requires p.Some? ==> !OnChain(m, p.value, id)
    ensures Acyclic(m[id := p])
  {
    if p.Some? {
      EndsAnyway(m, p.value);
    }
    var m' := m[id := p];
    forall x | x in m' ensures Ends(m', x) {
      EndsAnyway(m, x);
      var n: nat :| EndsBy(m, x, n);
      RelinkEnds(m, id, p, x, n);
    }
  }

  lemma EndsAnyway(m: Parents, x: nat)
    requires Acyclic(m)
    ensures Ends(m, x)
  {
    if x !in m {
      assert EndsBy(m, x, 2);
    }
  }

  /** Removing a category cuts chains short. */
  lemma {:induction false} RemovalEnds(m: Parents, id: nat, x: nat, n: nat)
    requires EndsBy(m, x, n)
    ensures EndsBy(m - {id}, x, n)
    decreases n
  {
    if x in m - {id} && m[x].Some? {
      RemovalEnds(m, id, m[x].value, n - 1);
    }
  }

  lemma RemovalKeepsAcyclic(m: Parents, id: nat)
    requires Acyclic(m)
    ensures Acyclic(m - {id})
  {
    var m' := m - {id};
    forall x | x in m' ensures Ends(m', x) {
      var n: nat :| EndsBy(m, x, n);
      RemovalEnds(m, id, x, n);
    }
  }

  /** Finitely many chains that all end are all shorter than some bound. */
  lemma {:induction false} CommonBound(m: Parents, ids: set<nat>) returns (n: nat)
    requires forall id :: id in ids ==> Ends(m, id)
    ensures forall id :: id in ids ==> EndsBy(m, id, n)
  {
    if ids == {} {
      n := 0;
    } else {
      var id :| id in ids;
      var a := CommonBound(m, ids - {id});
      var b: nat :| EndsBy(m, id, b);
      n := a + b;
      forall x | x in ids ensures EndsBy(m, x, n) {
        EndedChain(m, x, if x == id then b else a, n);
      }
    }
  }
}
