/// The blog's laws over whole runs of requests.

module BlogRuns {
  import opened Options
  import opened Slugs
  import opened Ancestry
  import opened Blog
  import opened BlogInvariants
  import T = CategoryTree

  /** Every request of the run names only category ids issued before it. */
  ghost predicate AllIssued(s: Store, ops: seq<Op>) {
    ops != [] ==>
      var before := ops[..|ops| - 1];
      AllIssued(s, before) && IdsIssued(Run(s, before), ops[|ops| - 1])
  }

  lemma ReadOnlyKeepsInv(s: Store, s': Store)
    requires Inv(s) && s' == s.(slugCache := s'.slugCache, treeCache := s'.treeCache)
    requires CacheSound(s') && TreeFresh(s')
    ensures Inv(s')
  {
    hide CacheSound, Acyclic;
    assert Links(s') == Links(s);
    forall c: nat ensures PublishedIn(s', c) == PublishedIn(s, c) {
    }
  }

  lemma ExpireKeepsInv(s: Store, slugs: set<string>)
    requires Inv(s)
    ensures Inv(s.(slugCache := s.slugCache - slugs))
  {
    var s' := s.(slugCache := s.slugCache - slugs);
    forall k ensures EntrySound(s', k) {
      assert EntrySound(s, k);
      forall i: nat ensures PublishedUnder(s', i, k) <==> PublishedUnder(s, i, k) {
      }
    }
    assert LiveCategories(s') == LiveCategories(s);
    ReadOnlyKeepsInv(s, s');
  }

  lemma FindSlugKeepsInv(s: Store, slug: string)
    requires Inv(s)
    ensures Inv(AfterLookup(s, slug))
  {
    LookupKeepsCacheSound(s, slug);
    assert LiveCategories(AfterLookup(s, slug)) == LiveCategories(s);
    ReadOnlyKeepsInv(s, AfterLookup(s, slug));
  }

  lemma TreeCacheKeepsInv(s: Store, tree: Option<map<nat, Category>>)
    requires Inv(s) && (tree.Some? ==> tree.value == LiveCategories(s))
    ensures Inv(s.(treeCache := tree))
  {
    var s' := s.(treeCache := tree);
    SameArticlesKeepCacheSound(s, s');
    assert LiveCategories(s') == LiveCategories(s);
    ReadOnlyKeepsInv(s, s');
  }

  lemma StepKeepsInv(s: Store, op: Op)
    requires Inv(s) && CategoriesIssued(s) && IdsIssued(s, op)
    ensures Inv(Apply(s, op))
  {
    hide Inv, CategoriesIssued, AfterLookup, CreateArticle, UpdateArticle, PublishArticle, ArchiveArticle,
         DeleteArticle, CreateCategory, UpdateCategory, DeleteCategory, LiveCategories;
    match op
    case FindSlug(slug) => FindSlugKeepsInv(s, slug);
    case Create(u, title, category) => CreateKeepsInv(s, u, title, category);
    case Update(u, id, title, category) => UpdateKeepsInv(s, u, id, title, category);
    case Publish(u, id) => PublishKeepsInv(s, u, id);
    case Archive(u, id) => ArchiveKeepsInv(s, u, id);
    case Delete(u, id) => DeleteKeepsInv(s, u, id);
    case NewCategory(u, name, slug, parent, order) => NewCategoryKeepsInv(s, u, name, slug, parent, order);
    case ChangeCategory(u, id, name, slug, parent, order) =>
      ChangeCategoryKeepsInv(s, u, id, name, slug, parent, order);
    case RemoveCategory(u, id) => RemoveCategoryKeepsInv(s, u, id);
    case ListCategories => if s.treeCache.None? { TreeCacheKeepsInv(s, Some(LiveCategories(s))); }
    case Expire(slugs) => ExpireKeepsInv(s, slugs);
    case ExpireTree => TreeCacheKeepsInv(s, None);
  }

  lemma {:induction false} RunKeepsInv(s: Store, ops: seq<Op>)
    requires Inv(s) && CategoriesIssued(s) && AllIssued(s, ops)
    ensures Inv(Run(s, ops)) && CategoriesIssued(Run(s, ops))
    decreases |ops|
  {
    hide Inv, CategoriesIssued, IdsIssued, Apply;
    if ops == [] {
    } else {
      var before := ops[..|ops| - 1];
      RunKeepsInv(s, before);
      StepKeepsInv(Run(s, before), ops[|ops| - 1]);
      StepKeepsIssued(Run(s, before), ops[|ops| - 1]);
    }
  }

  // ---------- what every run ends with ----------

  /** After any run, with any cache entries lost on the way: a slug finds only an article that has
      it, and always the live published article that has it; every live category's count is the
      number of live published articles in it; no category is its own ancestor; and the cached
      tree is the live one. */
  lemma EveryRun(ops: seq<Op>, slug: string)
    requires AllIssued(EMPTY, ops)
    ensures var s := Run(EMPTY, ops);
      && (Lookup(s, slug).Some? ==>
            LiveArticle(s, Lookup(s, slug).value) && s.articles[Lookup(s, slug).value].slug == slug)
      && (forall i: nat :: PublishedUnder(s, i, slug) ==> Lookup(s, slug) == Some(i))
      && (forall c :: LiveCategory(s, c) ==> s.categories[c].articleCount == |PublishedIn(s, c)|)
      && (forall id :: id in Links(s) && Links(s)[id].Some? ==> !OnChain(Links(s), Links(s)[id].value, id))
      && ReadTree(s).1 == LiveCategories(s)
  {
    EmptyInv();
    RunKeepsInv(EMPTY, ops);
    LookupCorrect(Run(EMPTY, ops), slug);
    AcyclicMeansNoCycle(Links(Run(EMPTY, ops)));
  }

  /** A childless live category is refused exactly when a live published article is in it. */
  lemma DeleteRefusesUsedCategories(s: Store, u: User, id: nat)
    requires Inv(s) && IsAdmin(u) && LiveCategory(s, id) && !HasLiveChild(s, id)
    ensures DeleteCategory(s, u, id).1 == Err(HasArticles)
            <==> exists i :: i in s.articles && Counted(s.articles[i], id)
  {
    assert s.categories[id].articleCount == |PublishedIn(s, id)|;
    if i :| i in s.articles && Counted(s.articles[i], id) {
      assert i in PublishedIn(s, id);
    } else {
      assert PublishedIn(s, id) == {};
    }
  }

  /** What a re-parenting of a live category under `p` answers, when nothing else is wrong:
      "circular" exactly when the category is among the first hundred of the new parent's chain,
      the depth error exactly when it is not and that chain has more than a hundred ids, and
      otherwise acceptance, which puts it under a chain it is not on. */
  lemma ReparentAnswers(s: Store, u: User, id: nat, name: string, slug: string, p: nat, sortOrder: int)
    requires IsAdmin(u) && LiveCategory(s, id) && name != "" && slug != "" && p != 0 && p != id
    requires !CategorySlugConflict(s, id, slug)
    ensures var r := UpdateCategory(s, u, id, name, slug, Some(p), sortOrder).1;
      && (r == Err(CircularRef) <==> id in Chain(Links(s), p, MAX_DEPTH))
      && (r == Err(Error.TooDeep) <==> id !in Chain(Links(s), p, MAX_DEPTH) && !EndsBy(Links(s), p, MAX_DEPTH + 1))
      && (r == Ok(id) <==> !OnChain(Links(s), p, id) && EndsBy(Links(s), p, MAX_DEPTH + 1))
  {
    ClimbFinds(Links(s), id, p, MAX_DEPTH);
    if Climbing(Links(s), id, p, MAX_DEPTH) == Safe {
      SafeMeansNotAncestor(Links(s), id, p, MAX_DEPTH);
    }
  }

  // ---------- the tree in every run ----------

  function RowOf(s: Store, c: nat): T.Row
    requires c in s.categories
  {
    T.Row(c, s.categories[c].parent, s.categories[c].sortOrder)
  }

  /** What the query of all categories returns, in some order. */
  ghost predicate ListsLive(s: Store, rows: seq<T.Row>) {
    && T.DistinctIds(rows)
    && (forall r :: r in rows ==> LiveCategory(s, r.id) && r == RowOf(s, r.id))
    && (forall c :: LiveCategory(s, c) ==> RowOf(s, c) in rows)
  }

  lemma RowsHaveTheLinks(s: Store, rows: seq<T.Row>)
    requires RefsSound(s) && ListsLive(s, rows)
    ensures T.ParentsOf(rows) == Links(s)
  {
    var m := T.ParentsOf(rows);
    forall c: nat ensures c in m <==> c in Links(s) {
      if LiveCategory(s, c) {
        var i :| 0 <= i < |rows| && rows[i] == RowOf(s, c);
        assert rows[i].id in m;
      }
      if c in m {
        var i :| 0 <= i < |rows| && rows[i].id == c;
        assert rows[i] in rows;
      }
    }
    forall c | c in m ensures m[c] == Links(s)[c] {
      var i :| 0 <= i < |rows| && rows[i].id == c;
      assert rows[i] in rows;
    }
  }

  /** After any run, the tree built from the live categories shows each of them exactly once. */
  lemma EveryTreeIsWhole(ops: seq<Op>, rows: seq<T.Row>, f: T.Forest)
    requires AllIssued(EMPTY, ops) && ListsLive(Run(EMPTY, ops), rows) && T.IsForest(rows, T.Roots(rows), f)
    ensures multiset(T.Flatten(f)) == multiset(rows)
  {
    EmptyInv();
    RunKeepsInv(EMPTY, ops);
    RowsHaveTheLinks(Run(EMPTY, ops), rows);
    T.ForestShowsAllRows(rows, f);
  }

  // ---------- parents that were never issued ----------

  const ADMIN := Known(1, true)

  lemma {:induction false} LongerSlug(s: Store, ids: set<nat>) returns (n: nat)
    requires ids <= s.categories.Keys
    ensures n > 0 && forall c :: c in ids ==> |s.categories[c].slug| < n
  {
    n := 1;
    if ids == {} {
    } else {
      var c :| c in ids;
      var m := LongerSlug(s, ids - {c});
      n := m + |s.categories[c].slug| + 1;
    }
  }

  lemma {:induction false} RunOne(s: Store, op: Op, ops: seq<Op>)
    ensures Run(s, [op] + ops) == Run(Apply(s, op), ops)
    ensures IdsIssued(s, op) && AllIssued(Apply(s, op), ops) ==> AllIssued(s, [op] + ops)
    decreases |ops|
  {
    hide Apply, IdsIssued;
    if ops == [] {
      assert [op] + ops == [op] && [op][..0] == [];
    } else {
      var last := |ops| - 1;
      assert ([op] + ops)[..|ops|] == [op] + ops[..last];
      assert ([op] + ops)[|ops|] == ops[last];
      RunOne(s, op, ops[..last]);
    }
  }

  /** A new category goes in under any live parent, or none, with a slug nobody has. */
  lemma AnyCategoryGoesIn(s: Store, parent: Option<nat>) returns (op: Op)
    requires parent.Some? ==> LiveCategory(s, parent.value) && parent.value != 0
    ensures op.NewCategory?
    ensures Apply(s, op).nextCategory == s.nextCategory + 1 && Apply(s, op).articles == s.articles
    ensures exists c :: Apply(s, op).categories == s.categories[s.nextCategory := c]
                        && c.parent == parent && !c.deleted && c.articleCount == 0
  {
    var n := LongerSlug(s, s.categories.Keys);
    var slug := seq(n, _ => 'x');
    op := NewCategory(ADMIN, "x", slug, parent, 0);
    assert !CategorySlugConflict(s, s.nextCategory, slug);
    var c := Category("x", slug, parent, 0, 0, false);
    assert Apply(s, op).categories == s.categories[s.nextCategory := c];
  }

  lemma RootGoesIn(s: Store) returns (op: Op)
    ensures IdsIssued(s, op)
    ensures var s' := Apply(s, op);
      && s'.nextCategory == s.nextCategory + 1 && s'.articles == s.articles
      && LiveCategory(s', s.nextCategory) && s'.categories[s.nextCategory].articleCount == 0
      && forall c :: c in s.categories && c < s.nextCategory ==>
           c in s'.categories && s'.categories[c] == s.categories[c]
  {
    op := AnyCategoryGoesIn(s, None);
    hide Apply;
  }

  /** Creating root categories reaches any later id, gives them no articles, and leaves the old
      rows alone. */
  lemma {:induction false} IssueUpTo(s: Store, p: nat) returns (ops: seq<Op>)
    requires s.nextCategory <= p
    ensures AllIssued(s, ops) && Run(s, ops).nextCategory == p
    ensures forall c :: c in s.categories && c < s.nextCategory ==>
      c in Run(s, ops).categories && Run(s, ops).categories[c] == s.categories[c]
    ensures Run(s, ops).articles == s.articles
    ensures forall c :: s.nextCategory <= c < p ==>
      LiveCategory(Run(s, ops), c) && Run(s, ops).categories[c].articleCount == 0
    decreases p - s.nextCategory
  {
    hide Apply, IdsIssued;
    if s.nextCategory == p {
      ops := [];
    } else {
      var op := RootGoesIn(s);
      var more := IssueUpTo(Apply(s, op), p);
      RunOne(s, op, more);
      ops := [op] + more;
    }
  }

  /** A live category whose parent id is issued later ends on a cycle in some run. */
  lemma UnissuedParentClosesCycle(s: Store, id: nat, p: nat) returns (ops: seq<Op>)
    requires IdsInRange(s) && LiveCategory(s, id) && s.categories[id].parent == Some(p) && p >= s.nextCategory
    ensures AllIssued(s, ops) && !Acyclic(Links(Run(s, ops)))
  {
    var fill := IssueUpTo(s, p);
    var s1 := Run(s, fill);
    var op := AnyCategoryGoesIn(s1, Some(id));
    ops := fill + [op];
    assert ops[..|ops| - 1] == fill;
    var m := Links(Apply(s1, op));
    assert id in Apply(s1, op).categories && p in Apply(s1, op).categories;
    assert id in m && m[id] == Some(p) && p in m && m[p] == Some(id);
    assert Chain(m, p, 2) == [p] + Chain(m, id, 1) == [p, id];
    assert OnChain(m, m[id].value, id);
    AcyclicMeansNoCycle(m);
  }

  /** An accepted re-parenting is safe for all runs to come exactly when the new parent id has
      already been issued: the climb takes an absent parent for a safe one. */
  lemma ReparentSafeIffIssued(s: Store, u: User, id: nat, name: string, slug: string, p: nat, sortOrder: int)
    requires Inv(s) && CategoriesIssued(s) && p != 0
    requires UpdateCategory(s, u, id, name, slug, Some(p), sortOrder).1.Ok?
    ensures var s' := UpdateCategory(s, u, id, name, slug, Some(p), sortOrder).0;
      (forall ops :: AllIssued(s', ops) ==> Acyclic(Links(Run(s', ops)))) <==> p < s.nextCategory
  {
    var s' := UpdateCategory(s, u, id, name, slug, Some(p), sortOrder).0;
    if p < s.nextCategory {
      ChangeCategoryKeepsInv(s, u, id, name, slug, Some(p), sortOrder);
      StepKeepsIssued(s, ChangeCategory(u, id, name, slug, Some(p), sortOrder));
      forall ops | AllIssued(s', ops) ensures Acyclic(Links(Run(s', ops))) {
        RunKeepsInv(s', ops);
      }
    } else {
      var ops := UnissuedParentClosesCycle(s', id, p);
    }
  }

  // ---------- articles in categories that were never issued ----------

  /** An administrator can publish any live article, which is counted nowhere while its category
      does not exist. */
  lemma PublishUncounted(s: Store, i: nat, c: nat) returns (ops: seq<Op>)
    requires SlugsUnique(s) && LiveArticle(s, i) && s.articles[i].category == Some(c) && c !in s.categories
    ensures AllIssued(s, ops) && Run(s, ops).categories == s.categories && Run(s, ops).nextCategory == s.nextCategory
    ensures i in Run(s, ops).articles && Counted(Run(s, ops).articles[i], c)
  {
    if s.articles[i].status.Published? {
      ops := [];
    } else {
      NoConflictWithItself(s, i);
      assert Denied(s, ADMIN, i).None?;
      RunOne(s, Op.Publish(ADMIN, i), []);
      ops := [Op.Publish(ADMIN, i)];
      assert [Op.Publish(ADMIN, i)] + [] == ops;
    }
  }

  /** A live article whose category is issued later is missed by that category's count. */
  lemma UnissuedCategoryMiscounts(s: Store, i: nat) returns (ops: seq<Op>)
    requires IdsInRange(s) && SlugsUnique(s) && LiveArticle(s, i)
    requires s.articles[i].category.Some? && s.articles[i].category.value >= s.nextCategory
    ensures AllIssued(s, ops) && !CountsExact(Run(s, ops))
  {
    var c := s.articles[i].category.value;
    var publish := PublishUncounted(s, i, c);
    var s1 := Run(s, publish);
    var fill := IssueUpTo(s1, c + 1);
    RunBoth(s, publish, fill);
    ops := publish + fill;
    MissedByCount(Run(s, ops), i, c);
  }

  lemma MissedByCount(s: Store, i: nat, c: nat)
    requires LiveCategory(s, c) && s.categories[c].articleCount == 0 && i in s.articles && Counted(s.articles[i], c)
    ensures !CountsExact(s)
  {
    assert i in PublishedIn(s, c);
  }

  lemma {:induction false} RunBoth(s: Store, ops: seq<Op>, more: seq<Op>)
    ensures Run(s, ops + more) == Run(Run(s, ops), more)
    ensures AllIssued(s, ops) && AllIssued(Run(s, ops), more) ==> AllIssued(s, ops + more)
    decreases |more|
  {
    hide Apply, IdsIssued;
    if more == [] {
      assert ops + more == ops;
    } else {
      var last := |more| - 1;
      assert (ops + more)[..|ops| + last] == ops + more[..last];
      RunBoth(s, ops, more[..last]);
    }
  }

  /** The counts stay exact in all runs to come exactly when every live article's category id has
      already been issued: the code takes any id for a category. */
  lemma CountsExactIffIssued(s: Store)
    requires Inv(s)
    ensures (forall ops :: AllIssued(s, ops) ==> CountsExact(Run(s, ops))) <==> CategoriesIssued(s)
  {
    hide CountsExact, AllIssued, Acyclic, CacheSound, TreeFresh, RefsSound;
    if CategoriesIssued(s) {
      forall ops | AllIssued(s, ops) ensures CountsExact(Run(s, ops)) {
        RunKeepsInv(s, ops);
      }
    } else {
      var i :| LiveArticle(s, i) && s.articles[i].category.Some? && s.articles[i].category.value >= s.nextCategory;
      var ops := UnissuedCategoryMiscounts(s, i);
    }
  }

  /** So an accepted create or update that names a category keeps the counts exact in all runs to
      come exactly when that id has already been issued. */
  lemma CreateKeepsExactIff(s: Store, u: User, title: string, c: nat)
    requires Inv(s) && CategoriesIssued(s) && CreateArticle(s, u, title, Some(c)).1.Ok?
    ensures var s' := CreateArticle(s, u, title, Some(c)).0;
      (forall ops :: AllIssued(s', ops) ==> CountsExact(Run(s', ops))) <==> c < s.nextCategory
  {
    var s' := CreateArticle(s, u, title, Some(c)).0;
    CreateKeepsInv(s, u, title, Some(c));
    CountsExactIffIssued(s');
    CreateWritesOne(s, u, title, Some(c));
    CreateStores(s, u, title, c);
    hide Inv, CreateArticle, CountsExact, AllIssued;
    if c < s.nextCategory {
      WritesOneKeepsIssued(s, s', s.nextArticle, Some(c));
    }
  }

  lemma CreateStores(s: Store, u: User, title: string, c: nat)
    requires IdsInRange(s) && CreateArticle(s, u, title, Some(c)).1.Ok?
    ensures var s' := CreateArticle(s, u, title, Some(c)).0;
      && s'.nextCategory == s.nextCategory && LiveArticle(s', s.nextArticle)
      && s'.articles[s.nextArticle].category == Normalized(Some(c))
  {
    hide UniqueFrom, Generate, SlugConflict, ByteLength;
  }

  lemma UpdateKeepsExactIff(s: Store, u: User, id: nat, title: Option<string>, c: nat)
    requires Inv(s) && CategoriesIssued(s) && UpdateArticle(s, u, id, title, Some(c)).1.Ok?
    ensures var s' := UpdateArticle(s, u, id, title, Some(c)).0;
      (forall ops :: AllIssued(s', ops) ==> CountsExact(Run(s', ops))) <==> c < s.nextCategory
  {
    var s' := UpdateArticle(s, u, id, title, Some(c)).0;
    UpdateKeepsInv(s, u, id, title, Some(c));
    CountsExactIffIssued(s');
    UpdateWritesOne(s, u, id, title, Some(c));
    UpdateStores(s, u, id, title, c);
    hide Inv, UpdateArticle, CountsExact, AllIssued;
    if c < s.nextCategory {
      WritesOneKeepsIssued(s, s', id, Some(c));
    }
  }

  lemma UpdateStores(s: Store, u: User, id: nat, title: Option<string>, c: nat)
    requires IdsInRange(s) && UpdateArticle(s, u, id, title, Some(c)).1.Ok?
    ensures var s' := UpdateArticle(s, u, id, title, Some(c)).0;
      && s'.nextCategory == s.nextCategory && LiveArticle(s', id) && s'.articles[id].category == Normalized(Some(c))
  {
    var (s1, slug) := NewSlug(s, id, title);
    var a := s1.articles[id];
    var b := a.(slug := slug.value, category := Normalized(Some(c)));
    WriteThenCount(s1, id, b, None, 0);
    AddCountKeepsArticles(PutArticle(s1, id, b), a.category, -1);
    AddCountKeepsArticles(AddCountTo(PutArticle(s1, id, b), a.category, -1), Normalized(Some(c)), 1);
    hide NewSlug, SlugConflict, ByteLength, PutArticle, AddCountTo;
  }
}
