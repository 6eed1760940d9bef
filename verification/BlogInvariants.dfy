/// What every serialized run of the blog's use cases keeps, with cache entries vanishing at will.

module BlogInvariants {
  import opened Options
  import opened Decimals
  import opened Slugs
  import opened Ancestry
  import opened Blog

  // ---------- the invariant ----------

  ghost predicate IdsInRange(s: Store) {
    && (forall i :: i in s.articles ==> 0 < i < s.nextArticle)
    && (forall c :: c in s.categories ==> 0 < c < s.nextCategory)
    && s.nextArticle > 0 && s.nextCategory > 0
  }

  /** No slug is empty, no article has the category zero, and every parent id was issued. */
  ghost predicate RefsSound(s: Store) {
    && (forall i :: i in s.articles ==> s.articles[i].slug != "")
    && (forall i :: i in s.articles && s.articles[i].category.Some? ==> s.articles[i].category.value != 0)
    && (forall c :: c in s.categories && s.categories[c].parent.Some? ==>
          0 < s.categories[c].parent.value < s.nextCategory)
  }

  /** Every live article's category id was issued. */
  ghost predicate CategoriesIssued(s: Store) {
    forall i :: LiveArticle(s, i) && s.articles[i].category.Some? ==> s.articles[i].category.value < s.nextCategory
  }

  /** The unique index: live articles have distinct slugs. */
  ghost predicate SlugsUnique(s: Store) {
    forall i, j :: LiveArticle(s, i) && LiveArticle(s, j) && s.articles[i].slug == s.articles[j].slug ==> i == j
  }

  /** A live published article with this slug. */
  predicate PublishedUnder(s: Store, i: nat, slug: string) {
    LiveArticle(s, i) && s.articles[i].status.Published? && s.articles[i].slug == slug
  }

  /** A cached id was issued and, while it is live, has that slug; a null entry means that no
      live published article has it. */
  ghost predicate EntrySound(s: Store, slug: string) {
    slug in s.slugCache ==>
      match s.slugCache[slug]
      case Id(i) => i in s.articles && (LiveArticle(s, i) ==> s.articles[i].slug == slug)
      case Null => forall i: nat :: !PublishedUnder(s, i, slug)
  }

  ghost predicate CacheSound(s: Store) {
    forall slug :: EntrySound(s, slug)
  }

  /** The live published articles of a category. */
  function PublishedIn(s: Store, c: nat): set<nat> {
    set i | i in s.articles && Counted(s.articles[i], c)
  }

  predicate Counted(a: Article, c: nat) {
    !a.deleted && a.status.Published? && a.category == Some(c)
  }

  ghost predicate CountsExact(s: Store) {
    forall c :: LiveCategory(s, c) ==> s.categories[c].articleCount == |PublishedIn(s, c)|
  }

  ghost predicate TreeFresh(s: Store) {
    s.treeCache.Some? ==> s.treeCache.value == LiveCategories(s)
  }

  /** All but the article counts, which a use case adjusts after it has written the article. */
  ghost predicate Base(s: Store) {
    && IdsInRange(s)
    && RefsSound(s)
    && SlugsUnique(s)
    && CacheSound(s)
    && TreeFresh(s)
    && Acyclic(Links(s))
  }

  ghost predicate Inv(s: Store) {
    Base(s) && CountsExact(s)
  }

  /** The category ids in a request were issued before it. */
  predicate IdsIssued(s: Store, op: Op) {
    match op
    case Create(_, _, category) => category.Some? ==> category.value < s.nextCategory
    case Update(_, _, _, category) => category.Some? ==> category.value < s.nextCategory
    case ChangeCategory(_, _, _, _, parent, _) => parent.Some? ==> parent.value < s.nextCategory
    case _ => true
  }

  lemma EmptyInv()
    ensures Inv(EMPTY) && CategoriesIssued(EMPTY)
  {}

  // ---------- lookups ----------

  lemma {:induction false} FirstHolderIs(s: Store, slug: string, i: nat)
    ensures var h := FirstHolder(s, slug, i);
      match h
      case Some(j) => i <= j < s.nextArticle && LiveArticle(s, j) && s.articles[j].slug == slug
      case None => forall j :: i <= j < s.nextArticle ==> !(LiveArticle(s, j) && s.articles[j].slug == slug)
    decreases s.nextArticle - i
  {
    if i < s.nextArticle && !(LiveArticle(s, i) && s.articles[i].slug == slug) {
      FirstHolderIs(s, slug, i + 1);
    }
  }

  /** Through the cache, a slug finds no article with another slug, and always finds the live
      published article that has it. A live article is missed only behind a null entry. */
  lemma LookupCorrect(s: Store, slug: string)
    requires IdsInRange(s) && SlugsUnique(s) && CacheSound(s)
    ensures Lookup(s, slug).Some? ==>
      LiveArticle(s, Lookup(s, slug).value) && s.articles[Lookup(s, slug).value].slug == slug
    ensures forall i: nat :: PublishedUnder(s, i, slug) ==> Lookup(s, slug) == Some(i)
    ensures forall i: nat :: LiveArticle(s, i) && s.articles[i].slug == slug ==>
      (Lookup(s, slug) == Some(i) <==> !(slug in s.slugCache && s.slugCache[slug] == Null))
  {
    FirstHolderIs(s, slug, 0);
    assert EntrySound(s, slug);
  }

  /** A lookup changes no answer, its own included. */
  lemma LookupKeepsAnswers(s: Store, a: string, b: string)
    ensures Lookup(AfterLookup(s, a), b) == Lookup(s, b)
  {
    FirstHolderIs(s, a, 0);
    SameHolders(s, AfterLookup(s, a), b, 0);
  }

  lemma {:induction false} SameHolders(s: Store, s': Store, slug: string, i: nat)
    requires s'.articles == s.articles && s'.nextArticle == s.nextArticle
    ensures FirstHolder(s', slug, i) == FirstHolder(s, slug, i)
    decreases s.nextArticle - i
  {
    if i >= s.nextArticle {
    } else {
      SameHolders(s, s', slug, i + 1);
    }
  }

  lemma LookupKeepsCacheSound(s: Store, slug: string)
    requires IdsInRange(s) && CacheSound(s)
    ensures CacheSound(AfterLookup(s, slug))
  {
    var s' := AfterLookup(s, slug);
    FirstHolderIs(s, slug, 0);
    forall k ensures EntrySound(s', k) {
      assert EntrySound(s, k);
      forall i: nat ensures PublishedUnder(s', i, k) <==> PublishedUnder(s, i, k) {
      }
    }
  }

  // ---------- choosing a slug ----------

  /** The candidates are pairwise distinct. */
  lemma CandidatesDistinct(slug: string, i: nat, j: nat)
    requires Candidate(slug, i) == Candidate(slug, j)
    ensures i == j
  {
    assert forall k: nat :: k > 0 ==> |Candidate(slug, k)| > |slug|;
    if i > 0 && j > 0 {
      assert Candidate(slug, i)[|slug| + 1..] == Decimal(i + 1);
      assert Candidate(slug, j)[|slug| + 1..] == Decimal(j + 1);
      ParseOfDecimal(i + 1);
      ParseOfDecimal(j + 1);
    }
  }

  /** The lookup finds every candidate from the `i`-th up to the `k`-th. */
  predicate AllFound(s: Store, slug: string, i: nat, k: nat) {
    forall j: nat :: i <= j < k ==> Lookup(s, Candidate(slug, j)).Some?
  }

  lemma OneMoreFound(s: Store, slug: string, i: nat, k: nat)
    requires i < k && Lookup(s, Candidate(slug, i)).Some?
    requires AllFound(AfterLookup(s, Candidate(slug, i)), slug, i + 1, k)
    ensures AllFound(s, slug, i, k)
  {
    hide Lookup, AfterLookup, Candidate;
    forall j: nat | i <= j < k ensures Lookup(s, Candidate(slug, j)).Some? {
      if j > i {
        LookupKeepsAnswers(s, Candidate(slug, i), Candidate(slug, j));
      }
    }
  }

  /** It answers the first candidate from the `i`-th on that the lookup does not find, and
      nothing exactly when all up to the hundredth are found. */
  lemma {:induction false} UniqueFromIs(s: Store, slug: string, i: nat)
    requires i <= MAX_TRIES
    ensures match UniqueFrom(s, slug, i).1
      case Some(r) =>
        exists k: nat ::
          i <= k < MAX_TRIES && r == Candidate(slug, k) && Lookup(s, r).None? && AllFound(s, slug, i, k)
      case None => AllFound(s, slug, i, MAX_TRIES)
    decreases MAX_TRIES - i
  {
    hide Lookup, AfterLookup, Candidate;
    if i == MAX_TRIES {
    } else if Lookup(s, Candidate(slug, i)).None? {
      assert AllFound(s, slug, i, i);
    } else {
      var s' := AfterLookup(s, Candidate(slug, i));
      UniqueFromIs(s', slug, i + 1);
      hide AllFound;
      match UniqueFrom(s', slug, i + 1).1
      case Some(r) =>
        var k: nat :| i + 1 <= k < MAX_TRIES && r == Candidate(slug, k)
                      && Lookup(s', r).None? && AllFound(s', slug, i + 1, k);
        OneMoreFound(s, slug, i, k);
        LookupKeepsAnswers(s, Candidate(slug, i), r);
      case None =>
        OneMoreFound(s, slug, i, MAX_TRIES);
    }
  }

  lemma {:induction false} UniqueKeepsCacheSound(s: Store, slug: string, i: nat)
    requires IdsInRange(s) && CacheSound(s)
    ensures CacheSound(UniqueFrom(s, slug, i).0)
    decreases MAX_TRIES - i
  {
    if i >= MAX_TRIES {
    } else {
      LookupKeepsCacheSound(s, Candidate(slug, i));
      UniqueKeepsCacheSound(AfterLookup(s, Candidate(slug, i)), slug, i + 1);
    }
  }

  /** A slug that is chosen is held by no live published article. */
  lemma ChosenSlugIsFree(s: Store, slug: string)
    requires IdsInRange(s) && SlugsUnique(s) && CacheSound(s)
    ensures EnsureUnique(s, slug).1.Some? ==> forall i: nat :: !PublishedUnder(s, i, EnsureUnique(s, slug).1.value)
  {
    UniqueFromIs(s, slug, 0);
    if EnsureUnique(s, slug).1.Some? {
      LookupCorrect(s, EnsureUnique(s, slug).1.value);
    }
  }

  // ---------- writing articles ----------

  lemma PutKeepsCacheSound(s: Store, id: nat, a: Article)
    requires CacheSound(s) && LiveArticle(s, id) && s.articles[id].slug != "" && a.slug != ""
    ensures CacheSound(PutArticle(s, id, a))
  {
    var s' := PutArticle(s, id, a);
    forall k ensures EntrySound(s', k) {
      assert EntrySound(s, k);
      if k in s'.slugCache {
        forall i: nat ensures PublishedUnder(s', i, k) ==> PublishedUnder(s, i, k) {
        }
      }
    }
  }

  lemma PutIs(s: Store, id: nat, a: Article)
    requires id in s.articles
    ensures PutArticle(s, id, a) == s.(articles := s.articles[id := a], slugCache := PutArticle(s, id, a).slugCache)
  {}

  lemma PutKeepsSlugsUnique(s: Store, id: nat, a: Article)
    requires SlugsUnique(s) && id in s.articles && !SlugConflict(s, id, a.slug)
    ensures SlugsUnique(s.(articles := s.articles[id := a]))
  {}

  lemma PutKeepsBase(s: Store, id: nat, a: Article)
    requires Base(s) && LiveArticle(s, id) && a.slug != "" && !SlugConflict(s, id, a.slug)
    requires a.category.Some? ==> a.category.value != 0
    ensures Base(PutArticle(s, id, a))
  {
    PutKeepsCacheSound(s, id, a);
    PutKeepsSlugsUnique(s, id, a);
    PutIs(s, id, a);
    var s' := PutArticle(s, id, a);
    assert SlugsUnique(s') by {
      assert forall i :: LiveArticle(s', i) <==> LiveArticle(s.(articles := s.articles[id := a]), i);
    }
    hide CacheSound, Acyclic, PutArticle, SlugsUnique, SlugConflict;
    assert Links(s') == Links(s);
    assert LiveCategories(s') == LiveCategories(s);
  }

  /** Cache entries stay sound while articles and entries stay what they are, or articles that
      are not published under any cached slug come in. */
  lemma SameArticlesKeepCacheSound(s: Store, s': Store)
    requires CacheSound(s) && s'.slugCache == s.slugCache && s'.articles == s.articles
    ensures CacheSound(s')
  {
    forall k ensures EntrySound(s', k) {
      assert EntrySound(s, k);
      forall i: nat ensures PublishedUnder(s', i, k) <==> PublishedUnder(s, i, k) {
      }
    }
  }

  lemma SameArticlesKeepSlugsUnique(s: Store, s': Store)
    requires SlugsUnique(s) && s'.articles == s.articles
    ensures SlugsUnique(s')
  {
    assert forall i :: LiveArticle(s', i) <==> LiveArticle(s, i);
  }

  lemma AddCountKeepsBase(s: Store, category: Option<nat>, delta: int)
    requires Base(s)
    ensures Base(AddCountTo(s, category, delta))
  {
    var s' := AddCountTo(s, category, delta);
    SameArticlesKeepCacheSound(s, s');
    SameArticlesKeepSlugsUnique(s, s');
    AddCountKeepsLinks(s, category, delta);
    hide CacheSound, Acyclic, SlugsUnique, Links, LiveCategories;
  }

  lemma AddCountKeepsLinks(s: Store, category: Option<nat>, delta: int)
    ensures Links(AddCountTo(s, category, delta)) == Links(s)
  {}

  /** The count of category `c`, if it is live. */
  function CountOf(s: Store, c: nat): int {
    if LiveCategory(s, c) then s.categories[c].articleCount else 0
  }

  lemma AddCountIs(s: Store, category: Option<nat>, delta: int, c: nat)
    ensures var s' := AddCountTo(s, category, delta);
      && s'.articles == s.articles && (LiveCategory(s', c) <==> LiveCategory(s, c))
      && CountOf(s', c) == CountOf(s, c) + if category == Some(c) && LiveCategory(s, c) then delta else 0
  {}

  /** Writing one article changes the number of published ones in a category by that article. */
  lemma WriteCounts(s: Store, s': Store, id: nat, a: Article, c: nat)
    requires id in s.articles && s'.articles == s.articles[id := a]
    ensures |PublishedIn(s', c)| == |PublishedIn(s, c)|
            - (if Counted(s.articles[id], c) then 1 else 0) + (if Counted(a, c) then 1 else 0)
  {
    var rest := PublishedIn(s, c) - {id};
    assert PublishedIn(s, c) == if Counted(s.articles[id], c) then rest + {id} else rest;
    assert PublishedIn(s', c) == if Counted(a, c) then rest + {id} else rest;
  }

  /** The count of `c` moves with the article `id` turning into `a`. */
  ghost predicate CountFollows(s: Store, s': Store, id: nat, a: Article, c: nat)
    requires id in s.articles
  {
    LiveCategory(s', c) ==>
      && LiveCategory(s, c)
      && CountOf(s', c) == CountOf(s, c)
                           - (if Counted(s.articles[id], c) then 1 else 0) + (if Counted(a, c) then 1 else 0)
  }

  /** Counts stay exact if every live category's count moves with the article written. */
  lemma CountsFollow(s: Store, s': Store, id: nat, a: Article)
    requires CountsExact(s) && id in s.articles && s'.articles == s.articles[id := a]
    requires forall c: nat :: CountFollows(s, s', id, a, c)
    ensures CountsExact(s')
  {
    forall c | LiveCategory(s', c) ensures s'.categories[c].articleCount == |PublishedIn(s', c)| {
      WriteCounts(s, s', id, a, c);
      assert CountFollows(s, s', id, a, c);
      assert CountOf(s', c) == s'.categories[c].articleCount;
    }
  }

  /** Taking one off `less` and adding one to `more` is what an article turning from `a` into `b`
      does to the counts. */
  ghost predicate Moves(a: Article, b: Article, less: Option<nat>, more: Option<nat>) {
    forall c: nat :: (if Counted(b, c) then 1 else 0) - (if Counted(a, c) then 1 else 0)
                     == (if more == Some(c) then 1 else 0) - (if less == Some(c) then 1 else 0)
  }

  lemma CountFollowsMoves(s: Store, s1: Store, id: nat, a: Article, less: Option<nat>, more: Option<nat>, c: nat)
    requires id in s.articles && Moves(s.articles[id], a, less, more) && s1.categories == s.categories
    ensures CountFollows(s, AddCountTo(AddCountTo(s1, less, -1), more, 1), id, a, c)
  {
    hide AddCountTo, Counted;
    AddCountIs(s1, less, -1, c);
    AddCountIs(AddCountTo(s1, less, -1), more, 1, c);
  }

  /** Writing an article and then moving the counts with it keeps the invariant. */
  lemma WriteAndCountKeepsInv(s: Store, id: nat, a: Article, less: Option<nat>, more: Option<nat>)
    requires Inv(s) && LiveArticle(s, id) && a.slug != "" && !SlugConflict(s, id, a.slug)
    requires a.category.Some? ==> a.category.value != 0
    requires Moves(s.articles[id], a, less, more)
    ensures Inv(AddCountTo(AddCountTo(PutArticle(s, id, a), less, -1), more, 1))
  {
    hide Base, PutArticle, AddCountTo, SlugConflict, CountsExact, Moves;
    var s1 := PutArticle(s, id, a);
    var s2 := AddCountTo(s1, less, -1);
    var s3 := AddCountTo(s2, more, 1);
    PutKeepsBase(s, id, a);
    AddCountKeepsBase(s1, less, -1);
    AddCountKeepsBase(s2, more, 1);
    PutIs(s, id, a);
    forall c: nat ensures CountFollows(s, s3, id, a, c) {
      CountFollowsMoves(s, s1, id, a, less, more, c);
    }
    AddCountIs(s1, less, -1, 0);
    AddCountIs(s2, more, 1, 0);
    CountsFollow(s, s3, id, a);
  }

  lemma PublishKeepsInv(s: Store, u: User, id: nat)
    requires Inv(s)
    ensures Inv(PublishArticle(s, u, id).0)
  {
    if PublishArticle(s, u, id).1.Ok? {
      var a := s.articles[id].(status := Published);
      WriteAndCountKeepsInv(s, id, a, None, a.category);
    }
  }

  /** Archiving and deleting take a published article out of its category's count. */
  lemma WithdrawKeepsInv(s: Store, id: nat, a: Article)
    requires Inv(s) && LiveArticle(s, id)
    requires a == s.articles[id].(status := Archived) || a == s.articles[id].(deleted := true)
    requires !SlugConflict(s, id, a.slug)
    ensures var s1 := PutArticle(s, id, a);
      Inv(if s.articles[id].status.Published? then AddCountTo(s1, a.category, -1) else s1)
  {
    hide PutArticle, AddCount;
    var less := if s.articles[id].status.Published? then a.category else None;
    WriteAndCountKeepsInv(s, id, a, less, None);
  }

  lemma NoConflictWithItself(s: Store, id: nat)
    requires SlugsUnique(s) && LiveArticle(s, id)
    ensures !SlugConflict(s, id, s.articles[id].slug)
  {
    forall i | i in s.articles && i != id && !s.articles[i].deleted ensures s.articles[i].slug != s.articles[id].slug {
      assert LiveArticle(s, i);
    }
  }

  lemma ArchiveKeepsInv(s: Store, u: User, id: nat)
    requires Inv(s)
    ensures Inv(ArchiveArticle(s, u, id).0)
  {
    if Denied(s, u, id).None? && !s.articles[id].status.Archived? {
      NoConflictWithItself(s, id);
      WithdrawKeepsInv(s, id, s.articles[id].(status := Archived));
    }
  }

  lemma DeleteKeepsInv(s: Store, u: User, id: nat)
    requires Inv(s)
    ensures Inv(DeleteArticle(s, u, id).0)
  {
    if Denied(s, u, id).None? {
      NoConflictWithItself(s, id);
      WithdrawKeepsInv(s, id, s.articles[id].(deleted := true));
    }
  }

  lemma SlugLookupsKeepInv(s: Store, slug: string, i: nat)
    requires Inv(s)
    ensures Inv(UniqueFrom(s, slug, i).0)
  {
    UniqueKeepsCacheSound(s, slug, i);
    var s' := UniqueFrom(s, slug, i).0;
    assert Links(s') == Links(s) && LiveCategories(s') == LiveCategories(s);
    forall c: nat ensures PublishedIn(s', c) == PublishedIn(s, c) {
    }
  }

  lemma SlugChosenIsNotEmpty(s: Store, title: string)
    ensures EnsureUnique(s, Generate(title)).1.Some? ==> EnsureUnique(s, Generate(title)).1.value != ""
  {
    UniqueFromIs(s, Generate(title), 0);
  }

  lemma CreateKeepsInv(s: Store, u: User, title: string, category: Option<nat>)
    requires Inv(s)
    ensures Inv(CreateArticle(s, u, title, category).0)
  {
    var (s', slug) := EnsureUnique(s, Generate(title));
    SlugLookupsKeepInv(s, Generate(title), 0);
    SlugChosenIsNotEmpty(s, title);
    hide Inv, EnsureUnique, Generate, ByteLength, InsertDraft;
    if slug.Some? {
      InsertDraftKeepsInv(s', u, slug.value, category);
    }
  }

  lemma InsertDraftKeepsInv(s: Store, u: User, slug: string, category: Option<nat>)
    requires Inv(s) && slug != ""
    ensures u.Known? ==> Inv(InsertDraft(s, u.id, slug, category).0)
  {
    hide Inv;
    if u.Known? && !SlugConflict(s, s.nextArticle, slug) {
      InsertKeepsInv(s, Article(slug, Draft, u.id, Normalized(category), false));
    }
  }

  lemma InsertKeepsCacheSound(s: Store, a: Article, s': Store)
    requires CacheSound(s) && s.nextArticle !in s.articles && a.status.Draft?
    requires s'.slugCache == s.slugCache && s'.articles == s.articles[s.nextArticle := a]
    ensures CacheSound(s')
  {
    forall k ensures EntrySound(s', k) {
      assert EntrySound(s, k);
      forall i: nat ensures PublishedUnder(s', i, k) ==> PublishedUnder(s, i, k) {
      }
    }
  }

  lemma InsertKeepsInv(s: Store, a: Article)
    requires Inv(s) && a.status.Draft? && !a.deleted && a.slug != "" && !SlugConflict(s, s.nextArticle, a.slug)
    requires a.category.Some? ==> a.category.value != 0
    ensures Inv(s.(articles := s.articles[s.nextArticle := a], nextArticle := s.nextArticle + 1))
  {
    var id := s.nextArticle;
    var s' := s.(articles := s.articles[id := a], nextArticle := id + 1);
    InsertKeepsCacheSound(s, a, s');
    hide CacheSound, Acyclic;
    assert Links(s') == Links(s) && LiveCategories(s') == LiveCategories(s);
    forall c: nat ensures PublishedIn(s', c) == PublishedIn(s, c) {
    }
  }

  lemma WriteUpdateKeepsInv(s: Store, id: nat, slug: string, category: Option<nat>)
    requires Inv(s) && LiveArticle(s, id) && slug != ""
    ensures Inv(WriteUpdate(s, id, slug, category).0)
  {
    hide PutArticle, AddCount;
    if WriteUpdate(s, id, slug, category).1.Ok? {
      var a := s.articles[id];
      var b := a.(slug := slug, category := if category.None? then a.category else Normalized(category));
      var moves := category.Some? && a.status.Published?;
      WriteAndCountKeepsInv(s, id, b, if moves then a.category else None, if moves then b.category else None);
    }
  }

  lemma UpdateKeepsInv(s: Store, u: User, id: nat, title: Option<string>, category: Option<nat>)
    requires Inv(s)
    ensures Inv(UpdateArticle(s, u, id, title, category).0)
  {
    if Denied(s, u, id).None? {
      if title.Some? {
        SlugLookupsKeepInv(s, Generate(title.value), 0);
        SlugChosenIsNotEmpty(s, title.value);
      }
      var (s', slug) := NewSlug(s, id, title);
      assert slug.Some? ==> slug.value != "";
      hide Inv, NewSlug, ByteLength, WriteUpdate;
      if slug.Some? {
        WriteUpdateKeepsInv(s', id, slug.value, category);
      }
    }
  }

  // ---------- categories ----------

  lemma SetCategoryKeepsRest(s: Store, id: nat, c: Category, next: nat)
    requires Inv(s) && next >= s.nextCategory && 0 < id < next
    requires c.parent.Some? ==> 0 < c.parent.value < next
    requires !c.deleted ==> c.articleCount == |PublishedIn(s, id)|
    ensures var s' := s.(categories := s.categories[id := c], nextCategory := next, treeCache := None);
      (Acyclic(Links(s')) ==> Inv(s'))
  {
    var s' := s.(categories := s.categories[id := c], nextCategory := next, treeCache := None);
    SameArticlesKeepCacheSound(s, s');
    SameArticlesKeepSlugsUnique(s, s');
    hide CacheSound, Acyclic, SlugsUnique;
    forall k: nat ensures PublishedIn(s', k) == PublishedIn(s, k) {
    }
  }

  /** No article and no category refers to an id that was not issued. */
  lemma NewIdIsUnused(s: Store)
    requires IdsInRange(s) && RefsSound(s)
    ensures CategoriesIssued(s) ==> PublishedIn(s, s.nextCategory) == {}
    ensures forall x :: x in Links(s) && Links(s)[x].Some? ==> Links(s)[x].value != s.nextCategory
  {}

  lemma NewLinkKeepsAcyclic(s: Store, p: Option<nat>)
    requires IdsInRange(s) && RefsSound(s) && Acyclic(Links(s)) && (p.Some? ==> LiveCategory(s, p.value))
    ensures Acyclic(Links(s)[s.nextCategory := p])
  {
    NewIdIsUnused(s);
    var id := s.nextCategory;
    if p.Some? {
      if n: nat :| id in Chain(Links(s), p.value, n) {
        UnnamedIsOnNoChain(Links(s), p.value, id, n);
      }
    }
    LinkKeepsAcyclic(Links(s), id, p);
  }

  /** A new row with no articles, under a live parent or none. */
  lemma InsertCategoryKeepsInv(s: Store, c: Category)
    requires Inv(s) && CategoriesIssued(s) && !c.deleted && c.articleCount == 0
    requires c.parent.Some? ==> c.parent.value != 0 && LiveCategory(s, c.parent.value)
    ensures Inv(s.(categories := s.categories[s.nextCategory := c], nextCategory := s.nextCategory + 1,
                   treeCache := None))
  {
    var id := s.nextCategory;
    var s' := s.(categories := s.categories[id := c], nextCategory := id + 1, treeCache := None);
    NewIdIsUnused(s);
    NewLinkKeepsAcyclic(s, c.parent);
    assert Links(s') == Links(s)[id := c.parent];
    hide CacheSound, Acyclic, SlugsUnique, TreeFresh;
    SetCategoryKeepsRest(s, id, c, id + 1);
  }

  lemma NewCategoryKeepsInv(s: Store, u: User, name: string, slug: string, parent: Option<nat>, sortOrder: int)
    requires Inv(s) && CategoriesIssued(s)
    ensures Inv(CreateCategory(s, u, name, slug, parent, sortOrder).0)
  {
    hide Inv, CategoriesIssued, Generate, CategorySlugConflict;
    var r := CreateCategory(s, u, name, slug, parent, sortOrder);
    if r.1.Ok? {
      InsertCategoryKeepsInv(s, r.0.categories[s.nextCategory]);
    }
  }

  lemma ChangeCategoryKeepsInv(s: Store, u: User, id: nat, name: string, slug: string, parent: Option<nat>,
                               sortOrder: int)
    requires Inv(s) && (parent.Some? ==> parent.value < s.nextCategory)
    ensures Inv(UpdateCategory(s, u, id, name, slug, parent, sortOrder).0)
  {
    if UpdateCategory(s, u, id, name, slug, parent, sortOrder).1.Ok? {
      var s' := UpdateCategory(s, u, id, name, slug, parent, sortOrder).0;
      var p := Normalized(parent);
      if p.Some? {
        SafeMeansNotAncestor(Links(s), id, p.value, MAX_DEPTH);
      }
      LinkKeepsAcyclic(Links(s), id, p);
      assert Links(s') == Links(s)[id := p];
      SetCategoryKeepsRest(s, id, s'.categories[id], s.nextCategory);
    }
  }

  lemma RemoveCategoryKeepsInv(s: Store, u: User, id: nat)
    requires Inv(s)
    ensures Inv(DeleteCategory(s, u, id).0)
  {
    if DeleteCategory(s, u, id).1.Ok? {
      var s' := DeleteCategory(s, u, id).0;
      RemovalKeepsAcyclic(Links(s), id);
      assert Links(s') == Links(s) - {id};
      SetCategoryKeepsRest(s, id, s'.categories[id], s.nextCategory);
    }
  }

  // ---------- issued categories ----------

  /** An article is written, and its category was issued. */
  lemma WriteKeepsIssued(s: Store, s': Store, id: nat, a: Article)
    requires CategoriesIssued(s) && s'.articles == s.articles[id := a] && s'.nextCategory >= s.nextCategory
    requires !a.deleted && a.category.Some? ==> a.category.value < s.nextCategory
    ensures CategoriesIssued(s')
  {
    forall i | LiveArticle(s', i) && s'.articles[i].category.Some?
      ensures s'.articles[i].category.value < s'.nextCategory
    {
      if i != id {
        assert LiveArticle(s, i);
      }
    }
  }

  lemma SameArticlesKeepIssued(s: Store, s': Store)
    requires CategoriesIssued(s) && s'.articles == s.articles && s'.nextCategory >= s.nextCategory
    ensures CategoriesIssued(s')
  {
    assert forall i :: LiveArticle(s', i) <==> LiveArticle(s, i);
  }

  /** The counts leave the articles and the issued ids alone. */
  lemma AddCountKeepsArticles(s: Store, category: Option<nat>, delta: int)
    ensures AddCountTo(s, category, delta).articles == s.articles
    ensures AddCountTo(s, category, delta).nextCategory == s.nextCategory
  {}

  /** What a use case does to the articles: nothing, or one row with its old category or the one
      asked for. */
  ghost predicate WritesOne(s: Store, s': Store, id: nat, category: Option<nat>) {
    && s'.nextCategory == s.nextCategory
    && (s'.articles == s.articles
        || (id in s'.articles && s'.articles == s.articles[id := s'.articles[id]]
            && (s'.articles[id].category == Normalized(category)
                || (LiveArticle(s, id) && s'.articles[id].category == s.articles[id].category))))
  }

  lemma WritesOneKeepsIssued(s: Store, s': Store, id: nat, category: Option<nat>)
    requires CategoriesIssued(s) && WritesOne(s, s', id, category)
    requires category.Some? ==> category.value < s.nextCategory
    ensures CategoriesIssued(s')
  {
    if s'.articles == s.articles {
      SameArticlesKeepIssued(s, s');
    } else {
      assert LiveArticle(s, id) && s.articles[id].category.Some? ==> s.articles[id].category.value < s.nextCategory;
      hide CategoriesIssued;
      WriteKeepsIssued(s, s', id, s'.articles[id]);
    }
  }

  lemma CreateWritesOne(s: Store, u: User, title: string, category: Option<nat>)
    ensures WritesOne(s, CreateArticle(s, u, title, category).0, s.nextArticle, category)
  {
    hide UniqueFrom, Generate, ByteLength, SlugConflict;
  }

  lemma UpdateWritesOne(s: Store, u: User, id: nat, title: Option<string>, category: Option<nat>)
    ensures WritesOne(s, UpdateArticle(s, u, id, title, category).0, id, category)
  {
    if Denied(s, u, id).None? && NewSlug(s, id, title).1.Some? {
      var (s1, slug) := NewSlug(s, id, title);
      hide NewSlug, ByteLength;
      WriteUpdateWritesOne(s1, id, slug.value, category);
      hide WriteUpdate;
    }
  }

  lemma WriteUpdateWritesOne(s: Store, id: nat, slug: string, category: Option<nat>)
    requires LiveArticle(s, id)
    ensures WritesOne(s, WriteUpdate(s, id, slug, category).0, id, category)
  {
    var a := s.articles[id];
    var b := a.(slug := slug, category := if category.None? then a.category else Normalized(category));
    PutIs(s, id, b);
    AddCountKeepsArticles(PutArticle(s, id, b), a.category, -1);
    AddCountKeepsArticles(AddCountTo(PutArticle(s, id, b), a.category, -1), Normalized(category), 1);
    hide PutArticle, AddCountTo, SlugConflict;
  }

  lemma WriteThenCount(s: Store, id: nat, a: Article, category: Option<nat>, delta: int)
    requires id in s.articles
    ensures var s' := PutArticle(s, id, a); s'.articles == s.articles[id := a] && s'.nextCategory == s.nextCategory
    ensures var s' := AddCountTo(PutArticle(s, id, a), category, delta);
      s'.articles == s.articles[id := a] && s'.nextCategory == s.nextCategory
  {
    PutIs(s, id, a);
    AddCountKeepsArticles(PutArticle(s, id, a), category, delta);
    hide PutArticle, AddCountTo;
  }

  /** Publishing, archiving and deleting keep the category. */
  lemma StatusWritesOne(s: Store, u: User, id: nat)
    ensures WritesOne(s, PublishArticle(s, u, id).0, id, None)
    ensures WritesOne(s, ArchiveArticle(s, u, id).0, id, None)
    ensures WritesOne(s, DeleteArticle(s, u, id).0, id, None)
  {
    if Denied(s, u, id).None? {
      var a := s.articles[id];
      WriteThenCount(s, id, a.(status := Published), a.category, 1);
      WriteThenCount(s, id, a.(status := Archived), a.category, -1);
      WriteThenCount(s, id, a.(deleted := true), a.category, -1);
    }
    hide SlugConflict, PutArticle, AddCountTo;
  }

  /** Requests that name only issued category ids leave only issued ones in live articles. */
  lemma StepKeepsIssued(s: Store, op: Op)
    requires CategoriesIssued(s) && IdsIssued(s, op)
    ensures CategoriesIssued(Apply(s, op))
  {
    hide CategoriesIssued, WritesOne, CreateArticle, UpdateArticle, PublishArticle, ArchiveArticle, DeleteArticle;
    var s' := Apply(s, op);
    match op
    case Create(u, title, category) =>
      CreateWritesOne(s, u, title, category);
      WritesOneKeepsIssued(s, s', s.nextArticle, category);
    case Update(u, id, title, category) =>
      UpdateWritesOne(s, u, id, title, category);
      WritesOneKeepsIssued(s, s', id, category);
    case Publish(u, id) =>
      StatusWritesOne(s, u, id);
      WritesOneKeepsIssued(s, s', id, None);
    case Archive(u, id) =>
      StatusWritesOne(s, u, id);
      WritesOneKeepsIssued(s, s', id, None);
    case Delete(u, id) =>
      StatusWritesOne(s, u, id);
      WritesOneKeepsIssued(s, s', id, None);
    case _ => OtherKeepsIssued(s, op);
  }

  lemma OtherKeepsIssued(s: Store, op: Op)
    requires CategoriesIssued(s)
    requires !op.Create? && !op.Update? && !op.Publish? && !op.Archive? && !op.Delete?
    ensures CategoriesIssued(Apply(s, op))
  {
    hide CategoriesIssued, CategorySlugConflict, HasLiveChild, ParentDenied, Generate, FirstHolder;
    SameArticlesKeepIssued(s, Apply(s, op));
  }
}
