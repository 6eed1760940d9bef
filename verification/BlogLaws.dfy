/// What the requests of the blog answer, to whom, and what exactly they change.

module BlogLaws {
  import opened Options
  import opened Decimals
  import opened Slugs
  import opened Ancestry
  import opened Blog
  import opened BlogInvariants

  // ---------- who may change an article ----------

  /** The author of the article, or an admin. */
  predicate MayTouch(s: Store, u: User, id: nat) {
    u.Known? && id in s.articles && !s.articles[id].deleted && (s.articles[id].author == u.id || u.admin)
  }

  /** A request on an article and who makes it. */
  datatype Touch = Touch(u: User, id: nat)

  function TouchOf(op: Op): Option<Touch> {
    match op
    case Update(u, id, _, _) => Some(Touch(u, id))
    case Publish(u, id) => Some(Touch(u, id))
    case Archive(u, id) => Some(Touch(u, id))
    case Delete(u, id) => Some(Touch(u, id))
    case _ => None
  }

  function AnswerOf(s: Store, op: Op): Answer
    requires TouchOf(op).Some?
  {
    match op
    case Update(u, id, title, category) => UpdateArticle(s, u, id, title, category).1
    case Publish(u, id) => PublishArticle(s, u, id).1
    case Archive(u, id) => ArchiveArticle(s, u, id).1
    case Delete(u, id) => DeleteArticle(s, u, id).1
  }

  /** Each request on an article is refused to those who may not touch it, with the error that
      says why, and to nobody else. */
  lemma WhoIsRefused(s: Store, op: Op)
    requires TouchOf(op).Some?
    ensures var Touch(u, id) := TouchOf(op).value;
      var live := id in s.articles && !s.articles[id].deleted;
      && (AnswerOf(s, op) == Err(NotAuthenticated) <==> u.Anonymous?)
      && (AnswerOf(s, op) == Err(ArticleNotFound) <==> u.Known? && !live)
      && (AnswerOf(s, op) == Err(NotArticleOwner) <==> u.Known? && live && s.articles[id].author != u.id && !u.admin)
      && (!MayTouch(s, u, id) ==> Apply(s, op) == s)
  {
    hide UniqueFrom, Generate, ByteLength, SlugConflict, PutArticle, AddCountTo;
  }

  // ---------- what a request does to the articles ----------

  /** What a request that may touch an article makes of its row. */
  predicate RowChange(a: Article, b: Article, op: Op) {
    match op
    case Update(_, _, title, category) =>
      && b == a.(slug := b.slug, category := b.category)
      && (title.None? ==> b.slug == a.slug)
      && b.category == (if category.None? then a.category else if category.value == 0 then None else category)
    case Publish(_, _) => b == a.(status := Published) && !a.status.Published?
    case Archive(_, _) => b == a.(status := Archived) && !a.status.Archived?
    case Delete(_, _) => b == a.(deleted := true)
    case _ => false
  }

  /** A row of an article changes only by a request of its author or an admin, and then as that
      request says; a new row is a draft of whoever asked for it. */
  lemma StepChangesRows(s: Store, op: Op, id: nat)
    requires IdsInRange(s)
    ensures var s' := Apply(s, op);
      && (id in s.articles ==>
            && id in s'.articles
            && (s'.articles[id] != s.articles[id] ==>
                  && TouchOf(op).Some? && TouchOf(op).value.id == id && MayTouch(s, TouchOf(op).value.u, id)
                  && RowChange(s.articles[id], s'.articles[id], op)))
      && (id !in s.articles && id in s'.articles ==>
            && op.Create? && op.u.Known? && id == s.nextArticle
            && s'.articles[id] == Article(s'.articles[id].slug, Draft, op.u.id,
                                          if op.category == Some(0) then None else op.category, false))
  {
    match op
    case Create(u, title, category) => CreateChangesRows(s, u, title, category, id);
    case Update(u, a, title, category) => UpdateChangesRows(s, u, a, title, category, id);
    case Publish(u, a) => StatusChangesRows(s, u, a, id);
    case Archive(u, a) => StatusChangesRows(s, u, a, id);
    case Delete(u, a) => StatusChangesRows(s, u, a, id);
    case _ => OtherKeepsRows(s, op);
  }

  lemma OtherKeepsRows(s: Store, op: Op)
    requires !op.Create? && TouchOf(op).None?
    ensures Apply(s, op).articles == s.articles
  {
    hide FirstHolder, Generate, CategorySlugConflict, HasLiveChild, ParentDenied;
  }

  lemma CreateChangesRows(s: Store, u: User, title: string, category: Option<nat>, id: nat)
    requires IdsInRange(s)
    ensures var s' := CreateArticle(s, u, title, category).0;
      && (id in s.articles ==> id in s'.articles && s'.articles[id] == s.articles[id])
      && (id !in s.articles && id in s'.articles ==>
            && u.Known? && id == s.nextArticle
            && s'.articles[id] == Article(s'.articles[id].slug, Draft, u.id,
                                          if category == Some(0) then None else category, false))
  {
    hide UniqueFrom, Generate, ByteLength, SlugConflict;
  }

  lemma UpdateChangesRows(s: Store, u: User, a: nat, title: Option<string>, category: Option<nat>, id: nat)
    ensures var s' := UpdateArticle(s, u, a, title, category).0;
      && s'.articles.Keys == s.articles.Keys
      && (id in s.articles && s'.articles[id] != s.articles[id] ==>
            id == a && MayTouch(s, u, a) && RowChange(s.articles[id], s'.articles[id], Update(u, a, title, category)))
  {
    if Denied(s, u, a).None? && NewSlug(s, a, title).1.Some? {
      var (s1, slug) := NewSlug(s, a, title);
      assert title.None? ==> slug.value == s.articles[a].slug;
      hide NewSlug, ByteLength;
      WriteUpdateIs(s1, a, slug.value, category);
      hide WriteUpdate;
    }
  }

  lemma WriteUpdateIs(s: Store, id: nat, slug: string, category: Option<nat>)
    requires LiveArticle(s, id)
    ensures var (s', r) := WriteUpdate(s, id, slug, category);
      var a := s.articles[id];
      var c := if category.None? then a.category else if category.value == 0 then None else category;
      && (r == Ok(id) <==> !SlugConflict(s, id, slug)) && (r == Err(SlugTaken) <==> SlugConflict(s, id, slug))
      && s'.articles == if r.Ok? then s.articles[id := a.(slug := slug, category := c)] else s.articles
  {
    var a := s.articles[id];
    var b := a.(slug := slug, category := if category.None? then a.category else Normalized(category));
    PutIs(s, id, b);
    AddCountKeepsArticles(PutArticle(s, id, b), a.category, -1);
    AddCountKeepsArticles(AddCountTo(PutArticle(s, id, b), a.category, -1), Normalized(category), 1);
    hide PutArticle, AddCountTo, SlugConflict;
  }

  lemma StatusChangesRows(s: Store, u: User, a: nat, id: nat)
    ensures forall op | op == Publish(u, a) || op == Archive(u, a) || op == Delete(u, a) ::
      var s' := Apply(s, op);
      && s'.articles.Keys == s.articles.Keys
      && (id in s.articles && s'.articles[id] != s.articles[id] ==>
            id == a && MayTouch(s, u, a) && RowChange(s.articles[id], s'.articles[id], op))
  {
    if Denied(s, u, a).None? {
      var x := s.articles[a];
      WriteThenCount(s, a, x.(status := Published), x.category, 1);
      WriteThenCount(s, a, x.(status := Archived), x.category, -1);
      WriteThenCount(s, a, x.(deleted := true), x.category, -1);
    }
    hide SlugConflict, PutArticle, AddCountTo;
  }

  // ---------- the length of a title ----------

  /** A character in UTF-8, as section 3 of RFC 3629 has it. */
  function Utf8(c: char): seq<nat> {
    var n := c as int;
    if n <= 0x7F then [n]
    else if n <= 0x7FF then [0xC0 + n / 64, 0x80 + n % 64]
    else if n <= 0xFFFF then [0xE0 + n / 4096, 0x80 + n / 64 % 64, 0x80 + n % 64]
    else [0xF0 + n / 262144, 0x80 + n / 4096 % 64, 0x80 + n / 64 % 64, 0x80 + n % 64]
  }

  function Encoded(title: string): seq<nat> {
    if title == "" then [] else Utf8(title[0]) + Encoded(title[1..])
  }

  lemma {:induction false} ByteLengthAdds(c: char, title: string)
    ensures ByteLength([c] + title) == |Utf8(c)| + ByteLength(title)
    decreases |title|
  {
    if title == "" {
      assert [c] + title == [c] && [c][..0] == "";
    } else {
      var last := |title| - 1;
      assert ([c] + title)[..|title|] == [c] + title[..last] && ([c] + title)[|title|] == title[last];
      ByteLengthAdds(c, title[..last]);
    }
  }

  /** The limit of a title is on its bytes. */
  lemma {:induction false} ByteLengthIs(title: string)
    ensures ByteLength(title) == |Encoded(title)|
  {
    if title == "" {
    } else {
      hide Utf8, ByteLength;
      ByteLengthIs(title[1..]);
      ByteLengthAdds(title[0], title[1..]);
      assert title == [title[0]] + title[1..];
    }
  }

  // ---------- which slug an article gets ----------

  /** The candidates after the first are the slug with a hyphen and the numbers from two on. */
  lemma CandidatesCount(slug: string, k: nat)
    ensures Candidate(slug, 0) == slug
    ensures k > 0 ==>
      |Candidate(slug, k)| > |slug| + 1 && Candidate(slug, k)[..|slug| + 1] == slug + "-"
      && Parse(Candidate(slug, k)[|slug| + 1..]) == Some(k + 1)
  {
    if k > 0 {
      assert Candidate(slug, k)[|slug| + 1..] == Decimal(k + 1);
      ParseOfDecimal(k + 1);
    }
  }

  /** The lookup finds the candidates before the `k`-th and not the `k`-th, or all hundred. */
  ghost predicate FirstUnfound(s: Store, slug: string, k: nat) {
    && k <= 100
    && (forall j: nat :: j < k ==> Lookup(s, Candidate(slug, j)).Some?)
    && (k < 100 ==> Lookup(s, Candidate(slug, k)).None?)
  }

  lemma FirstUnfoundIsChosen(s: Store, slug: string) returns (k: nat)
    ensures FirstUnfound(s, slug, k)
    ensures EnsureUnique(s, slug).1 == if k == 100 then None else Some(Candidate(slug, k))
  {
    UniqueFromIs(s, slug, 0);
    hide UniqueFrom, Lookup, Candidate;
    if EnsureUnique(s, slug).1.Some? {
      var r := EnsureUnique(s, slug).1.value;
      k :| 0 <= k < MAX_TRIES && r == Candidate(slug, k) && Lookup(s, r).None? && AllFound(s, slug, 0, k);
    } else {
      k := 100;
    }
  }

  /** Another live article that is not published has the slug. */
  predicate HeldUnpublished(s: Store, id: nat, slug: string) {
    exists i :: i in s.articles && i != id
                && !s.articles[i].deleted && !s.articles[i].status.Published? && s.articles[i].slug == slug
  }

  lemma UnfoundConflicts(s: Store, s1: Store, id: nat, slug: string)
    requires IdsInRange(s) && SlugsUnique(s) && CacheSound(s) && Lookup(s, slug).None? && s1.articles == s.articles
    ensures SlugConflict(s1, id, slug) <==> HeldUnpublished(s, id, slug)
  {
    LookupCorrect(s, slug);
    if i :| i in s.articles && i != id && !s.articles[i].deleted && s.articles[i].slug == slug {
      assert !PublishedUnder(s, i, slug);
    }
  }

  /** A new article is a live draft of whoever asked for it, under the first candidate of its title
      that the lookup does not find. It is refused without a user, for a title of less than two or
      more than two hundred bytes, when all candidates are found, and when that candidate is held
      by a live article that is not published: the lookup misses it behind a null entry. */
  lemma CreateAnswers(s: Store, u: User, title: string, category: Option<nat>) returns (k: nat)
    requires IdsInRange(s) && SlugsUnique(s) && CacheSound(s)
    ensures FirstUnfound(s, Generate(title), k)
    ensures var (s', r) := CreateArticle(s, u, title, category);
      var asked := u.Known? && 2 <= |Encoded(title)| <= 200;
      var slug := Candidate(Generate(title), k);
      && (r == Err(NotAuthenticated) <==> u.Anonymous?)
      && (r == Err(TitleInvalid) <==> u.Known? && !asked)
      && (r == Err(SlugsExhausted) <==> asked && k == 100)
      && (r == Err(SlugTaken) <==> asked && k < 100 && HeldUnpublished(s, s.nextArticle, slug))
      && (r.Ok? <==> asked && k < 100 && !HeldUnpublished(s, s.nextArticle, slug))
      && (r.Ok? ==>
            && r.id == s.nextArticle && s'.nextArticle == s.nextArticle + 1
            && s'.articles == s.articles[r.id := Article(slug, Draft, u.id,
                                                         if category == Some(0) then None else category, false)])
      && (r.Err? ==> s' == s.(slugCache := s'.slugCache))
  {
    k := FirstUnfoundIsChosen(s, Generate(title));
    ByteLengthIs(title);
    if k < 100 {
      UnfoundConflicts(s, EnsureUnique(s, Generate(title)).0, s.nextArticle, Candidate(Generate(title), k));
    }
    hide UniqueFrom, Generate, ByteLength, Encoded, SlugConflict, HeldUnpublished, Lookup, Candidate;
  }

  /** An update by who may touch the article keeps the slug without a new title, and otherwise
      writes the first candidate of the new title that the lookup does not find. */
  lemma UpdateAnswers(s: Store, u: User, id: nat, title: Option<string>, category: Option<nat>) returns (k: nat)
    requires IdsInRange(s) && SlugsUnique(s) && CacheSound(s) && MayTouch(s, u, id)
    ensures title.Some? ==> FirstUnfound(s, Generate(title.value), k)
    ensures var (s', r) := UpdateArticle(s, u, id, title, category);
      match title
      case None => r == Ok(id) && id in s'.articles && s'.articles[id].slug == s.articles[id].slug
      case Some(t) =>
        var asked, slug := 2 <= |Encoded(t)| <= 200, Candidate(Generate(t), k);
        && (r == Err(TitleInvalid) <==> !asked)
        && (r == Err(SlugsExhausted) <==> asked && k == 100)
        && (r == Err(SlugTaken) <==> asked && k < 100 && HeldUnpublished(s, id, slug))
        && (r == Ok(id) <==> asked && k < 100 && !HeldUnpublished(s, id, slug))
        && (r.Ok? ==> id in s'.articles && s'.articles[id].slug == slug)
        && (r.Err? ==> s' == s.(slugCache := s'.slugCache))
  {
    if title.None? {
      k := 0;
      NoConflictWithItself(s, id);
      WriteUpdateIs(s, id, s.articles[id].slug, category);
      hide WriteUpdate, SlugConflict;
    } else {
      k := FirstUnfoundIsChosen(s, Generate(title.value));
      ByteLengthIs(title.value);
      if k < 100 {
        var s1 := EnsureUnique(s, Generate(title.value)).0;
        UnfoundConflicts(s, s1, id, Candidate(Generate(title.value), k));
        WriteUpdateIs(s1, id, Candidate(Generate(title.value), k), category);
        WriteUpdateRefused(s1, id, Candidate(Generate(title.value), k), category);
      }
      hide UniqueFrom, Generate, ByteLength, Encoded, SlugConflict, HeldUnpublished, Lookup, Candidate, WriteUpdate;
    }
  }

  lemma WriteUpdateRefused(s: Store, id: nat, slug: string, category: Option<nat>)
    requires id in s.articles
    ensures WriteUpdate(s, id, slug, category).1.Err? ==> WriteUpdate(s, id, slug, category).0 == s
  {
    hide PutArticle, AddCountTo, SlugConflict;
  }

  // ---------- publishing, archiving, deleting ----------

  /** Who may touch a live article publishes it unless it is published, and archives and deletes it
      in any case; the unique index never stands in the way. */
  lemma StatusAnswers(s: Store, u: User, id: nat)
    requires SlugsUnique(s) && MayTouch(s, u, id)
    ensures var (s', r) := PublishArticle(s, u, id);
      if s.articles[id].status.Published? then r == Err(AlreadyPublished) && s' == s
      else r == Ok(id) && s'.articles == s.articles[id := s.articles[id].(status := Published)]
    ensures var (s', r) := ArchiveArticle(s, u, id);
      r == Ok(id) && s'.articles == s.articles[id := s.articles[id].(status := Archived)]
    ensures var (s', r) := DeleteArticle(s, u, id);
      r == Ok(id) && s'.articles == s.articles[id := s.articles[id].(deleted := true)]
  {
    NoConflictWithItself(s, id);
    var x := s.articles[id];
    WriteThenCount(s, id, x.(status := Published), x.category, 1);
    WriteThenCount(s, id, x.(status := Archived), x.category, -1);
    WriteThenCount(s, id, x.(deleted := true), x.category, -1);
    hide SlugConflict, PutArticle, AddCountTo;
  }

  lemma NoOtherHolder(s: Store, d: Store, id: nat, i: nat)
    requires SlugsUnique(s) && LiveArticle(s, id) && LiveArticle(d, i)
    requires d.articles == s.articles[id := s.articles[id].(deleted := true)]
    ensures d.articles[i].slug != s.articles[id].slug
  {
    assert i != id && LiveArticle(s, i);
  }

  /** Once published an article is what its slug finds, and once deleted its slug finds nothing. */
  lemma FoundAndNotFound(s: Store, u: User, id: nat)
    requires Inv(s) && MayTouch(s, u, id)
    ensures !s.articles[id].status.Published? ==> Lookup(PublishArticle(s, u, id).0, s.articles[id].slug) == Some(id)
    ensures Lookup(DeleteArticle(s, u, id).0, s.articles[id].slug) == None
  {
    StatusAnswers(s, u, id);
    PublishKeepsInv(s, u, id);
    DeleteKeepsInv(s, u, id);
    hide PublishArticle, DeleteArticle, Lookup;
    var slug := s.articles[id].slug;
    var p, d := PublishArticle(s, u, id).0, DeleteArticle(s, u, id).0;
    LookupCorrect(p, slug);
    LookupCorrect(d, slug);
    if Lookup(d, slug).Some? {
      NoOtherHolder(s, d, id, Lookup(d, slug).value);
    }
    assert !s.articles[id].status.Published? ==> PublishedUnder(p, id, slug);
  }

  /** After a lookup the cache gives the answer, and after a listing it has the tree. */
  lemma AnswersAreCached(s: Store, slug: string)
    requires IdsInRange(s) && TreeFresh(s)
    ensures CachedAnswer(AfterLookup(s, slug), slug) == Some(Lookup(s, slug))
    ensures ReadTree(s).0 == s.(treeCache := Some(LiveCategories(s)))
  {
    FirstHolderIs(s, slug, 0);
  }

  // ---------- categories ----------

  predicate Admin(u: User) {
    u.Known? && u.admin
  }

  predicate SlugUsed(s: Store, id: nat, slug: string) {
    exists c :: c in s.categories && c != id && s.categories[c].slug == slug
  }

  /** A new category needs an admin, a name, a live parent or none, and a slug that no category has,
      deleted ones included; without one it gets the slug of its name. */
  lemma CreateCategoryAnswers(s: Store, u: User, name: string, slug: string, parent: Option<nat>, sortOrder: int)
    ensures var (s', r) := CreateCategory(s, u, name, slug, parent, sortOrder);
      var p := if parent == Some(0) then None else parent;
      var chosen := if slug == "" then Generate(name) else slug;
      var parentOk := p.None? || (p.value in s.categories && !s.categories[p.value].deleted);
      && (r == Err(PermissionDenied) <==> !Admin(u))
      && (r == Err(NameEmpty) <==> Admin(u) && name == "")
      && (r == Err(CategoryNotFound) <==> Admin(u) && name != "" && !parentOk)
      && (r == Err(NameExists) <==> Admin(u) && name != "" && parentOk && SlugUsed(s, s.nextCategory, chosen))
      && (r.Ok? <==> Admin(u) && name != "" && parentOk && !SlugUsed(s, s.nextCategory, chosen))
      && (r.Err? ==> s' == s)
      && (r.Ok? ==>
            && r.id == s.nextCategory && s'.nextCategory == s.nextCategory + 1
            && s'.categories == s.categories[r.id := Category(name, chosen, p, sortOrder, 0, false)])
  {
    hide Generate;
  }

  /** An update needs an admin, a live category, a name, a slug that no other category has, and a
      parent that is safe to climb from; it writes just these and the sort order. */
  lemma UpdateCategoryAnswers(s: Store, u: User, id: nat, name: string, slug: string, parent: Option<nat>,
                              sortOrder: int)
    ensures var (s', r) := UpdateCategory(s, u, id, name, slug, parent, sortOrder);
      var p := if parent == Some(0) then None else parent;
      var live := id in s.categories && !s.categories[id].deleted;
      var asked := Admin(u) && live && name != "" && slug != "";
      var climbs := p.None? || (p.value != id && Climbing(Links(s), id, p.value, 100) == Safe);
      && (r == Err(PermissionDenied) <==> !Admin(u))
      && (r == Err(NameEmpty) <==> Admin(u) && live && name == "")
      && (r == Err(SlugEmpty) <==> Admin(u) && live && name != "" && slug == "")
      && (r == Err(SelfParent) <==> asked && p == Some(id))
      && (r == Err(CategoryNotFound) <==> (Admin(u) && !live) || (asked && climbs && SlugUsed(s, id, slug)))
      && (r == Ok(id) <==> asked && climbs && !SlugUsed(s, id, slug))
      && (r.Err? ==> s' == s)
      && (r.Ok? ==>
            && s'.nextCategory == s.nextCategory
            && s'.categories == s.categories[id := Category(name, slug, p, sortOrder,
                                                            s.categories[id].articleCount, false)])
  {
    hide Climbing, Links;
  }

  /** A deletion needs an admin and a live category with no live child and no live published article
      in it, and only marks its row. */
  lemma DeleteCategoryAnswers(s: Store, u: User, id: nat)
    requires CountsExact(s)
    ensures var (s', r) := DeleteCategory(s, u, id);
      var live := id in s.categories && !s.categories[id].deleted;
      var parent := exists c :: c in s.categories && !s.categories[c].deleted && s.categories[c].parent == Some(id);
      var used := exists i :: i in s.articles && !s.articles[i].deleted
                              && s.articles[i].status.Published? && s.articles[i].category == Some(id);
      && (r == Err(PermissionDenied) <==> !Admin(u))
      && (r == Err(Error.HasChildren) <==> Admin(u) && parent)
      && (r == Err(CategoryNotFound) <==> Admin(u) && !parent && !live)
      && (r == Err(HasArticles) <==> Admin(u) && !parent && live && used)
      && (r == Ok(id) <==> Admin(u) && !parent && live && !used)
      && (r.Err? ==> s' == s)
      && (r.Ok? ==> s' == s.(categories := s.categories[id := s.categories[id].(deleted := true)], treeCache := None))
  {
    if LiveCategory(s, id) {
      CountTells(s, id);
    }
  }

  lemma CountTells(s: Store, id: nat)
    requires CountsExact(s) && LiveCategory(s, id)
    ensures s.categories[id].articleCount > 0 <==>
      exists i :: i in s.articles && !s.articles[i].deleted
                  && s.articles[i].status.Published? && s.articles[i].category == Some(id)
  {
    assert s.categories[id].articleCount == |PublishedIn(s, id)|;
    if i :| i in s.articles && !s.articles[i].deleted
            && s.articles[i].status.Published? && s.articles[i].category == Some(id) {
      assert i in PublishedIn(s, id);
    } else {
      assert PublishedIn(s, id) == {};
    }
  }

  // ---------- over whole runs ----------

  ghost predicate SameIds(s: Store, s': Store) {
    && s'.articles.Keys == s.articles.Keys && s'.categories.Keys == s.categories.Keys
    && s'.nextArticle == s.nextArticle && s'.nextCategory == s.nextCategory
  }

  lemma WriteKeepsIds(s: Store, id: nat, a: Article, category: Option<nat>, delta: int)
    ensures id in s.articles ==> SameIds(s, PutArticle(s, id, a))
    ensures SameIds(s, AddCountTo(s, category, delta))
  {}

  lemma WriteUpdateKeepsIds(s: Store, id: nat, slug: string, category: Option<nat>)
    requires id in s.articles
    ensures SameIds(s, WriteUpdate(s, id, slug, category).0)
  {
    var a := s.articles[id];
    var b := a.(slug := slug, category := if category.None? then a.category else Normalized(category));
    WriteKeepsIds(s, id, b, None, 0);
    WriteKeepsIds(PutArticle(s, id, b), id, b, a.category, -1);
    WriteKeepsIds(AddCountTo(PutArticle(s, id, b), a.category, -1), id, b, Normalized(category), 1);
    hide PutArticle, AddCountTo, SlugConflict;
  }

  lemma TouchKeepsIds(s: Store, op: Op)
    requires TouchOf(op).Some?
    ensures SameIds(s, Apply(s, op))
  {
    hide UniqueFrom, Generate, ByteLength, SlugConflict, PutArticle, AddCountTo, WriteUpdate;
    var Touch(u, id) := TouchOf(op).value;
    if Denied(s, u, id).None? {
      var x := s.articles[id];
      match op
      case Update(_, _, title, category) =>
        var (s1, slug) := NewSlug(s, id, title);
        if slug.Some? {
          WriteUpdateKeepsIds(s1, id, slug.value, category);
        }
      case Publish(_, _) =>
        WriteKeepsIds(s, id, x.(status := Published), None, 0);
        WriteKeepsIds(PutArticle(s, id, x.(status := Published)), id, x, x.category, 1);
      case Archive(_, _) =>
        WriteKeepsIds(s, id, x.(status := Archived), None, 0);
        WriteKeepsIds(PutArticle(s, id, x.(status := Archived)), id, x, x.category, -1);
      case Delete(_, _) =>
        WriteKeepsIds(s, id, x.(deleted := true), None, 0);
        WriteKeepsIds(PutArticle(s, id, x.(deleted := true)), id, x, x.category, -1);
    }
  }

  lemma StepKeepsRange(s: Store, op: Op)
    requires IdsInRange(s)
    ensures IdsInRange(Apply(s, op))
  {
    if TouchOf(op).Some? {
      TouchKeepsIds(s, op);
      hide Apply;
    } else if op.Create? {
      hide Generate, ByteLength, UniqueFrom, SlugConflict;
    } else {
      hide FirstHolder, Generate, CategorySlugConflict, HasLiveChild, ParentDenied;
    }
  }

  /** The request is one on this article by its author or an admin. */
  predicate Authorised(s: Store, op: Op, id: nat) {
    && TouchOf(op).Some? && TouchOf(op).value.id == id && TouchOf(op).value.u.Known?
    && id in s.articles && (TouchOf(op).value.u.id == s.articles[id].author || TouchOf(op).value.u.admin)
  }

  /** Whatever others request, an article stays what it is; and a deleted one stays so for good,
      whoever requests what. */
  lemma {:induction false} OthersChangeNothing(s: Store, ops: seq<Op>, id: nat)
    requires IdsInRange(s) && id in s.articles
    requires s.articles[id].deleted || forall op :: op in ops ==> !Authorised(s, op, id)
    ensures IdsInRange(Run(s, ops)) && id in Run(s, ops).articles && Run(s, ops).articles[id] == s.articles[id]
    decreases |ops|
  {
    hide Apply, IdsInRange, RowChange;
    if ops == [] {
    } else {
      var before, op := ops[..|ops| - 1], ops[|ops| - 1];
      OthersChangeNothing(s, before, id);
      StepKeepsRange(Run(s, before), op);
      StepChangesRows(Run(s, before), op, id);
      assert op in ops;
    }
  }

  /** Every article of every run was asked for by its author, who is its author for good. */
  lemma {:induction false} EveryArticleHasAuthor(ops: seq<Op>, id: nat) returns (i: nat)
    requires id in Run(EMPTY, ops).articles
    ensures IdsInRange(Run(EMPTY, ops))
    ensures i < |ops| && ops[i].Create? && ops[i].u.Known? && ops[i].u.id == Run(EMPTY, ops).articles[id].author
    ensures id !in Run(EMPTY, ops[..i]).articles && id in Run(EMPTY, ops[..i + 1]).articles
    decreases |ops|
  {
    hide Apply, IdsInRange;
    var before, op := ops[..|ops| - 1], ops[|ops| - 1];
    RangeAlong(before);
    StepKeepsRange(Run(EMPTY, before), op);
    StepChangesRows(Run(EMPTY, before), op, id);
    if id in Run(EMPTY, before).articles {
      i := EveryArticleHasAuthor(before, id);
      assert before[..i] == ops[..i] && before[..i + 1] == ops[..i + 1];
    } else {
      i := |ops| - 1;
      assert ops[..i + 1] == ops;
    }
  }

  lemma {:induction false} RangeAlong(ops: seq<Op>)
    ensures IdsInRange(Run(EMPTY, ops))
    decreases |ops|
  {
    hide Apply;
    if ops == [] {
    } else {
      RangeAlong(ops[..|ops| - 1]);
      hide IdsInRange;
      StepKeepsRange(Run(EMPTY, ops[..|ops| - 1]), ops[|ops| - 1]);
    }
  }
}
