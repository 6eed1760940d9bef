/// The blog's store and use cases: articles, categories and the slug cache.
///
/// Each use case is a function from the store to the store and an answer; BlogStore.dfy holds
/// the imperative code that is proved against these functions.

module Blog {
  import opened Options
  import opened Decimals
  import opened Slugs
  import opened Ancestry

  // ---------- state ----------

  datatype ArticleStatus = Draft | Published | Archived

  /** An article row. Deleting only marks it. */
  datatype Article = Article(
    slug: string, status: ArticleStatus, author: nat, category: Option<nat>, deleted: bool)

  /** A category row. Deleting only marks it. */
  datatype Category = Category(
    name: string, slug: string, parent: Option<nat>, sortOrder: int, articleCount: int, deleted: bool)

  /** What the slug cache stores under a slug: an article id, or that no such article exists. */
  datatype Entry = Id(id: nat) | Null

  /** Ids are issued in order from one and never reused; `nextArticle` and `nextCategory` come
      next. `treeCache` holds the live categories of the cached tree. */
  datatype Store = Store(
    articles: map<nat, Article>, nextArticle: nat,
    categories: map<nat, Category>, nextCategory: nat,
    slugCache: map<string, Entry>,
    treeCache: Option<map<nat, Category>>)

  /** Who makes a request. */
  datatype User = Anonymous | Known(id: nat, admin: bool)

  datatype Error =
    | NotAuthenticated | PermissionDenied | NotArticleOwner
    | ArticleNotFound | TitleInvalid | SlugsExhausted | SlugTaken | AlreadyPublished
    | CategoryNotFound | NameEmpty | SlugEmpty | SelfParent | CircularRef | TooDeep
    | NameExists | HasChildren | HasArticles

  datatype Answer = Ok(id: nat) | Err(error: Error)

  const EMPTY := Store(map[], 1, map[], 1, map[], None)

  // ---------- reading the store ----------

  predicate LiveArticle(s: Store, id: nat) {
    id in s.articles && !s.articles[id].deleted
  }

  predicate LiveCategory(s: Store, id: nat) {
    id in s.categories && !s.categories[id].deleted
  }

  function LiveCategories(s: Store): map<nat, Category> {
    map id | id in s.categories && !s.categories[id].deleted :: s.categories[id]
  }

  /** The parent links of the live categories. */
  function Links(s: Store): Parents {
    map id | id in s.categories && !s.categories[id].deleted :: s.categories[id].parent
  }

  /** The live article with this slug that was issued first, from id `i` on. */
  function FirstHolder(s: Store, slug: string, i: nat): Option<nat>
    decreases s.nextArticle - i
  {
    if i >= s.nextArticle then None
    else if LiveArticle(s, i) && s.articles[i].slug == slug then Some(i)
    else FirstHolder(s, slug, i + 1)
  }

  /** What the cache lets FindBySlug answer without asking the database by slug; `None` when it
      has to ask. A cached id of a deleted article is passed over. */
  function CachedAnswer(s: Store, slug: string): Option<Option<nat>> {
    if slug !in s.slugCache then None
    else
      match s.slugCache[slug]
      case Null => Some(None)
      case Id(id) => if LiveArticle(s, id) then Some(Some(id)) else None
  }

  /** The id FindBySlug answers. */
  function Lookup(s: Store, slug: string): Option<nat> {
    match CachedAnswer(s, slug)
    case Some(answer) => answer
    case None => FirstHolder(s, slug, 0)
  }

  /** What FindBySlug writes to the cache on its way. */
  function AfterLookup(s: Store, slug: string): (s': Store)
    ensures s' == s.(slugCache := s'.slugCache)
  {
    if CachedAnswer(s, slug).Some? then s
    else
      match FirstHolder(s, slug, 0)
      case None => s.(slugCache := s.slugCache[slug := Null])
      case Some(id) => s.(slugCache := s.slugCache[slug := Id(id)])
  }

  // ---------- choosing a slug ----------

  const MAX_TRIES: nat := 100

  /** slug, slug-2, slug-3, ... */
  function Candidate(slug: string, i: nat): string {
    if i == 0 then slug else slug + "-" + Decimal(i + 1)
  }

  /** The first candidate from the `i`-th on that the lookup does not find, and the store after
      the lookups made. */
  function UniqueFrom(s: Store, slug: string, i: nat): (r: (Store, Option<string>))
    ensures r.0 == s.(slugCache := r.0.slugCache)
    decreases MAX_TRIES - i
  {
    if i >= MAX_TRIES then (s, None)
    else
      var s' := AfterLookup(s, Candidate(slug, i));
      if Lookup(s, Candidate(slug, i)).None? then (s', Some(Candidate(slug, i))) else UniqueFrom(s', slug, i + 1)
  }

  function EnsureUnique(s: Store, slug: string): (Store, Option<string>) {
    UniqueFrom(s, slug, 0)
  }

  /** The length of a title in UTF-8 bytes. */
  function ByteLength(title: string): (n: nat)
    ensures n >= |title|
  {
    if title == "" then 0
    else
      var c := title[|title| - 1] as int;
      ByteLength(title[..|title| - 1]) + if c < 0x80 then 1 else if c < 0x800 then 2 else if c < 0x10000 then 3 else 4
  }

  predicate TitleValid(title: string) {
    2 <= ByteLength(title) <= 200
  }

  // ---------- the article repository ----------

  /** Whether the unique index over live articles forbids `slug` to article `id`. */
  predicate SlugConflict(s: Store, id: nat, slug: string) {
    exists i :: i in s.articles && i != id && !s.articles[i].deleted && s.articles[i].slug == slug
  }

  function Forget(s: Store, slug: string): Store {
    if slug == "" then s else s.(slugCache := s.slugCache - {slug})
  }

  /** Write an article row and clear the cache entries of its old and new slug. */
  function PutArticle(s: Store, id: nat, a: Article): Store
    requires id in s.articles
  {
    var before := s.articles[id].slug;
    var s' := s.(articles := s.articles[id := a]);
    Forget(if before != a.slug then Forget(s', before) else s', a.slug)
  }

  /** Add to the article count of a category, if it is live; the cached tree goes in any case. */
  function AddCount(s: Store, category: nat, delta: int): Store {
    var s' := s.(treeCache := None);
    if LiveCategory(s, category) then
      var c := s.categories[category];
      s'.(categories := s.categories[category := c.(articleCount := c.articleCount + delta)])
    else s'
  }

  function AddCountTo(s: Store, category: Option<nat>, delta: int): Store {
    if category.None? then s else AddCount(s, category.value, delta)
  }

  // ---------- article use cases ----------

  function Normalized(category: Option<nat>): Option<nat> {
    if category == Some(0) then None else category
  }

  /** The insert of a new draft. */
  function InsertDraft(s: Store, author: nat, slug: string, category: Option<nat>): (Store, Answer) {
    var id := s.nextArticle;
    if SlugConflict(s, id, slug) then (s, Err(SlugTaken))
    else
      (s.(articles := s.articles[id := Article(slug, Draft, author, Normalized(category), false)],
          nextArticle := id + 1), Ok(id))
  }

  function CreateArticle(s: Store, u: User, title: string, category: Option<nat>): (Store, Answer) {
    if u.Anonymous? then (s, Err(NotAuthenticated))
    else if !TitleValid(title) then (s, Err(TitleInvalid))
    else
      match EnsureUnique(s, Generate(title))
      case (s', None) => (s', Err(SlugsExhausted))
      case (s', Some(slug)) => InsertDraft(s', u.id, slug, category)
  }

  /** Why a user may not touch an article, if so. */
  function Denied(s: Store, u: User, id: nat): Option<Error> {
    if u.Anonymous? then Some(NotAuthenticated)
    else if !LiveArticle(s, id) then Some(ArticleNotFound)
    else if s.articles[id].author != u.id && !u.admin then Some(NotArticleOwner)
    else None
  }

  /** The slug an update writes: a new title asks for a new slug. */
  function NewSlug(s: Store, id: nat, title: Option<string>): (r: (Store, Option<string>))
    requires id in s.articles
    ensures r.0 == s.(slugCache := r.0.slugCache)
  {
    if title.None? then (s, Some(s.articles[id].slug)) else EnsureUnique(s, Generate(title.value))
  }

  /** The write of an update, and the counts it moves when a published article changes category. */
  function WriteUpdate(s: Store, id: nat, slug: string, category: Option<nat>): (Store, Answer)
    requires id in s.articles
  {
    if SlugConflict(s, id, slug) then (s, Err(SlugTaken))
    else
      var a := s.articles[id];
      var b := a.(slug := slug, category := if category.None? then a.category else Normalized(category));
      var s' := PutArticle(s, id, b);
      if category.Some? && a.status.Published? then
        (AddCountTo(AddCountTo(s', a.category, -1), Normalized(category), 1), Ok(id))
      else (s', Ok(id))
  }

  function UpdateArticle(s: Store, u: User, id: nat, title: Option<string>, category: Option<nat>): (Store, Answer) {
    if Denied(s, u, id).Some? then (s, Err(Denied(s, u, id).value))
    else if title.Some? && !TitleValid(title.value) then (s, Err(TitleInvalid))
    else
      match NewSlug(s, id, title)
      case (s', None) => (s', Err(SlugsExhausted))
      case (s', Some(slug)) => WriteUpdate(s', id, slug, category)
  }

  function PublishArticle(s: Store, u: User, id: nat): (Store, Answer) {
    if Denied(s, u, id).Some? then (s, Err(Denied(s, u, id).value))
    else if s.articles[id].status.Published? then (s, Err(AlreadyPublished))
    else if SlugConflict(s, id, s.articles[id].slug) then (s, Err(SlugTaken))
    else
      var a := s.articles[id].(status := Published);
      (AddCountTo(PutArticle(s, id, a), a.category, 1), Ok(id))
  }

  function ArchiveArticle(s: Store, u: User, id: nat): (Store, Answer) {
    if Denied(s, u, id).Some? then (s, Err(Denied(s, u, id).value))
    else if s.articles[id].status.Archived? then (s, Ok(id))
    else if SlugConflict(s, id, s.articles[id].slug) then (s, Err(SlugTaken))
    else
      var a := s.articles[id];
      var s' := PutArticle(s, id, a.(status := Archived));
      (if a.status.Published? then AddCountTo(s', a.category, -1) else s', Ok(id))
  }

  function DeleteArticle(s: Store, u: User, id: nat): (Store, Answer) {
    if Denied(s, u, id).Some? then (s, Err(Denied(s, u, id).value))
    else
      var a := s.articles[id];
      var s' := PutArticle(s, id, a.(deleted := true));
      (if a.status.Published? then AddCountTo(s', a.category, -1) else s', Ok(id))
  }

  // ---------- category use cases ----------

  predicate IsAdmin(u: User) {
    u.Known? && u.admin
  }

  /** The unique index over category slugs also covers deleted rows. */
  predicate CategorySlugConflict(s: Store, id: nat, slug: string) {
    exists c :: c in s.categories && c != id && s.categories[c].slug == slug
  }

  function CreateCategory(s: Store, u: User, name: string, slug: string, parent: Option<nat>, sortOrder: int)
    : (Store, Answer)
  {
    if !IsAdmin(u) then (s, Err(PermissionDenied))
    else if name == "" then (s, Err(NameEmpty))
    else
      var p, id := Normalized(parent), s.nextCategory;
      var slug' := if slug == "" then Generate(name) else slug;
      if p.Some? && !LiveCategory(s, p.value) then (s, Err(CategoryNotFound))
      else if CategorySlugConflict(s, id, slug') then (s, Err(NameExists))
      else
        (s.(categories := s.categories[id := Category(name, slug', p, sortOrder, 0, false)],
            nextCategory := id + 1, treeCache := None), Ok(id))
  }

  const MAX_DEPTH: nat := 100

  /** Why a category may not get a parent, if so. */
  function ParentDenied(s: Store, id: nat, p: Option<nat>): Option<Error> {
    if p.None? then None
    else if p.value == id then Some(SelfParent)
    else
      match Climbing(Links(s), id, p.value, MAX_DEPTH)
      case Safe => None
      case Circular => Some(CircularRef)
      case TooDeep => Some(Error.TooDeep)
  }

  function UpdateCategory(s: Store, u: User, id: nat, name: string, slug: string, parent: Option<nat>, sortOrder: int)
    : (Store, Answer)
  {
    if !IsAdmin(u) then (s, Err(PermissionDenied))
    else if !LiveCategory(s, id) then (s, Err(CategoryNotFound))
    else if name == "" then (s, Err(NameEmpty))
    else if slug == "" then (s, Err(SlugEmpty))
    else
      var p := Normalized(parent);
      if ParentDenied(s, id, p).Some? then (s, Err(ParentDenied(s, id, p).value))
      else if CategorySlugConflict(s, id, slug) then (s, Err(CategoryNotFound))
      else
        var c := s.categories[id].(name := name, slug := slug, parent := p, sortOrder := sortOrder);
        (s.(categories := s.categories[id := c], treeCache := None), Ok(id))
  }

  predicate HasLiveChild(s: Store, id: nat) {
    exists c :: c in s.categories && !s.categories[c].deleted && s.categories[c].parent == Some(id)
  }

  function DeleteCategory(s: Store, u: User, id: nat): (Store, Answer) {
    if !IsAdmin(u) then (s, Err(PermissionDenied))
    else if HasLiveChild(s, id) then (s, Err(HasChildren))
    else if !LiveCategory(s, id) then (s, Err(CategoryNotFound))
    else if s.categories[id].articleCount > 0 then (s, Err(HasArticles))
    else
      (s.(categories := s.categories[id := s.categories[id].(deleted := true)], treeCache := None), Ok(id))
  }

  /** ListTree fills the tree cache when it misses. */
  function ReadTree(s: Store): (Store, map<nat, Category>) {
    match s.treeCache
    case Some(tree) => (s, tree)
    case None => (s.(treeCache := Some(LiveCategories(s))), LiveCategories(s))
  }

  // ---------- operations ----------

  /** One request, or the loss of cache entries between requests. */
  datatype Op =
    | FindSlug(slug: string)
    | Create(u: User, title: string, category: Option<nat>)
    | Update(u: User, id: nat, newTitle: Option<string>, category: Option<nat>)
    | Publish(u: User, id: nat)
    | Archive(u: User, id: nat)
    | Delete(u: User, id: nat)
    | NewCategory(u: User, name: string, slug: string, parent: Option<nat>, sortOrder: int)
    | ChangeCategory(u: User, id: nat, name: string, slug: string, parent: Option<nat>, sortOrder: int)
    | RemoveCategory(u: User, id: nat)
    | ListCategories
    | Expire(slugs: set<string>)
    | ExpireTree

  function Apply(s: Store, op: Op): Store {
    match op
    case FindSlug(slug) => AfterLookup(s, slug)
    case Create(u, title, category) => CreateArticle(s, u, title, category).0
    case Update(u, id, title, category) => UpdateArticle(s, u, id, title, category).0
    case Publish(u, id) => PublishArticle(s, u, id).0
    case Archive(u, id) => ArchiveArticle(s, u, id).0
    case Delete(u, id) => DeleteArticle(s, u, id).0
    case NewCategory(u, name, slug, parent, order) => CreateCategory(s, u, name, slug, parent, order).0
    case ChangeCategory(u, id, name, slug, parent, order) => UpdateCategory(s, u, id, name, slug, parent, order).0
    case RemoveCategory(u, id) => DeleteCategory(s, u, id).0
    case ListCategories => ReadTree(s).0
    case Expire(slugs) => s.(slugCache := s.slugCache - slugs)
    case ExpireTree => s.(treeCache := None)
  }

  function Run(s: Store, ops: seq<Op>): Store {
    if ops == [] then s else Apply(Run(s, ops[..|ops| - 1]), ops[|ops| - 1])
  }
}
