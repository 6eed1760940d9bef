/// The blog as a program: use cases that change rows and cache entries step by step, each proved
/// against its function in Blog.dfy.

module BlogStore {
  import opened Options
  import opened Slugs
  import opened Ancestry
  import opened Blog

  class Repository {
    var articles: map<nat, Article>
    var nextArticle: nat
    var categories: map<nat, Category>
    var nextCategory: nat
    var slugCache: map<string, Entry>
    var treeCache: Option<map<nat, Category>>

    /** The abstract store. */
    function View(): Store
      reads this
    {
      Store(articles, nextArticle, categories, nextCategory, slugCache, treeCache)
    }

    constructor ()
      ensures View() == EMPTY
    {
      articles, nextArticle, categories, nextCategory := map[], 1, map[], 1;
      slugCache, treeCache := map[], None;
    }

    // ---------- article rows ----------

    method FindBySlug(slug: string) returns (found: Option<nat>)
      modifies `slugCache
      ensures (View(), found) == (AfterLookup(old(View()), slug), Lookup(old(View()), slug))
    {
      if slug in slugCache {
        match slugCache[slug]
        case Null => return None;
        case Id(id) =>
          if id in articles && !articles[id].deleted {
            return Some(id);
          }
      }
      found := FirstHolder(View(), slug, 0);
      match found
      case None =>
        slugCache := slugCache - {slug};
        slugCache := slugCache[slug := Null];
        assert slugCache == old(slugCache)[slug := Null];
      case Some(id) =>
        slugCache := slugCache[slug := Id(id)];
    }

    method CreateRow(a: Article) returns (r: Answer)
      modifies `articles, `nextArticle
      ensures SlugConflict(old(View()), old(nextArticle), a.slug) ==> r == Err(SlugTaken) && View() == old(View())
      ensures !SlugConflict(old(View()), old(nextArticle), a.slug) ==>
        && r == Ok(old(nextArticle))
        && View() == old(View()).(articles := old(articles)[old(nextArticle) := a], nextArticle := old(nextArticle) + 1)
    {
      if SlugConflict(View(), nextArticle, a.slug) {
        return Err(SlugTaken);
      }
      articles := articles[nextArticle := a];
      r := Ok(nextArticle);
      nextArticle := nextArticle + 1;
    }

    method InvalidateCache(slug: string)
      modifies `slugCache
      ensures View() == Forget(old(View()), slug)
    {
      if slug == "" {
        return;
      }
      slugCache := slugCache - {slug};
    }

    method UpdateRow(id: nat, a: Article) returns (ok: bool)
      requires id in articles
      modifies `articles, `slugCache
      ensures ok <==> !SlugConflict(old(View()), id, a.slug)
      ensures View() == if ok then PutArticle(old(View()), id, a) else old(View())
    {
      var oldSlug := articles[id].slug;
      if SlugConflict(View(), id, a.slug) {
        return false;
      }
      articles := articles[id := a];
      if oldSlug != "" && oldSlug != a.slug {
        slugCache := slugCache - {oldSlug};
      }
      InvalidateCache(a.slug);
      return true;
    }

    method DeleteRow(id: nat)
      requires id in articles
      modifies `articles, `slugCache
      ensures View() == PutArticle(old(View()), id, old(articles)[id].(deleted := true))
    {
      var slug := articles[id].slug;
      articles := articles[id := articles[id].(deleted := true)];
      InvalidateCache(slug);
    }

    // ---------- category rows ----------

    method IncrementArticleCount(id: nat, delta: int)
      modifies `categories, `treeCache
      ensures View() == AddCount(old(View()), id, delta)
    {
      if id in categories && !categories[id].deleted {
        var c := categories[id];
        categories := categories[id := c.(articleCount := c.articleCount + delta)];
      }
      treeCache := None;
    }

    /** Climbs from the new parent; `None` means the re-parenting is safe. */
    method CheckCircularRef(selfId: nat, parentId: nat) returns (e: Option<Error>)
      ensures e == match Climbing(Links(View()), selfId, parentId, MAX_DEPTH)
                   case Safe => None
                   case Circular => Some(CircularRef)
                   case TooDeep => Some(Error.TooDeep)
    {
      var currentId := parentId;
      for i := 0 to MAX_DEPTH
        invariant Climbing(Links(View()), selfId, parentId, MAX_DEPTH)
                  == Climbing(Links(View()), selfId, currentId, MAX_DEPTH - i)
      {
        if currentId == selfId {
          return Some(CircularRef);
        }
        if currentId !in categories || categories[currentId].deleted {
          return None;
        }
        if categories[currentId].parent.None? {
          return None;
        }
        currentId := categories[currentId].parent.value;
      }
      return Some(Error.TooDeep);
    }

    // ---------- article use cases ----------

    method EnsureUniqueSlug(slug: string) returns (r: Option<string>)
      modifies `slugCache
      ensures (View(), r) == EnsureUnique(old(View()), slug)
    {
      for i := 0 to MAX_TRIES
        invariant UniqueFrom(View(), slug, i) == EnsureUnique(old(View()), slug)
      {
        var candidate := Candidate(slug, i);
        var found := FindBySlug(candidate);
        if found.None? {
          return Some(candidate);
        }
      }
      return None;
    }

    method AuthorizeArticle(u: User, id: nat) returns (e: Option<Error>)
      ensures e == Denied(View(), u, id)
      ensures e == Some(NotAuthenticated) <==> u.Anonymous?
      ensures e == Some(ArticleNotFound) <==> u.Known? && (id !in articles || articles[id].deleted)
      ensures e == Some(NotArticleOwner) <==>
        u.Known? && id in articles && !articles[id].deleted && articles[id].author != u.id && !u.admin
      ensures e.None? <==>
        u.Known? && id in articles && !articles[id].deleted && (articles[id].author == u.id || u.admin)
    {
      if u.Anonymous? {
        return Some(NotAuthenticated);
      }
      if id !in articles || articles[id].deleted {
        return Some(ArticleNotFound);
      }
      if articles[id].author != u.id && !u.admin {
        return Some(NotArticleOwner);
      }
      return None;
    }

    method CreateArticle(u: User, title: string, category: Option<nat>) returns (r: Answer)
      modifies `slugCache, `articles, `nextArticle
      ensures (View(), r) == Blog.CreateArticle(old(View()), u, title, category)
    {
      if u.Anonymous? {
        return Err(NotAuthenticated);
      }
      if !TitleValid(title) {
        return Err(TitleInvalid);
      }
      var raw := GenerateSlug(title);
      var slug := EnsureUniqueSlug(raw);
      if slug.None? {
        return Err(SlugsExhausted);
      }
      r := CreateRow(Article(slug.value, Draft, u.id, Normalized(category), false));
    }

    /** A new title asks for a new slug; without one the old slug stays. */
    method ReplaceSlug(id: nat, title: Option<string>) returns (slug: Option<string>)
      requires id in articles
      modifies `slugCache
      ensures (View(), slug) == NewSlug(old(View()), id, title)
    {
      if title.None? {
        return Some(articles[id].slug);
      }
      var raw := GenerateSlug(title.value);
      hide EnsureUnique, Generate;
      slug := EnsureUniqueSlug(raw);
    }

    /** The adjustments that an update has pending, made after its write. */
    method AdjustCounts(pending: seq<(nat, int)>)
      modifies `categories, `treeCache
      ensures View() == AddAll(old(View()), pending)
    {
      hide AddCount;
      for i := 0 to |pending|
        invariant View() == AddAll(old(View()), pending[..i])
      {
        assert pending[..i + 1][..i] == pending[..i];
        IncrementArticleCount(pending[i].0, pending[i].1);
      }
      assert pending[..|pending|] == pending;
    }

    /** The part of an update after the new slug is found. */
    method StoreUpdate(id: nat, slug: string, category: Option<nat>) returns (r: Answer)
      requires id in articles
      modifies `slugCache, `articles, `categories, `treeCache
      ensures (View(), r) == WriteUpdate(old(View()), id, slug, category)
    {
      hide SlugConflict, PutArticle, AddCount;
      var article := articles[id].(slug := slug);
      var pending := PendingCounts(article, category);
      if category.Some? {
        article := article.(category := if category.value == 0 then None else category);
      }
      var ok := UpdateRow(id, article);
      if !ok {
        return Err(SlugTaken);
      }
      PendingIs(View(), old(articles)[id], slug, category);
      AdjustCounts(pending);
      return Ok(id);
    }

    method UpdateArticle(u: User, id: nat, title: Option<string>, category: Option<nat>) returns (r: Answer)
      modifies `slugCache, `articles, `categories, `treeCache
      ensures (View(), r) == Blog.UpdateArticle(old(View()), u, id, title, category)
    {
      hide NewSlug, WriteUpdate, ByteLength;
      var denied := AuthorizeArticle(u, id);
      if denied.Some? {
        return Err(denied.value);
      }
      if title.Some? && !TitleValid(title.value) {
        return Err(TitleInvalid);
      }
      var slug := ReplaceSlug(id, title);
      if slug.None? {
        return Err(SlugsExhausted);
      }
      r := StoreUpdate(id, slug.value, category);
    }

    method PublishArticle(u: User, id: nat) returns (r: Answer)
      modifies `slugCache, `articles, `categories, `treeCache
      ensures (View(), r) == Blog.PublishArticle(old(View()), u, id)
    {
      var denied := AuthorizeArticle(u, id);
      if denied.Some? {
        return Err(denied.value);
      }
      var article := articles[id];
      if article.status.Published? {
        return Err(AlreadyPublished);
      }
      article := article.(status := Published);
      var ok := UpdateRow(id, article);
      if !ok {
        return Err(SlugTaken);
      }
      if article.category.Some? {
        IncrementArticleCount(article.category.value, 1);
      }
      return Ok(id);
    }

    method ArchiveArticle(u: User, id: nat) returns (r: Answer)
      modifies `slugCache, `articles, `categories, `treeCache
      ensures (View(), r) == Blog.ArchiveArticle(old(View()), u, id)
    {
      var denied := AuthorizeArticle(u, id);
      if denied.Some? {
        return Err(denied.value);
      }
      var article := articles[id];
      if article.status.Archived? {
        return Ok(id);
      }
      var wasPublished := article.status.Published?;
      article := article.(status := Archived);
      var ok := UpdateRow(id, article);
      if !ok {
        return Err(SlugTaken);
      }
      if wasPublished && article.category.Some? {
        IncrementArticleCount(article.category.value, -1);
      }
      return Ok(id);
    }

    method DeleteArticle(u: User, id: nat) returns (r: Answer)
      modifies `slugCache, `articles, `categories, `treeCache
      ensures (View(), r) == Blog.DeleteArticle(old(View()), u, id)
    {
      var denied := AuthorizeArticle(u, id);
      if denied.Some? {
        return Err(denied.value);
      }
      var article := articles[id];
      DeleteRow(id);
      if article.status.Published? && article.category.Some? {
        IncrementArticleCount(article.category.value, -1);
      }
      return Ok(id);
    }

    // ---------- category use cases ----------

    method CreateCategory(u: User, name: string, slug: string, parent: Option<nat>, sortOrder: int) returns (r: Answer)
      modifies `categories, `nextCategory, `treeCache
      ensures (View(), r) == Blog.CreateCategory(old(View()), u, name, slug, parent, sortOrder)
    {
      hide CategorySlugConflict, Generate;
      if !IsAdmin(u) {
        return Err(PermissionDenied);
      }
      if name == "" {
        return Err(NameEmpty);
      }
      var newSlug := slug;
      if newSlug == "" {
        newSlug := GenerateSlug(name);
      }
      var newParent := parent;
      if parent.Some? && parent.value > 0 {
        if parent.value !in categories || categories[parent.value].deleted {
          return Err(CategoryNotFound);
        }
      } else {
        newParent := None;
      }
      if CategorySlugConflict(View(), nextCategory, newSlug) {
        return Err(NameExists);
      }
      categories := categories[nextCategory := Category(name, newSlug, newParent, sortOrder, 0, false)];
      r := Ok(nextCategory);
      nextCategory := nextCategory + 1;
      treeCache := None;
    }

    method UpdateCategory(u: User, id: nat, name: string, slug: string, parent: Option<nat>, sortOrder: int)
      returns (r: Answer)
      modifies `categories, `treeCache
      ensures (View(), r) == Blog.UpdateCategory(old(View()), u, id, name, slug, parent, sortOrder)
    {
      if !IsAdmin(u) {
        return Err(PermissionDenied);
      }
      if id !in categories || categories[id].deleted {
        return Err(CategoryNotFound);
      }
      var cat := categories[id];
      if name == "" {
        return Err(NameEmpty);
      }
      if slug == "" {
        return Err(SlugEmpty);
      }
      if parent.Some? && parent.value > 0 {
        if parent.value == id {
          return Err(SelfParent);
        }
        var e := CheckCircularRef(id, parent.value);
        if e.Some? {
          return Err(e.value);
        }
        cat := cat.(parent := parent);
      } else {
        cat := cat.(parent := None);
      }
      cat := cat.(name := name, slug := slug, sortOrder := sortOrder);
      if CategorySlugConflict(View(), id, slug) {
        return Err(CategoryNotFound);
      }
      categories := categories[id := cat];
      treeCache := None;
      return Ok(id);
    }

    method DeleteCategory(u: User, id: nat) returns (r: Answer)
      modifies `categories, `treeCache
      ensures (View(), r) == Blog.DeleteCategory(old(View()), u, id)
    {
      if !IsAdmin(u) {
        return Err(PermissionDenied);
      }
      if HasLiveChild(View(), id) {
        return Err(HasChildren);
      }
      if id !in categories || categories[id].deleted {
        return Err(CategoryNotFound);
      }
      if categories[id].articleCount > 0 {
        return Err(HasArticles);
      }
      categories := categories[id := categories[id].(deleted := true)];
      treeCache := None;
      return Ok(id);
    }
  }

  /** Count adjustments made one after the other. */
  ghost function AddAll(s: Store, pending: seq<(nat, int)>): Store {
    if pending == [] then s
    else
      var last := pending[|pending| - 1];
      AddCount(AddAll(s, pending[..|pending| - 1]), last.0, last.1)
  }

  /** What a published article that changes its category takes off the old one and adds to the new. */
  function PendingCounts(article: Article, category: Option<nat>): (pending: seq<(nat, int)>) {
    if category.None? || !article.status.Published? then []
    else (if article.category.Some? then [(article.category.value, -1)] else [])
         + if category.value != 0 then [(category.value, 1)] else []
  }

  lemma PendingIs(s: Store, a: Article, slug: string, category: Option<nat>)
    ensures AddAll(s, PendingCounts(a.(slug := slug), category))
            == if category.Some? && a.status.Published?
               then AddCountTo(AddCountTo(s, a.category, -1), Normalized(category), 1)
               else s
  {
    AddAllOfTwo(s, PendingCounts(a.(slug := slug), category));
    hide AddCount, AddAll;
  }

  lemma AddAllOfTwo(s: Store, pending: seq<(nat, int)>)
    ensures |pending| == 0 ==> AddAll(s, pending) == s
    ensures |pending| == 1 ==> AddAll(s, pending) == AddCount(s, pending[0].0, pending[0].1)
    ensures |pending| == 2 ==>
      AddAll(s, pending) == AddCount(AddCount(s, pending[0].0, pending[0].1), pending[1].0, pending[1].1)
  {
    if |pending| == 2 {
      assert pending[..1] == [pending[0]];
    }
  }
}
