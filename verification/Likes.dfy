/// Likes: rows unique per article and user that an unlike only marks as deleted, and the like
/// count kept in the article's row.

module Likes {
  datatype Article = Article(published: bool, deleted: bool, likeCount: int)

  /** A like row is absent, live or marked as deleted; the unique index covers both kinds. */
  datatype Row = Live | SoftDeleted

  datatype Store = Store(articles: map<nat, Article>, nextArticle: nat, rows: map<(nat, nat), Row>)

  datatype Error = LikesDisabled | ArticleNotFound | NotAuthenticated

  datatype Answer = Ok | Err(error: Error)

  /** Who makes a request. */
  datatype User = Anonymous | Known(id: nat)

  const EMPTY := Store(map[], 1, map[])

  predicate LiveArticle(s: Store, a: nat) {
    a in s.articles && !s.articles[a].deleted
  }

  predicate Liked(s: Store, a: nat, u: nat) {
    (a, u) in s.rows && s.rows[(a, u)] == Live
  }

  function Max(x: int, y: int): int {
    if x < y then y else x
  }

  // ---------- the transactions ----------

  function Count(s: Store, a: nat, n: int): map<nat, Article>
    requires a in s.articles
  {
    s.articles[a := s.articles[a].(likeCount := n)]
  }

  /** Insert a row unless the unique index holds one; count it when it went in. */
  function InsertLike(s: Store, a: nat, u: nat): Store {
    if (a, u) in s.rows then s
    else
      var s' := s.(rows := s.rows[(a, u) := Live]);
      if LiveArticle(s, a) then s'.(articles := Count(s, a, s.articles[a].likeCount + 1)) else s'
  }

  /** Mark a live row as deleted; uncount it, but not below zero. */
  function DeleteLike(s: Store, a: nat, u: nat): Store {
    if !Liked(s, a, u) then s
    else
      var s' := s.(rows := s.rows[(a, u) := SoftDeleted]);
      if LiveArticle(s, a) then s'.(articles := Count(s, a, Max(s.articles[a].likeCount - 1, 0))) else s'
  }

  // ---------- the use cases ----------

  function LikeArticle(s: Store, enabled: bool, u: User, a: nat): (Store, Answer) {
    if !enabled then (s, Err(LikesDisabled))
    else if !LiveArticle(s, a) || !s.articles[a].published then (s, Err(ArticleNotFound))
    else if u.Anonymous? then (s, Err(NotAuthenticated))
    else (InsertLike(s, a, u.id), Ok)
  }

  function UnlikeArticle(s: Store, u: User, a: nat): (Store, Answer) {
    if !LiveArticle(s, a) then (s, Err(ArticleNotFound))
    else if u.Anonymous? then (s, Err(NotAuthenticated))
    else (DeleteLike(s, a, u.id), Ok)
  }

  // ---------- runs ----------

  datatype Op =
    | Like(enabled: bool, u: User, a: nat)
    | Unlike(u: User, a: nat)
    | NewArticle
    | SetPublished(a: nat, published: bool)
    | Remove(a: nat)

  function Apply(s: Store, op: Op): Store {
    match op
    case Like(enabled, u, a) => LikeArticle(s, enabled, u, a).0
    case Unlike(u, a) => UnlikeArticle(s, u, a).0
    case NewArticle =>
      s.(articles := s.articles[s.nextArticle := Article(false, false, 0)], nextArticle := s.nextArticle + 1)
    case SetPublished(a, published) =>
      if LiveArticle(s, a) then s.(articles := s.articles[a := s.articles[a].(published := published)]) else s
    case Remove(a) =>
      if LiveArticle(s, a) then s.(articles := s.articles[a := s.articles[a].(deleted := true)]) else s
  }

  function Run(s: Store, ops: seq<Op>): Store {
    if ops == [] then s else Apply(Run(s, ops[..|ops| - 1]), ops[|ops| - 1])
  }

  /** The users whose like of an article is live. */
  function Likers(s: Store, a: nat): set<nat> {
    set k | k in s.rows && k.0 == a && s.rows[k] == Live :: k.1
  }

  /** Every article's count is the number of its likers. */
  ghost predicate Inv(s: Store) {
    && (forall a :: a in s.articles ==> a < s.nextArticle && s.articles[a].likeCount == |Likers(s, a)|)
    && (forall k :: k in s.rows ==> k.0 in s.articles)
  }

  lemma LikedIs(s: Store, a: nat, u: nat)
    ensures u in Likers(s, a) <==> Liked(s, a, u)
  {
    if Liked(s, a, u) {
      assert (a, u).0 == a && (a, u).1 == u;
    }
  }

  function Changed(likers: set<nat>, here: bool, u: nat, row: Row): set<nat> {
    if !here then likers else if row == Live then likers + {u} else likers - {u}
  }

  /** Changing one row changes the likers of its article by its user. */
  lemma LikersAfter(s: Store, s': Store, a: nat, u: nat, row: Row, b: nat)
    requires s'.rows == s.rows[(a, u) := row]
    ensures Likers(s', b) == Changed(Likers(s, b), a == b, u, row)
  {
    forall v: nat ensures v in Likers(s', b) <==> v in Changed(Likers(s, b), a == b, u, row) {
      LikedIs(s, b, v);
      LikedIs(s', b, v);
    }
  }

  lemma ChangeRowKeepsInv(s: Store, s': Store, a: nat, u: nat, row: Row, n: int)
    requires Inv(s) && a in s.articles && (row == Live <==> !Liked(s, a, u))
    requires s' == s.(rows := s.rows[(a, u) := row], articles := Count(s, a, n))
    requires n == s.articles[a].likeCount + if row == Live then 1 else -1
    ensures Inv(s')
  {
    LikedIs(s, a, u);
    forall b | b in s'.articles ensures s'.articles[b].likeCount == |Likers(s', b)| {
      LikersAfter(s, s', a, u, row, b);
    }
  }

  lemma StepKeepsInv(s: Store, op: Op)
    requires Inv(s)
    ensures Inv(Apply(s, op))
  {
    var s' := Apply(s, op);
    match op
    case Like(enabled, u, a) =>
      if s' != s {
        ChangeRowKeepsInv(s, s', a, u.id, Live, s.articles[a].likeCount + 1);
      }
    case Unlike(u, a) =>
      if s' != s {
        ClampIdle(s, a, u.id);
        ChangeRowKeepsInv(s, s', a, u.id, SoftDeleted, s.articles[a].likeCount - 1);
      }
    case NewArticle =>
      assert s.nextArticle !in s.articles;
      assert Likers(s', s.nextArticle) == {};
      assert forall a :: a in s.articles ==> Likers(s', a) == Likers(s, a);
    case _ =>
      assert forall a :: a in s.articles ==> Likers(s', a) == Likers(s, a);
  }

  lemma ClampIdle(s: Store, a: nat, u: nat)
    requires Inv(s) && Liked(s, a, u)
    ensures a in s.articles && s.articles[a].likeCount >= 1
  {
    LikedIs(s, a, u);
    assert (a, u).0 in s.articles;
  }

  lemma {:induction false} RunKeepsInv(ops: seq<Op>)
    ensures Inv(Run(EMPTY, ops))
    decreases |ops|
  {
    if ops == [] {
    } else {
      RunKeepsInv(ops[..|ops| - 1]);
      StepKeepsInv(Run(EMPTY, ops[..|ops| - 1]), ops[|ops| - 1]);
    }
  }

  // ---------- the laws ----------

  /** A like needs likes to be enabled, a live and published article, and a user; an unlike a live
      article and a user. A refused request changes nothing, and one that is not touches no row but
      the user's own and no article but this one. */
  lemma WhoIsRefused(s: Store, enabled: bool, u: User, a: nat)
    ensures var (s', r) := LikeArticle(s, enabled, u, a);
      var shown := a in s.articles && !s.articles[a].deleted && s.articles[a].published;
      && (r == Err(LikesDisabled) <==> !enabled)
      && (r == Err(ArticleNotFound) <==> enabled && !shown)
      && (r == Err(NotAuthenticated) <==> enabled && shown && u.Anonymous?)
      && (r.Err? ==> s' == s) && (r.Ok? ==> (a, u.id) in s'.rows && OnlyOwn(s, s', a, u.id))
    ensures var (s', r) := UnlikeArticle(s, u, a);
      var live := a in s.articles && !s.articles[a].deleted;
      && (r == Err(ArticleNotFound) <==> !live)
      && (r == Err(NotAuthenticated) <==> live && u.Anonymous?)
      && (r.Err? ==> s' == s && r.error != LikesDisabled)
      && (r.Ok? ==> OnlyOwn(s, s', a, u.id) && !((a, u.id) in s'.rows && s'.rows[(a, u.id)] == Live))
  {}

  /** Rows of other users and articles, and all but the count of this article, are as before. */
  ghost predicate OnlyOwn(s: Store, s': Store, a: nat, u: nat) {
    && s'.nextArticle == s.nextArticle && s'.articles.Keys == s.articles.Keys
    && (forall b :: b in s.articles ==>
          s'.articles[b] == s.articles[b].(likeCount := if b == a then s'.articles[b].likeCount
                                                        else s.articles[b].likeCount))
    && s'.rows.Keys <= s.rows.Keys + {(a, u)}
    && (forall k :: k in s.rows ==> k in s'.rows && (k != (a, u) ==> s'.rows[k] == s.rows[k]))
  }

  /** After any run, every article's like count is the number of its live rows, and the clamp of
      an unlike that follows changes nothing. */
  lemma EveryRun(ops: seq<Op>, a: nat, u: nat)
    requires LiveArticle(Run(EMPTY, ops), a)
    ensures var s := Run(EMPTY, ops);
      && s.articles[a].likeCount == |Likers(s, a)|
      && DeleteLike(s, a, u).articles == if Liked(s, a, u) then Count(s, a, s.articles[a].likeCount - 1) else s.articles
  {
    RunKeepsInv(ops);
    if Liked(Run(EMPTY, ops), a, u) {
      ClampIdle(Run(EMPTY, ops), a, u);
    }
  }

  /** Repeating a like or an unlike answers the same and changes nothing. */
  lemma RepeatingChangesNothing(s: Store, enabled: bool, u: User, a: nat)
    ensures var r := LikeArticle(s, enabled, u, a); LikeArticle(r.0, enabled, u, a) == r
    ensures var r := UnlikeArticle(s, u, a); UnlikeArticle(r.0, u, a) == r
  {}

  /** An unlike takes back a first like: the likers and the counts are what they were. */
  lemma UnlikeUndoesLike(s: Store, a: nat, u: nat, b: nat)
    requires Inv(s) && LiveArticle(s, a) && (a, u) !in s.rows
    ensures var s' := DeleteLike(InsertLike(s, a, u), a, u);
      s'.articles == s.articles && Likers(s', b) == Likers(s, b)
  {
    var s1 := InsertLike(s, a, u);
    LikersAfter(s, s1, a, u, Live, b);
    LikersAfter(s1, DeleteLike(s1, a, u), a, u, SoftDeleted, b);
    LikedIs(s, b, u);
    CountsUndone(s, a, u);
    hide Likers, InsertLike, DeleteLike, Inv;
  }

  lemma CountsUndone(s: Store, a: nat, u: nat)
    requires LiveArticle(s, a) && (a, u) !in s.rows && s.articles[a].likeCount >= 0
    ensures DeleteLike(InsertLike(s, a, u), a, u).articles == s.articles
  {}

  /** A row that was marked as deleted stays so in every run. */
  lemma {:induction false} UnlikedForGood(s: Store, ops: seq<Op>, a: nat, u: nat)
    requires (a, u) in s.rows && s.rows[(a, u)] == SoftDeleted
    ensures (a, u) in Run(s, ops).rows && Run(s, ops).rows[(a, u)] == SoftDeleted
    decreases |ops|
  {
    if ops == [] {
    } else {
      UnlikedForGood(s, ops[..|ops| - 1], a, u);
    }
  }

  /** A like that is answered with success leaves the article liked by the user exactly when the
      user has not unliked it before: the row marked as deleted still holds the unique index. */
  lemma LikeTakesEffectIff(s: Store, u: nat, a: nat)
    requires LikeArticle(s, true, Known(u), a).1 == Ok
    ensures Liked(LikeArticle(s, true, Known(u), a).0, a, u) <==> !((a, u) in s.rows && s.rows[(a, u)] == SoftDeleted)
  {}

  /** So a like after an unlike is lost: requests that all succeed leave no like. */
  lemma SecondLikeIsLost(u: nat)
    ensures var published := Apply(Apply(EMPTY, NewArticle), SetPublished(1, true));
      var once := LikeArticle(published, true, Known(u), 1);
      var none := UnlikeArticle(once.0, Known(u), 1);
      var twice := LikeArticle(none.0, true, Known(u), 1);
      && once.1 == none.1 == twice.1 == Ok
      && Liked(once.0, 1, u) && once.0.articles[1].likeCount == 1
      && !Liked(twice.0, 1, u) && twice.0.articles[1].likeCount == 0
  {}
}

/// The transactions and use cases as programs on the two tables.
module LikeStore {
  import opened Likes

  class Repository {
    var articles: map<nat, Article>
    var nextArticle: nat
    var rows: map<(nat, nat), Row>

    function View(): Store
      reads this
    {
      Store(articles, nextArticle, rows)
    }

    constructor ()
      ensures View() == EMPTY
    {
      articles, nextArticle, rows := map[], 1, map[];
    }

    method InsertLike(a: nat, u: nat)
      modifies `articles, `rows
      ensures View() == Likes.InsertLike(old(View()), a, u)
    {
      var rowsAffected := 0;
      if (a, u) !in rows {
        rows := rows[(a, u) := Live];
        rowsAffected := 1;
      }
      if rowsAffected > 0 {
        if a in articles && !articles[a].deleted {
          articles := articles[a := articles[a].(likeCount := articles[a].likeCount + 1)];
        }
      }
    }

    method DeleteLike(a: nat, u: nat)
      modifies `articles, `rows
      ensures View() == Likes.DeleteLike(old(View()), a, u)
    {
      var rowsAffected := 0;
      if (a, u) in rows && rows[(a, u)] == Live {
        rows := rows[(a, u) := SoftDeleted];
        rowsAffected := 1;
      }
      if rowsAffected > 0 {
        if a in articles && !articles[a].deleted {
          var n := articles[a].likeCount - 1;
          articles := articles[a := articles[a].(likeCount := if n < 0 then 0 else n)];
        }
      }
    }

    method LikeArticle(enabled: bool, u: User, a: nat) returns (r: Answer)
      modifies `articles, `rows
      ensures (View(), r) == Likes.LikeArticle(old(View()), enabled, u, a)
    {
      if !enabled {
        return Err(LikesDisabled);
      }
      if a !in articles || articles[a].deleted {
        return Err(ArticleNotFound);
      }
      if !articles[a].published {
        return Err(ArticleNotFound);
      }
      if u.Anonymous? {
        return Err(NotAuthenticated);
      }
      InsertLike(a, u.id);
      return Ok;
    }

    method UnlikeArticle(u: User, a: nat) returns (r: Answer)
      modifies `articles, `rows
      ensures (View(), r) == Likes.UnlikeArticle(old(View()), u, a)
    {
      if a !in articles || articles[a].deleted {
        return Err(ArticleNotFound);
      }
      if u.Anonymous? {
        return Err(NotAuthenticated);
      }
      DeleteLike(a, u.id);
      return Ok;
    }
  }
}
