/**
 * `Article.next_article` and `Article.prev_article` (blog/models.py): the
 * neighbouring published articles of the article with primary key
 * `selfId`. `rows` is `Article.objects.all()`, which lists articles in the
 * model's default ordering: larger `article_order` first, then later
 * `pub_time` first.
 */
module Adjacent {
  import opened Wrappers
  import opened Entities

  /** Passes `filter(id__gt=selfId, status='p')`. */
  predicate After(a: ArticleRow, selfId: nat)
  {
    a.status == Published && a.id > selfId
  }

  /** Passes `filter(id__lt=selfId, status='p')`. */
  predicate Before(a: ArticleRow, selfId: nat)
  {
    a.status == Published && a.id < selfId
  }

  /** `next_article`: the published article with the smallest primary key above `selfId`. */
  function NextArticle(rows: seq<ArticleRow>, selfId: nat): (r: Option<ArticleRow>)
    ensures r.Some? ==> r.value in rows && After(r.value, selfId)
    ensures r.Some? ==> forall a :: a in rows && After(a, selfId) ==> r.value.id <= a.id
    ensures r.None? <==> forall a :: a in rows ==> !After(a, selfId)
  {
    if |rows| == 0 then None
    else
      assert forall a :: a in rows ==> a == rows[0] || a in rows[1..];
      var rest := NextArticle(rows[1..], selfId);
      if !After(rows[0], selfId) then rest
      else if rest.Some? && rest.value.id < rows[0].id then rest
      else Some(rows[0])
  }

  /**
   * `prev_article`: the first article of the table, in its default
   * ordering, that is published and has a smaller primary key.
   */
  function PrevArticle(rows: seq<ArticleRow>, selfId: nat): (r: Option<ArticleRow>)
    ensures r.Some? ==> exists i :: 0 <= i < |rows| && rows[i] == r.value && Before(rows[i], selfId) &&
                          forall j :: 0 <= j < i ==> !Before(rows[j], selfId)
    ensures r.None? <==> forall a :: a in rows ==> !Before(a, selfId)
  {
    if |rows| == 0 then None
    else if Before(rows[0], selfId) then Some(rows[0])
    else
      var rest := PrevArticle(rows[1..], selfId);
      assert forall a :: a in rows ==> a == rows[0] || a in rows[1..];
      assert forall j :: 0 < j < |rows| ==> rows[j] == rows[1..][j - 1];
      rest
  }

  /** `ordering = ['-article_order', '-pub_time']`; rows without a publication time are not constrained. */
  predicate ListedBefore(a: ArticleRow, b: ArticleRow)
  {
    a.articleOrder > b.articleOrder ||
    (a.articleOrder == b.articleOrder && (a.pubTime.None? || b.pubTime.None? || a.pubTime.value >= b.pubTime.value))
  }

  predicate DefaultOrdered(rows: seq<ArticleRow>)
  {
    forall i, j :: 0 <= i < j < |rows| ==> ListedBefore(rows[i], rows[j])
  }

  /**
   * In the default ordering, `prev_article` is a candidate of largest
   * `article_order`, and of latest `pub_time` among those.
   */
  lemma PrevArticleLeadsOrdering(rows: seq<ArticleRow>, selfId: nat, a: ArticleRow)
    requires DefaultOrdered(rows) && a in rows && Before(a, selfId)
    ensures PrevArticle(rows, selfId).Some?
    ensures ListedBefore(PrevArticle(rows, selfId).value, a)
  {
    var p := PrevArticle(rows, selfId).value;
    var i :| 0 <= i < |rows| && rows[i] == p && Before(rows[i], selfId) &&
             forall j :: 0 <= j < i ==> !Before(rows[j], selfId);
    var k :| 0 <= k < |rows| && rows[k] == a;
    if k > i {
      assert ListedBefore(rows[i], rows[k]);
    }
  }

  /** The published article with the largest primary key below `selfId`. */
  function PrevArticleById(rows: seq<ArticleRow>, selfId: nat): (r: Option<ArticleRow>)
    ensures r.Some? ==> r.value in rows && Before(r.value, selfId)
    ensures r.Some? ==> forall a :: a in rows && Before(a, selfId) ==> a.id <= r.value.id
    ensures r.None? <==> forall a :: a in rows ==> !Before(a, selfId)
  {
    if |rows| == 0 then None
    else
      assert forall a :: a in rows ==> a == rows[0] || a in rows[1..];
      var rest := PrevArticleById(rows[1..], selfId);
      if !Before(rows[0], selfId) then rest
      else if rest.Some? && rest.value.id > rows[0].id then rest
      else Some(rows[0])
  }

  /**
   * Three published articles, listed in the default ordering: `prev_article`
   * of the third picks the first, not the second, and `next_article` of
   * that pick is the second, not the third.
   */
  lemma PrevArticleSkipsNeighbour()
    ensures var a1 := ArticleRow(1, "a1", "", Some(0), Published, Open, Post, 0, 1, 5, 1, {}, 0, 0);
      var a2 := ArticleRow(2, "a2", "", Some(0), Published, Open, Post, 0, 1, 0, 1, {}, 0, 0);
      var a3 := ArticleRow(3, "a3", "", Some(0), Published, Open, Post, 0, 1, 0, 1, {}, 0, 0);
      var rows := [a1, a2, a3];
      && DefaultOrdered(rows) && UniqueArticleIds(rows)
      && PrevArticle(rows, 3) == Some(a1)
      && PrevArticleById(rows, 3) == Some(a2)
      && NextArticle(rows, PrevArticle(rows, 3).value.id) == Some(a2)
  {
    var a1 := ArticleRow(1, "a1", "", Some(0), Published, Open, Post, 0, 1, 5, 1, {}, 0, 0);
    var a2 := ArticleRow(2, "a2", "", Some(0), Published, Open, Post, 0, 1, 0, 1, {}, 0, 0);
    var a3 := ArticleRow(3, "a3", "", Some(0), Published, Open, Post, 0, 1, 0, 1, {}, 0, 0);
    var rows := [a1, a2, a3];
    assert rows[1..] == [a2, a3] && rows[1..][1..] == [a3] && rows[1..][1..][1..] == [];
    assert PrevArticleById([a3], 3) == None;
    assert PrevArticleById([a2, a3], 3) == Some(a2);
    assert NextArticle([a3], 1) == Some(a3);
    assert NextArticle([a2, a3], 1) == Some(a2);
  }

  /**
   * With primary keys unique, stepping back by id and then forward returns
   * to a published article.
   */
  lemma NextOfPrevById(rows: seq<ArticleRow>, self: ArticleRow)
    requires UniqueArticleIds(rows) && self in rows && self.status == Published
    requires PrevArticleById(rows, self.id).Some?
    ensures NextArticle(rows, PrevArticleById(rows, self.id).value.id) == Some(self)
  {
    var p := PrevArticleById(rows, self.id).value;
    var m := NextArticle(rows, p.id);
    assert After(self, p.id);
    assert m.Some?;
    assert m.value.id <= self.id;
    SameId(rows, m.value, self);
  }

  /** Stepping forward and then back by id returns to a published article. */
  lemma PrevByIdOfNext(rows: seq<ArticleRow>, self: ArticleRow)
    requires UniqueArticleIds(rows) && self in rows && self.status == Published
    requires NextArticle(rows, self.id).Some?
    ensures PrevArticleById(rows, NextArticle(rows, self.id).value.id) == Some(self)
  {
    var n := NextArticle(rows, self.id).value;
    var m := PrevArticleById(rows, n.id);
    assert Before(self, n.id);
    assert m.Some?;
    assert self.id <= m.value.id;
    SameId(rows, m.value, self);
  }

  lemma SameId(rows: seq<ArticleRow>, a: ArticleRow, b: ArticleRow)
    requires UniqueArticleIds(rows) && a in rows && b in rows && a.id == b.id
    ensures a == b
  {
    var i :| 0 <= i < |rows| && rows[i] == a;
    var j :| 0 <= j < |rows| && rows[j] == b;
    assert i == j;
  }
}
