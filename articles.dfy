/**
 * An `Article` instance (blog/models.py) and the three of its methods that
 * read or change state: `viewed`, `comment_list` and `get_category_tree`.
 */
module Articles {
  import opened Wrappers
  import opened Entities
  import CategoryTree
  import Caching
  import Store

  // ---------------------------------------------------------------------
  // The view counter

  /**
   * `save(update_fields=['views'])` issues an update of the `views` column
   * of every row with the instance's primary key; Django turns the two
   * ways it can fail into these errors.
   */
  datatype SaveError =
    | NoPrimaryKey      // the instance was never saved: nothing to update
    | NoRowsAffected    // no row carries the instance's primary key

  /** The table after setting `views` to `views` in the rows keyed `id`. */
  function UpdateViews(rows: seq<ArticleRow>, id: nat, views: nat): (r: seq<ArticleRow>)
    ensures |r| == |rows|
    ensures forall i :: 0 <= i < |rows| && rows[i].id == id ==> r[i] == rows[i].(views := views)
    ensures forall i :: 0 <= i < |rows| && rows[i].id != id ==> r[i] == rows[i]
  {
    if |rows| == 0 then []
    else [if rows[0].id == id then rows[0].(views := views) else rows[0]] + UpdateViews(rows[1..], id, views)
  }

  predicate HasArticle(rows: seq<ArticleRow>, id: nat)
  {
    exists i :: 0 <= i < |rows| && rows[i].id == id
  }

  /**
   * The update touches the `views` column of the keyed rows only: every
   * other column of every row, and every other row, reads back unchanged,
   * and the keyed rows read back the new count.
   */
  lemma UpdateViewsOnlyViews(rows: seq<ArticleRow>, id: nat, views: nat, i: nat)
    requires i < |rows|
    ensures var r := UpdateViews(rows, id, views)[i];
      && r.id == rows[i].id && r.title == rows[i].title && r.body == rows[i].body
      && r.pubTime == rows[i].pubTime && r.status == rows[i].status
      && r.commentStatus == rows[i].commentStatus && r.kind == rows[i].kind
      && r.authorId == rows[i].authorId && r.articleOrder == rows[i].articleOrder
      && r.categoryId == rows[i].categoryId && r.tags == rows[i].tags
      && r.createdTime == rows[i].createdTime && r.lastModTime == rows[i].lastModTime
      && r.views == (if rows[i].id == id then views else rows[i].views)
  {
  }

  /** A later update of the same rows replaces an earlier one. */
  lemma {:induction false} UpdateViewsLastWins(rows: seq<ArticleRow>, id: nat, a: nat, b: nat)
    ensures UpdateViews(UpdateViews(rows, id, a), id, b) == UpdateViews(rows, id, b)
  {
    var l := UpdateViews(UpdateViews(rows, id, a), id, b);
    var r := UpdateViews(rows, id, b);
    assert |l| == |r|;
    forall i | 0 <= i < |l| ensures l[i] == r[i] {
      assert UpdateViews(rows, id, a)[i].id == rows[i].id;
    }
  }

  /** Updating rows nobody has leaves the table as it is. */
  lemma UpdateViewsMissing(rows: seq<ArticleRow>, id: nat, views: nat)
    requires !HasArticle(rows, id)
    ensures UpdateViews(rows, id, views) == rows
  {
    var r := UpdateViews(rows, id, views);
    assert forall i :: 0 <= i < |rows| ==> r[i] == rows[i];
  }

  // ---------------------------------------------------------------------
  // Enabled comments (`self.comment_set.filter(is_enable=True)`)

  /** The enabled comments of article `id`, in the order of the comment table. */
  function EnabledComments(comments: seq<Comment>, id: nat): (r: seq<Comment>)
    ensures |r| <= |comments|
    ensures forall c :: c in r <==> c in comments && c.articleId == id && c.isEnable
  {
    if |comments| == 0 then []
    else
      var c := comments[0];
      (if c.articleId == id && c.isEnable then [c] else []) + EnabledComments(comments[1..], id)
  }

  /**
   * Each enabled comment of the article is listed exactly as often as it
   * occurs in the table, and nothing else is listed.
   */
  lemma {:induction false} EnabledCommentsCount(comments: seq<Comment>, id: nat, x: Comment)
    ensures multiset(EnabledComments(comments, id))[x] ==
            if x.articleId == id && x.isEnable then multiset(comments)[x] else 0
  {
    if |comments| > 0 {
      var c := comments[0];
      EnabledCommentsCount(comments[1..], id, x);
      assert comments == [c] + comments[1..];
      assert multiset(comments) == multiset{c} + multiset(comments[1..]);
    }
  }

  /** Newest first, the comments' `ordering = ['-created_time']`. */
  predicate NewestFirst(comments: seq<Comment>)
  {
    forall i, j :: 0 <= i < j < |comments| ==> comments[i].createdTime >= comments[j].createdTime
  }

  /** Filtering keeps the table's newest-first order. */
  lemma {:induction false} EnabledCommentsNewestFirst(comments: seq<Comment>, id: nat)
    requires NewestFirst(comments)
    ensures NewestFirst(EnabledComments(comments, id))
  {
    if |comments| > 0 {
      var rest := comments[1..];
      assert NewestFirst(rest) by {
        forall i, j | 0 <= i < j < |rest| ensures rest[i].createdTime >= rest[j].createdTime {
          assert rest[i] == comments[i + 1] && rest[j] == comments[j + 1];
        }
      }
      EnabledCommentsNewestFirst(rest, id);
      var r := EnabledComments(comments, id);
      var tail := EnabledComments(rest, id);
      if comments[0].articleId == id && comments[0].isEnable {
        assert r == [comments[0]] + tail;
        forall i, j | 0 <= i < j < |r| ensures r[i].createdTime >= r[j].createdTime {
          assert r[j] == tail[j - 1];
          if i > 0 {
            assert r[i] == tail[i - 1];
          } else {
            assert tail[j - 1] in rest;
            var m :| 0 <= m < |rest| && rest[m] == tail[j - 1];
            assert comments[m + 1] == tail[j - 1];
          }
        }
      } else {
        assert r == tail;
      }
    }
  }

  // ---------------------------------------------------------------------
  // The breadcrumb of `Article.get_category_tree`

  /** Each category of `ids` as its `(name, url)` pair; `url` renders a slug's page address. */
  function Crumbs(rows: seq<Category>, ids: seq<nat>, url: string -> string): (names: seq<(string, string)>)
    requires forall x :: x in ids ==> CategoryTree.HasId(rows, x)
    ensures |names| == |ids|
    ensures forall i :: 0 <= i < |ids| ==>
      names[i] == (CategoryTree.RowOf(rows, ids[i]).name, url(CategoryTree.RowOf(rows, ids[i]).slug))
  {
    if |ids| == 0 then []
    else
      var c := CategoryTree.RowOf(rows, ids[0]);
      [(c.name, url(c.slug))] + Crumbs(rows, ids[1..], url)
  }

  /**
   * The breadcrumb names the article's own category first and a root
   * category last, and has one entry exactly when the category is a root.
   */
  lemma BreadcrumbShape(rows: seq<Category>, rank: map<nat, nat>, category: nat, url: string -> string)
    requires CategoryTree.Forest(rows, rank) && CategoryTree.HasId(rows, category)
    ensures var chain := CategoryTree.AncestorChain(rows, category, rank);
      var names := Crumbs(rows, chain, url);
      && names[0] == (CategoryTree.RowOf(rows, category).name, url(CategoryTree.RowOf(rows, category).slug))
      && CategoryTree.ParentOf(rows, chain[|chain| - 1]).None?
      && names[|names| - 1] == (CategoryTree.RowOf(rows, chain[|chain| - 1]).name,
                                url(CategoryTree.RowOf(rows, chain[|chain| - 1]).slug))
      && (|names| == 1 <==> CategoryTree.ParentOf(rows, category).None?)
  {
    CategoryTree.ChainShape(rows, rank, category);
  }

  // ---------------------------------------------------------------------
  // The instance

  class Article {
    var id: nat
    var title: string
    var body: string
    var pubTime: Option<int>
    var status: Status
    var commentStatus: CommentStatus
    var kind: ArticleType
    var views: nat
    var authorId: nat
    var articleOrder: int
    var categoryId: nat
    var tags: set<nat>
    var createdTime: int
    var lastModTime: int

    /** The instance's columns as a row. */
    function Row(): (r: ArticleRow)
      reads this
      ensures r.id == id && r.views == views && r.categoryId == categoryId
    {
      ArticleRow(id, title, body, pubTime, status, commentStatus, kind, views,
                 authorId, articleOrder, categoryId, tags, createdTime, lastModTime)
    }

    /** An instance loaded from a row. */
    constructor Load(row: ArticleRow)
      ensures Row() == row
    {
      id := row.id;
      title := row.title;
      body := row.body;
      pubTime := row.pubTime;
      status := row.status;
      commentStatus := row.commentStatus;
      kind := row.kind;
      views := row.views;
      authorId := row.authorId;
      articleOrder := row.articleOrder;
      categoryId := row.categoryId;
      tags := row.tags;
      createdTime := row.createdTime;
      lastModTime := row.lastModTime;
    }

    /**
     * `viewed()`: one more view on the instance, then the `views` column
     * (and only it) written to the rows with the instance's primary key.
     */
    method Viewed(db: Store.Database) returns (r: Outcome<SaveError>)
      modifies this`views, db`articles
      ensures views == old(views) + 1
      ensures Row() == old(Row()).(views := old(views) + 1)
      ensures r == Pass ==> forall row :: row in db.articles && row.id == id ==> row.views == Row().views
      ensures id == 0 ==> r == Fail(NoPrimaryKey) && db.articles == old(db.articles)
      ensures id != 0 && !HasArticle(old(db.articles), id) ==>
                r == Fail(NoRowsAffected) && db.articles == old(db.articles)
      ensures id != 0 && HasArticle(old(db.articles), id) ==>
                r == Pass && db.articles == UpdateViews(old(db.articles), id, views)
    {
      views := views + 1;
      if id == 0 {
        return Fail(NoPrimaryKey);
      }
      if !HasArticle(db.articles, id) {
        return Fail(NoRowsAffected);
      }
      db.articles := UpdateViews(db.articles, id, views);
      r := Pass;
    }

    /**
     * `comment_list()`: the cached list under `article_comments_<id>` when
     * it is non-empty, otherwise the enabled comments of this article,
     * which are then cached.
     */
    method CommentList(db: Store.Database, cache: Caching.Cache) returns (value: seq<Comment>)
      modifies cache
      ensures (value, cache.entries) ==
              Caching.ReadThrough(old(cache.entries), Caching.CommentsKey(id), EnabledComments(db.comments, id))
    {
      var key := Caching.CommentsKey(id);
      var cached := cache.Get(key);
      if Caching.Truthy(cached) {
        value := cached.value;
      } else {
        value := EnabledComments(db.comments, id);
        cache.Set(key, value);
      }
    }

    /** `get_category_tree()`: the breadcrumb of the article's category. */
    method GetCategoryTree(categories: seq<Category>, ghost rank: map<nat, nat>, url: string -> string)
      returns (names: seq<(string, string)>)
      requires CategoryTree.Forest(categories, rank) && CategoryTree.HasId(categories, categoryId)
      ensures names == Crumbs(categories, CategoryTree.AncestorChain(categories, categoryId, rank), url)
    {
      var tree := CategoryTree.GetCategoryTree(categories, categoryId, rank);
      names := Crumbs(categories, tree, url);
    }
  }
}
