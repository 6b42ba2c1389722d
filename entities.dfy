/**
 * The records of the blog's data layer (blog/models.py, comments/models.py),
 * as the values a query returns. Primary keys are `nat`; the id 0 stands for
 * an instance that has not been saved yet (Python's falsy `None` id).
 * Timestamps are abstract instants (`int`); larger is later.
 */
module Entities {
  import opened Wrappers

  /** A `Category` row: unique name, optional parent, URL slug. */
  datatype Category = Category(
    id: nat,
    name: string,
    parent: Option<nat>,
    slug: string,
    createdTime: int,
    lastModTime: int)

  /** A `Tag` row. */
  datatype Tag = Tag(id: nat, name: string, slug: string, createdTime: int, lastModTime: int)

  datatype Status = Draft | Published            // 'd' | 'p'
  datatype CommentStatus = Open | Closed         // 'o' | 'c'
  datatype ArticleType = Post | Page             // 'a' | 'p'

  /** An `Article` row; `tags` is the article's many-to-many tag set (tag ids). */
  datatype ArticleRow = ArticleRow(
    id: nat,
    title: string,
    body: string,
    pubTime: Option<int>,
    status: Status,
    commentStatus: CommentStatus,
    kind: ArticleType,
    views: nat,
    authorId: nat,
    articleOrder: int,
    categoryId: nat,
    tags: set<nat>,
    createdTime: int,
    lastModTime: int)

  /** A `Comment` row (comments/models.py). */
  datatype Comment = Comment(
    id: nat,
    body: string,
    createdTime: int,
    lastModTime: int,
    authorId: nat,
    articleId: nat,
    parentComment: Option<nat>,
    isEnable: bool)

  /** The columns of a `BlogSettings` row other than its id. */
  datatype SiteSettings = SiteSettings(
    sitename: string,
    siteDescription: string,
    siteSeoDescription: string,
    siteKeywords: string,
    articleSubLength: int,
    sidebarArticleCount: int,
    sidebarCommentCount: int,
    showGoogleAdsense: bool,
    googleAdsenseCodes: Option<string>,
    openSiteComment: bool,
    beiancode: Option<string>,
    analyticscode: string,
    showGonganCode: bool,
    gonganBeiancode: Option<string>,
    resourcePath: string)

  /** No two article rows share a primary key. */
  predicate UniqueArticleIds(rows: seq<ArticleRow>)
  {
    forall i, j :: 0 <= i < j < |rows| ==> rows[i].id != rows[j].id
  }

  /**
   * The order in which the database sorts names for `ordering = ['name']`.
   * Its collation is not fixed here; any strict order qualifies.
   */
  type NameOrder = (string, string) -> bool

  ghost predicate StrictOrder(less: NameOrder)
  {
    && (forall a :: !less(a, a))
    && (forall a, b :: less(a, b) ==> !less(b, a))
  }

  /** Code-point (binary collation) order on names, one such order. */
  predicate NameLess(a: string, b: string)
  {
    if |a| == 0 then |b| > 0
    else if |b| == 0 then false
    else if a[0] == b[0] then NameLess(a[1..], b[1..])
    else a[0] < b[0]
  }

  lemma {:induction false} NameLessIrreflexive(a: string)
    ensures !NameLess(a, a)
  {
    if |a| > 0 {
      NameLessIrreflexive(a[1..]);
    }
  }

  lemma {:induction false} NameLessAsymmetric(a: string, b: string)
    requires NameLess(a, b)
    ensures !NameLess(b, a)
  {
    if |a| > 0 && |b| > 0 && a[0] == b[0] {
      NameLessAsymmetric(a[1..], b[1..]);
    }
  }

  /** Code-point order is a strict order. */
  lemma NameLessIsStrictOrder()
    ensures StrictOrder(NameLess)
  {
    forall a ensures !NameLess(a, a) {
      NameLessIrreflexive(a);
    }
    forall a, b | NameLess(a, b) ensures !NameLess(b, a) {
      NameLessAsymmetric(a, b);
    }
  }
}
