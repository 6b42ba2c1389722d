# Blog data layer, modelled in Dafny

This project models the behaviour in `blog/models.py` of a Django blog:

- the category hierarchy:
  - `Category.get_category_tree`, the chain from a category up to its root;
  - `Category.get_sub_categorys`, the category and everything below it, in pre-order;
- the article instance:
  - `viewed`, the view counter;
  - `comment_list`, a read-through cache of enabled comments;
  - `get_category_tree`, the breadcrumb;
- the adjacent-article rules `next_article` and `prev_article`;
- `Tag.get_article_count`;
- the slug rule of `BaseModel.save`;
- the single-row rule of `BlogSettings.clean`, and the cache flush of `BlogSettings.save`.

The database is a set of in-memory tables:

- `Store.Database` holds the article, comment and settings tables.
- The category table is passed around as a sequence of rows. That sequence is `Category.objects.all()`, in name order. The order on names is the database's collation, so it is a parameter: any strict order on strings. Code-point order (`Entities.NameLess`) is one such order.

Rows are identified by primary key, as Django compares instances. The id `0` stands for an instance that was never saved, which in Python has `None` as its id.

The source follows `parent_category` links with no cycle check. The model therefore requires the links to form a forest. A ghost `rank` on category ids witnesses this: a parent ranks below its child, and every rank is smaller than the number of rows.

The two category methods, and the inner `parse` closures they define, are written as recursive methods that extend the source's `categorys` list. Each is proved equal to a specification function: `AncestorChain` or `Descendants`. The lemmas then prove the promised properties of those functions.

The module layout:

| file | contents |
|---|---|
| `wrappers.dfy` | `Option` and `Outcome` |
| `entities.dfy` | the row types of the tables |
| `store.dfy` | the database object |
| `caching.dfy` | the cache, the read-through rule, the comment-list cache key |
| `category_tree.dfy` | ancestor chain and descendant list |
| `articles.dfy` | the `Article` instance: view counter, comment list, breadcrumb |
| `adjacent.dfy` | `next_article`, `prev_article` |
| `tags.dfy` | the tag usage count |
| `slugs.dfy` | the slug rule of `BaseModel.save` |
| `site_settings.dfy` | `BlogSettings.clean` and `save` |

Three points the model keeps exactly as the code behaves:

- `prev_article` filters on `status='p'`. It is not ordered by id, so it takes the first article in the default ordering `-article_order, -pub_time`.
- The `parse` closures recurse once per level with no cycle check. On a cycle the recursion ends only in Python's `RecursionError`; the model requires acyclicity instead of modelling that error.
- `get_sub_categorys` returns a list in pre-order.

## Model

| member | source | states |
|---|---|---|
| CategoryTree.AncestorChain | blog/models.py:162-170 | the chain starts at the category; every entry is a stored category; the chain is one entry long exactly when the category has no parent |
| CategoryTree.ChainShape | blog/models.py:164-169 | each later entry is the parent of the one before it, and the last entry has no parent |
| CategoryTree.ChainUnique | blog/models.py:164-169 | any list that starts at a category, steps to parents and ends at a root is that category's chain |
| CategoryTree.ChainDistinct | blog/models.py:164-167 | in a forest no category appears twice on a chain |
| CategoryTree.ChainRank | blog/models.py:166-167 | every category on a chain ranks no higher than the category the chain starts from |
| CategoryTree.ChainDrop | blog/models.py:166-167 | the chain from the i-th entry onward is the chain of that entry |
| CategoryTree.ChainThroughParent | blog/models.py:166-167 | whenever a category is on a chain, so is its parent |
| CategoryTree.ParseAncestors | blog/models.py:164-167 | the inner `parse` appends exactly the chain of its argument to the list it is given |
| CategoryTree.GetCategoryTree | blog/models.py:157-170 | the list built is the category's ancestor chain |
| CategoryTree.ChildRows | blog/models.py:184 | a row is a child row exactly when it is in the table and names the category as parent |
| CategoryTree.ChildRowsByName | blog/models.py:146 | when the table is in name order under the database's collation (any order on names), so are the children it yields |
| CategoryTree.ChildRowsDistinct | blog/models.py:184 | the children of a category have distinct primary keys |
| CategoryTree.Descendants | blog/models.py:181-188 | the descendant list starts with the category itself |
| CategoryTree.MemberOfSome | blog/models.py:185-188 | anything in the children's lists comes from one particular child's list |
| CategoryTree.MemberOfAll | blog/models.py:185-188 | every child's list is contained in the children's lists |
| CategoryTree.DescendantHasAncestor | blog/models.py:181-188 | every descendant of c is a stored category with c on its ancestor chain |
| CategoryTree.DescendantsClosed | blog/models.py:184-188 | a child of a descendant is itself a descendant |
| CategoryTree.AncestorHasDescendant | blog/models.py:181-188 | every category with c on its ancestor chain is a descendant of c |
| CategoryTree.DescendantsAreReachable | blog/models.py:178-191 | y is in the descendant list of c if and only if y is stored and c is on y's ancestor chain |
| CategoryTree.SiblingsDisjoint | blog/models.py:185-188 | two children of one parent have no descendant in common |
| CategoryTree.DescendantsDistinct | blog/models.py:182-183 | no category appears twice in a descendant list |
| CategoryTree.DescendantsOfAllDistinct | blog/models.py:185-188 | the concatenated lists of distinct children have no repeats |
| CategoryTree.DescendantsOfAllPrefix | blog/models.py:185-188 | the lists of the first m children are a prefix of the lists of all children |
| CategoryTree.EarlierChildFirst | blog/models.py:185-188 | of two children, the one the loop visits first is listed first |
| Entities.NameLessIsStrictOrder | blog/models.py:146 | code-point order (a binary collation) is a strict order on names, so the sibling-order lemma applies to it |
| CategoryTree.SiblingsInNameOrder | blog/models.py:146 | for any strict order on names that the table is sorted by, of two children of a category the one whose name sorts first is listed first |
| CategoryTree.DescendantsOfAllParentsBefore | blog/models.py:185-188 | in the children's lists, each entry's parent is the category or an earlier entry |
| CategoryTree.DescendantsPreOrder | blog/models.py:181-188 | each entry after the first comes after its parent (pre-order) |
| CategoryTree.FreshForChild | blog/models.py:182-188 | when a child's `parse` starts, nothing listed so far lies in that child's subtree |
| CategoryTree.DescendantsOfAllStep | blog/models.py:185-188 | one more child adds exactly that child's descendant list at the end |
| CategoryTree.ParseDescendants | blog/models.py:181-188 | the inner `parse`, started on a list disjoint from the subtree, appends exactly the descendant list; the guard at line 186 never fires |
| CategoryTree.GetSubCategorys | blog/models.py:173-191 | the list built is the category's descendant list |
| Articles.UpdateViews | blog/models.py:110 | the table keeps its length; rows with the key get the new `views` and are otherwise identical; other rows are unchanged |
| Articles.UpdateViewsOnlyViews | blog/models.py:110 | every column but `views` reads back unchanged for every row, and the keyed rows read back the new count |
| Articles.UpdateViewsLastWins | blog/models.py:108-110 | a later update of the same rows replaces an earlier one |
| Articles.UpdateViewsMissing | blog/models.py:110 | an update of a key no row carries leaves the table unchanged |
| Articles.Article.Row | blog/models.py:69-79 | the instance's columns as a row, with its key, views and category |
| Articles.Article.Load | blog/models.py:69-79 | an instance loaded from a row has exactly that row's columns |
| Articles.Article.Viewed | blog/models.py:108-110 | the counter goes up by exactly one and the instance's row changes in `views` only; on success every keyed table row carries the instance's new count, and the table is the keyed update; an unsaved instance or a missing row is an error and leaves the table unchanged |
| Articles.EnabledComments | blog/models.py:119 | a comment is listed exactly when it is in the table, belongs to the article and is enabled |
| Articles.EnabledCommentsCount | blog/models.py:119 | each enabled comment of the article is listed exactly as many times as it occurs in the table, and no other comment is listed |
| Articles.EnabledCommentsNewestFirst | comments/models.py:18-19 | filtering keeps the comment table's newest-first order |
| Articles.Article.CommentList | blog/models.py:112-122 | the result and the new cache are one read-through lookup under `article_comments_<id>` of the article's enabled comments |
| Articles.Crumbs | blog/models.py:101 | one `(name, url)` pair per category, in the same order, built from that category's name and slug |
| Articles.BreadcrumbShape | blog/models.py:99-103 | the breadcrumb starts at the article's category and ends at a root, and has one entry exactly when the category has no parent |
| Articles.Article.GetCategoryTree | blog/models.py:99-103 | the breadcrumb is the category's ancestor chain mapped to `(name, url)` pairs |
| Caching.Cache.Get | blog/models.py:114 | the lookup yields the stored value, or nothing when no value is stored |
| Caching.Cache.Set | blog/models.py:120 | the key is bound to the value; other entries stay |
| Caching.Cache.Clear | blog/models.py:285 | the cache is empty afterwards |
| Caching.ReadThrough | blog/models.py:113-122 | the key ends up bound to the returned list; other entries stay |
| Caching.ReadThroughHit | blog/models.py:114-117 | a non-empty cached list is returned unchanged and nothing is written |
| Caching.ReadThroughMiss | blog/models.py:118-122 | an absent or empty cached list is recomputed, stored and returned |
| Caching.ReadThroughTwice | blog/models.py:113-122 | a second lookup right after returns the same list and leaves the cache as it was |
| Caching.ReadThroughCoherent | blog/models.py:113-122 | when the cache holds no stale non-empty list, the lookup returns the current list |
| Caching.ReadThroughAfterClear | blog/models.py:285 | after the cache is cleared, the next lookup recomputes and stores |
| Caching.Decimal | blog/models.py:113 | the rendering of an id is a non-empty string of decimal digits |
| Caching.DecimalRoundTrip | blog/models.py:113 | reading the digits back gives the id |
| Caching.IdText | blog/models.py:113 | a saved id renders as its digits, an unsaved one as `None` |
| Caching.CommentsKey | blog/models.py:113 | the key is `article_comments_` followed by the rendered id |
| Caching.CommentsKeyInjective | blog/models.py:113 | two articles never share a comment-list key |
| Adjacent.NextArticle | blog/models.py:131 | a published article with a larger id and the smallest such id; none exactly when no published article has a larger id |
| Adjacent.PrevArticle | blog/models.py:136 | the first published article with a smaller id in table order; none exactly when there is no such article |
| Adjacent.PrevArticleLeadsOrdering | blog/models.py:85 | in the default ordering, the pick has the largest `article_order` among the candidates, and the latest `pub_time` among ties |
| Adjacent.PrevArticleSkipsNeighbour | blog/models.py:136 | three published articles in default order where the pick is not the article with the next smaller id |
| Adjacent.PrevArticleById | blog/models.py:136 | a published article with a smaller id and the largest such id; none exactly when there is none |
| Adjacent.NextOfPrevById | blog/models.py:129-136 | with unique ids, `next_article` of the by-id predecessor of a published article is that article |
| Adjacent.PrevByIdOfNext | blog/models.py:129-136 | with unique ids, the by-id predecessor of `next_article` of a published article is that article |
| Tags.ArticleCount | blog/models.py:207 | the count is at most the number of articles, and it is zero exactly when no article carries a tag of that name |
| Tags.ArticleCountDistinct | blog/models.py:207 | with unique article ids, the count is the number of distinct articles carrying the tag |
| Tags.CarriesByName | blog/models.py:207 | with unique tag names, filtering by a tag's name selects the articles that carry that tag |
| Slugs.SlugOnSave | blog/models.py:32-35 | a saved instance with a real slug keeps it; an unsaved one, or one still at `no-slug`, gets the slug of its name |
| Slugs.SlugSettles | blog/models.py:33 | once saved with a real slug, later saves keep it whatever the name becomes |
| Slugs.NoSlugRetried | blog/models.py:33 | a slug that comes out as `no-slug` is recomputed at the next save |
| Slugs.SluggedModel.constructor | blog/models.py:143 | a new instance has no id and the slug `no-slug` |
| Slugs.SluggedModel.Save | blog/models.py:30-36 | the slug becomes the slug rule's choice, computed with the id from before the save; an unsaved instance receives its new key |
| SiteConfig.Others | blog/models.py:279 | the rows other than this one are the stored keys different from its id |
| SiteConfig.Clean | blog/models.py:278-280 | validation fails exactly when another settings row exists, and the message is the single-configuration message |
| SiteConfig.CleanThenSaveSingleRow | blog/models.py:278-285 | a configuration that passes validation and is then saved is the table's only row |
| SiteConfig.SaveWithoutCleanDuplicates | blog/models.py:282-285 | saving without validation can leave two configuration rows |
| SiteConfig.BlogSettings.constructor | blog/models.py:253-269 | a new configuration has no id and the given columns |
| SiteConfig.BlogSettings.Save | blog/models.py:282-285 | the row is stored under the instance's key (a new key when unsaved), and the cache is empty afterwards |

## Left out

- Persistence: the ORM is modelled only as in-memory tables. Left out are cascade deletes, uniqueness enforcement, lazy query sets and `Site.objects.get_current()`. No table imposes the database's uniqueness constraints on the model; lemmas that need unique keys require them.
- `cache_decorator`: the memoisation of `get_category_tree`, `get_sub_categorys` and `get_article_count` is left out, along with its ten-hour expiry. Its source is not part of this model, so these operations are modelled uncached.
- `Caching.Cache`: holds only the comment lists the core stores itself. It leaves out expiry times, other kinds of values and serialisation.
- `cached_property` on `next_article` and `prev_article`: the per-instance memoisation is left out. Both are modelled as functions of the table and the article's id.
- URLs: `reverse`, `get_absolute_url`, `get_full_url` and `get_admin_url` are foreign calls. The breadcrumb takes the category URL as a function of the slug.
- `slugify` (from uuslug): a foreign call, passed as a function parameter.
- Logging, `now()` defaults, translation and `__str__` have no behaviour worth a model. Timestamps are plain integers.
- Concurrency: `viewed` is modelled as one sequential call. Two concurrent calls can lose an update, and the model does not capture that.
- `Articles.Article.Viewed`: `views` is unbounded. The upper bound of the `PositiveIntegerField` column is not modelled.
- Saving an instance writes to the in-memory table only for `BlogSettings` and for the view counter. Storing a new category or tag row after `SluggedModel.Save` is left to the persistence layer above.
- `Articles.Article.CommentList`: for an unsaved article, the model filters on article id 0 under the key `article_comments_None`. Recent Django versions raise an error instead.
- `Adjacent.NextArticle`, `Adjacent.PrevArticle`: for an unsaved article (id `None`), Django rejects the `id__gt`/`id__lt` lookup. The model reads the id as 0 instead.
- `CategoryTree.GetCategoryTree`, `CategoryTree.GetSubCategorys`: the interpreter's recursion-depth limit (about 1000 frames by default) is not modelled. On a chain or subtree deeper than that limit the source raises `RecursionError`, while the model returns the complete list.
- `Adjacent.DefaultOrdered`: places no constraint between rows whose `pub_time` is empty, because where such rows sort depends on the database.
- `servermanager/models.py`, `Links`, `SideBar` and the field-only parts of `comments/models.py` are declarations without behaviour.

## Findings

| source | as written | input that shows it | evidently intended | confidence | as-written member | corrected member |
|---|---|---|---|---|---|---|
| blog/models.py:136 | `prev_article` filters on a smaller id and `status='p'`, then takes `.first()` in the default ordering `-article_order, -pub_time`, not by id | published articles 1 (`article_order` 5), 2 and 3 (`article_order` 0): `prev_article` of 3 is 1, and `next_article` of 1 is 2, not 3 | the published article with the largest id below this one, the mirror of `next_article`, so that next and previous are inverse | not executed; medium | Adjacent.PrevArticleSkipsNeighbour | Adjacent.PrevArticleById |
