/**
 * `Tag.get_article_count` (blog/models.py): how many distinct articles
 * carry a tag of the given name. `articles` is the article table, and each
 * row's `tags` holds the primary keys of its tags; `tags` is the tag table.
 */
module Tags {
  import opened Entities

  /** The article passes `filter(tags__name=name)`. */
  predicate Carries(a: ArticleRow, tags: seq<Tag>, name: string)
  {
    exists t :: t in tags && t.id in a.tags && t.name == name
  }

  /** The number of articles that carry a tag named `name`, each counted once. */
  function ArticleCount(articles: seq<ArticleRow>, tags: seq<Tag>, name: string): (n: nat)
    ensures n <= |articles|
    ensures n == 0 <==> forall a :: a in articles ==> !Carries(a, tags, name)
  {
    if |articles| == 0 then 0
    else
      assert forall a :: a in articles ==> a == articles[0] || a in articles[1..];
      (if Carries(articles[0], tags, name) then 1 else 0) + ArticleCount(articles[1..], tags, name)
  }

  /** The primary keys of the articles that carry a tag named `name`. */
  function CarryingIds(articles: seq<ArticleRow>, tags: seq<Tag>, name: string): set<nat>
  {
    set a | a in articles && Carries(a, tags, name) :: a.id
  }

  /** With unique primary keys, the count is the number of distinct carrying articles. */
  lemma {:induction false} ArticleCountDistinct(articles: seq<ArticleRow>, tags: seq<Tag>, name: string)
    requires UniqueArticleIds(articles)
    ensures ArticleCount(articles, tags, name) == |CarryingIds(articles, tags, name)|
  {
    if |articles| > 0 {
      var a0 := articles[0];
      var rest := articles[1..];
      assert UniqueArticleIds(rest) by {
        forall i, j | 0 <= i < j < |rest| ensures rest[i].id != rest[j].id {
          assert rest[i] == articles[i + 1] && rest[j] == articles[j + 1];
        }
      }
      ArticleCountDistinct(rest, tags, name);
      var tail := CarryingIds(rest, tags, name);
      assert a0.id !in tail;
      assert forall a :: a in articles <==> a == a0 || a in rest;
      if Carries(a0, tags, name) {
        assert CarryingIds(articles, tags, name) == {a0.id} + tail;
      } else {
        assert CarryingIds(articles, tags, name) == tail;
      }
    }
  }

  /** Tag names are unique (`unique=True`). */
  predicate UniqueTagNames(tags: seq<Tag>)
  {
    forall i, j :: 0 <= i < j < |tags| ==> tags[i].name != tags[j].name
  }

  /**
   * With unique tag names, filtering by a tag's name is filtering by the
   * tag itself.
   */
  lemma CarriesByName(a: ArticleRow, tags: seq<Tag>, t: Tag)
    requires UniqueTagNames(tags) && t in tags
    ensures Carries(a, tags, t.name) <==> t.id in a.tags
  {
    if Carries(a, tags, t.name) {
      var u :| u in tags && u.id in a.tags && u.name == t.name;
      var i :| 0 <= i < |tags| && tags[i] == t;
      var j :| 0 <= j < |tags| && tags[j] == u;
      assert i == j;
    }
  }
}
