/**
 * The database as the core sees it: the rows of the `Article`, `Comment`
 * and `BlogSettings` tables. `articles` is `Article.objects.all()` in the
 * model's default ordering and `comments` is `Comment.objects.all()` in
 * its default ordering (newest first); `settings` maps each
 * `BlogSettings` primary key to the row's columns.
 */
module Store {
  import opened Entities

  class Database {
    var articles: seq<ArticleRow>
    var comments: seq<Comment>
    var settings: map<nat, SiteSettings>

    constructor (articles: seq<ArticleRow>, comments: seq<Comment>, settings: map<nat, SiteSettings>)
      ensures this.articles == articles && this.comments == comments && this.settings == settings
    {
      this.articles := articles;
      this.comments := comments;
      this.settings := settings;
    }
  }
}
