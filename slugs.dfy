/**
 * The slug rule of `BaseModel.save` (blog/models.py). It applies to the
 * models that have a `slug` column and are not `Article`: `Category` and
 * `Tag`, both of which take their slug from `name`. `slugify` is the
 * external slug generator, a parameter here.
 */
module Slugs {
  /** The column default of `Category.slug` and `Tag.slug`. */
  const NoSlug: string := "no-slug"

  /**
   * The slug a save writes: recomputed from the name when it is still the
   * default or the instance has no primary key yet, kept otherwise.
   */
  function SlugOnSave(slug: string, id: nat, name: string, slugify: string -> string): (s: string)
    ensures id != 0 && slug != NoSlug ==> s == slug
    ensures id == 0 || slug == NoSlug ==> s == slugify(name)
  {
    if slug == NoSlug || id == 0 then slugify(name) else slug
  }

  /**
   * Once saved with a real slug, an instance keeps it through every later
   * save, whatever its name becomes.
   */
  lemma SlugSettles(slug: string, id: nat, name: string, later: nat, rename: string, slugify: string -> string)
    requires later != 0
    requires SlugOnSave(slug, id, name, slugify) != NoSlug
    ensures SlugOnSave(SlugOnSave(slug, id, name, slugify), later, rename, slugify)
         == SlugOnSave(slug, id, name, slugify)
  {
  }

  /**
   * A slug that comes out as the default is recomputed at the next save,
   * even once the instance is stored.
   */
  lemma NoSlugRetried(slug: string, id: nat, name: string, later: nat, rename: string, slugify: string -> string)
    requires SlugOnSave(slug, id, name, slugify) == NoSlug
    ensures SlugOnSave(SlugOnSave(slug, id, name, slugify), later, rename, slugify) == slugify(rename)
  {
  }

  /** A `Category` or `Tag` instance: primary key (0 until saved), name and slug. */
  class SluggedModel {
    var id: nat
    var name: string
    var slug: string

    /** A new, unsaved instance; the slug starts at its column default. */
    constructor (name: string)
      ensures id == 0 && this.name == name && slug == NoSlug
    {
      id := 0;
      this.name := name;
      slug := NoSlug;
    }

    /**
     * `save()`: fix the slug, then store the instance; an unsaved instance
     * receives the primary key `newId` that the database assigns.
     */
    method Save(slugify: string -> string, newId: nat)
      requires newId != 0
      modifies this`slug, this`id
      ensures slug == SlugOnSave(old(slug), old(id), name, slugify)
      ensures id == (if old(id) == 0 then newId else old(id))
    {
      if slug == NoSlug || id == 0 {
        slug := slugify(name);
      }
      if id == 0 {
        id := newId;
      }
    }
  }
}
