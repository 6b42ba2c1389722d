/**
 * `BlogSettings` (blog/models.py): the site configuration, meant to be a
 * single row. `clean` rejects a second row; `save` stores the row and
 * empties the whole cache.
 */
module SiteConfig {
  import opened Wrappers
  import opened Entities
  import Caching
  import Store

  /** The validation message of `clean` ("there can be only one configuration"). */
  const OnlyOneConfiguration: string := "Может быть только одна конфигурация"

  type Table = map<nat, SiteSettings>

  /** The rows of `BlogSettings.objects.exclude(id=selfId)`. */
  function Others(table: Table, selfId: nat): (ks: set<nat>)
    ensures forall k :: k in ks <==> k in table && k != selfId
  {
    table.Keys - {selfId}
  }

  /** `clean()`: fails when `exclude(id=self.id).count()` is non-zero. */
  function Clean(table: Table, selfId: nat): (r: Outcome<string>)
    ensures r.Fail? <==> exists k :: k in table && k != selfId
    ensures r.Fail? ==> r.error == OnlyOneConfiguration
  {
    var others := Others(table, selfId);
    if |others| != 0 then
      assert exists k :: k in others;
      Fail(OnlyOneConfiguration)
    else
      assert others == {};
      Pass
  }

  /** The key a save stores the row under: the instance's own, or the new one. */
  function SavedId(selfId: nat, newId: nat): nat
  {
    if selfId == 0 then newId else selfId
  }

  /**
   * A configuration that passes `clean` and is then saved is the only row
   * of the table.
   */
  lemma CleanThenSaveSingleRow(table: Table, selfId: nat, newId: nat, columns: SiteSettings)
    requires 0 !in table && newId != 0 && newId !in table
    requires Clean(table, selfId).Pass?
    ensures (table[SavedId(selfId, newId) := columns]).Keys == {SavedId(selfId, newId)}
  {
    var k := SavedId(selfId, newId);
    var t := table[k := columns];
    forall x | x in t ensures x == k {
    }
  }

  /**
   * `save` does not call `clean`: saving a new configuration beside an
   * existing one leaves two rows.
   */
  lemma SaveWithoutCleanDuplicates(existing: nat, columns: SiteSettings, newId: nat)
    requires existing != 0 && newId != 0 && newId != existing
    ensures Clean(map[existing := columns], 0).Fail?
    ensures |(map[existing := columns][SavedId(0, newId) := columns]).Keys| == 2
  {
    var t := map[existing := columns][newId := columns];
    assert t.Keys == {existing, newId};
  }

  /** A `BlogSettings` instance: primary key (0 until saved) and columns. */
  class BlogSettings {
    var id: nat
    var columns: SiteSettings

    constructor (columns: SiteSettings)
      ensures id == 0 && this.columns == columns
    {
      id := 0;
      this.columns := columns;
    }

    /**
     * `save()`: the row is written under the instance's primary key (a new
     * one, `newId`, when it has none yet), then every cache entry is
     * dropped.
     */
    method Save(db: Store.Database, cache: Caching.Cache, newId: nat)
      requires newId != 0 && newId !in db.settings
      modifies this`id, db`settings, cache
      ensures id == SavedId(old(id), newId)
      ensures db.settings == old(db.settings)[id := columns]
      ensures cache.entries == map[]
    {
      if id == 0 {
        id := newId;
      }
      db.settings := db.settings[id := columns];
      cache.Clear();
    }
  }
}
