/**
 * The shared cache of `DjangoBlog.utils`, as far as the core uses it: the
 * comment lists that `Article.comment_list` stores under
 * `article_comments_<id>`, and `cache.clear()`. Expiry times are not part
 * of this model.
 */
module Caching {
  import opened Wrappers
  import opened Entities

  type Entries = map<string, seq<Comment>>

  class Cache {
    var entries: Entries

    constructor ()
      ensures entries == map[]
    {
      entries := map[];
    }

    /** `cache.get(key)`: the stored value, or `None` when nothing is stored. */
    function Get(key: string): (v: Option<seq<Comment>>)
      reads this
      ensures v.Some? <==> key in entries
      ensures v.Some? ==> v.value == entries[key]
    {
      if key in entries then Some(entries[key]) else None
    }

    /** `cache.set(key, value)`. */
    method Set(key: string, value: seq<Comment>)
      modifies this
      ensures entries == old(entries)[key := value]
    {
      entries := entries[key := value];
    }

    /** `cache.clear()`: every entry is dropped. */
    method Clear()
      modifies this
      ensures entries == map[]
    {
      entries := map[];
    }
  }

  /** Python truthiness of a cached list: present and non-empty. */
  predicate Truthy(v: Option<seq<Comment>>)
  {
    v.Some? && |v.value| > 0
  }

  /**
   * One read-through lookup: a truthy cached value is returned and the
   * cache is left alone; otherwise `computed` is returned and stored.
   * The result is the returned list and the cache afterwards.
   */
  function ReadThrough(entries: Entries, key: string, computed: seq<Comment>): (r: (seq<Comment>, Entries))
    ensures key in r.1 && r.1[key] == r.0
    ensures forall k :: k in entries && k != key ==> k in r.1 && r.1[k] == entries[k]
    ensures r.1.Keys == entries.Keys + {key}
  {
    if key in entries && |entries[key]| > 0 then (entries[key], entries)
    else (computed, entries[key := computed])
  }

  /** A truthy cached value is returned unchanged and nothing is written. */
  lemma ReadThroughHit(entries: Entries, key: string, computed: seq<Comment>)
    requires key in entries && |entries[key]| > 0
    ensures ReadThrough(entries, key, computed) == (entries[key], entries)
  {
  }

  /** A missing or empty cached value is recomputed and stored. */
  lemma ReadThroughMiss(entries: Entries, key: string, computed: seq<Comment>)
    requires key !in entries || |entries[key]| == 0
    ensures ReadThrough(entries, key, computed) == (computed, entries[key := computed])
  {
  }

  /**
   * A second lookup right after the first returns the same list and leaves
   * the cache as the first left it.
   */
  lemma ReadThroughTwice(entries: Entries, key: string, computed: seq<Comment>)
    ensures var (v, e) := ReadThrough(entries, key, computed);
      ReadThrough(e, key, computed) == (v, e)
  {
    var (v, e) := ReadThrough(entries, key, computed);
    if key in entries && |entries[key]| > 0 {
      assert e == entries;
    } else {
      assert e[key] == computed;
      if |computed| == 0 {
        assert e[key := computed] == e;
      }
    }
  }

  /**
   * When the cache holds nothing for `key` but the current list (or
   * nothing, or an empty list), the lookup returns the current list.
   */
  lemma ReadThroughCoherent(entries: Entries, key: string, computed: seq<Comment>)
    requires key in entries && |entries[key]| > 0 ==> entries[key] == computed
    ensures ReadThrough(entries, key, computed).0 == computed
  {
  }

  /** After `cache.clear()` every lookup recomputes. */
  lemma ReadThroughAfterClear(key: string, computed: seq<Comment>)
    ensures ReadThrough(map[], key, computed) == (computed, map[key := computed])
  {
  }

  // ---------------------------------------------------------------------
  // The key `'article_comments_{id}'.format(id=self.id)`

  predicate IsDigit(ch: char)
  {
    '0' <= ch <= '9'
  }

  function DigitChar(d: nat): (ch: char)
    requires d < 10
    ensures IsDigit(ch)
  {
    "0123456789"[d]
  }

  function DigitValue(ch: char): (d: nat)
    requires IsDigit(ch)
    ensures d < 10
  {
    (ch as int - '0' as int) as nat
  }

  /** `str(n)` for a non-negative integer: its decimal digits, no leading zero. */
  function Decimal(n: nat): (s: string)
    ensures |s| >= 1 && forall i :: 0 <= i < |s| ==> IsDigit(s[i])
  {
    if n < 10 then [DigitChar(n)] else Decimal(n / 10) + [DigitChar(n % 10)]
  }

  /** The value of a string of decimal digits. */
  function ParseDecimal(s: string): nat
    requires forall i :: 0 <= i < |s| ==> IsDigit(s[i])
  {
    if |s| == 0 then 0 else ParseDecimal(s[..|s| - 1]) * 10 + DigitValue(s[|s| - 1])
  }

  lemma DigitRoundTrip(d: nat)
    requires d < 10
    ensures DigitValue(DigitChar(d)) == d
  {
    assert "0123456789"[d] as int == '0' as int + d by {
      if d == 0 {} else if d == 1 {} else if d == 2 {} else if d == 3 {} else if d == 4 {}
      else if d == 5 {} else if d == 6 {} else if d == 7 {} else if d == 8 {} else {}
    }
  }

  /** Reading `str(n)` back gives `n`. */
  lemma {:induction false} DecimalRoundTrip(n: nat)
    ensures ParseDecimal(Decimal(n)) == n
  {
    if n < 10 {
      DigitRoundTrip(n);
      assert Decimal(n)[..0] == [];
    } else {
      var s := Decimal(n);
      DecimalRoundTrip(n / 10);
      DigitRoundTrip(n % 10);
      assert s[..|s| - 1] == Decimal(n / 10);
      assert s[|s| - 1] == DigitChar(n % 10);
    }
  }

  /** How `str.format` renders the primary key: `None` for an unsaved article. */
  function IdText(id: nat): (s: string)
    ensures id != 0 ==> s == Decimal(id)
    ensures id == 0 ==> s == "None"
  {
    if id == 0 then "None" else Decimal(id)
  }

  const CommentsPrefix: string := "article_comments_"

  function CommentsKey(id: nat): (key: string)
    ensures |key| > |CommentsPrefix| && key[..|CommentsPrefix|] == CommentsPrefix
    ensures key[|CommentsPrefix|..] == IdText(id)
  {
    CommentsPrefix + IdText(id)
  }

  /** A decimal rendering is never the rendering of a missing key. */
  lemma DecimalIsNotNone(n: nat)
    ensures Decimal(n) != "None"
  {
    assert IsDigit(Decimal(n)[0]);
  }

  /** Two articles never share a comment-list cache entry. */
  lemma CommentsKeyInjective(a: nat, b: nat)
    requires CommentsKey(a) == CommentsKey(b)
    ensures a == b
  {
    var sa := IdText(a);
    var sb := IdText(b);
    assert sa == sb;
    DecimalIsNotNone(a);
    DecimalIsNotNone(b);
    if a != 0 && b != 0 {
      DecimalRoundTrip(a);
      DecimalRoundTrip(b);
    }
  }
}
