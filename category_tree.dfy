/**
 * The category hierarchy of blog/models.py: `Category.get_category_tree`
 * (the ancestor chain of a category) and `Category.get_sub_categorys` (all
 * categories below it, itself first, in pre-order).
 *
 * The table `rows` is `Category.objects.all()`: every category row, in the
 * model's default ordering (by name). Categories are identified by their
 * primary key, as Django compares model instances by primary key.
 *
 * The source follows parent links without a cycle check. The model requires
 * the parent links to form a forest, witnessed by a ghost `rank`: a parent's
 * rank is below its child's, and no rank reaches the number of rows (the
 * depth of a category always qualifies as its rank).
 */
module CategoryTree {
  import opened Wrappers
  import opened Entities

  // ---------------------------------------------------------------------
  // Looking rows up by primary key

  /** Position of the row whose primary key is `id`, if there is one. */
  function IndexOf(rows: seq<Category>, id: nat): (r: Option<nat>)
    ensures r.Some? ==> r.value < |rows| && rows[r.value].id == id
    ensures r.None? ==> forall j :: 0 <= j < |rows| ==> rows[j].id != id
  {
    if |rows| == 0 then None
    else if rows[0].id == id then Some(0)
    else match IndexOf(rows[1..], id)
      case None =>
        assert forall j :: 1 <= j < |rows| ==> rows[j] == rows[1..][j - 1];
        None
      case Some(k) => Some(k + 1)
  }

  predicate HasId(rows: seq<Category>, id: nat)
  {
    IndexOf(rows, id).Some?
  }

  /** The row with primary key `id` (a `parent_category` dereference). */
  function RowOf(rows: seq<Category>, id: nat): (c: Category)
    requires HasId(rows, id)
    ensures c in rows && c.id == id
  {
    rows[IndexOf(rows, id).value]
  }

  /** The `parent_category` of the category with primary key `id`. */
  function ParentOf(rows: seq<Category>, id: nat): Option<nat>
  {
    match IndexOf(rows, id)
    case Some(i) => rows[i].parent
    case None => None
  }

  predicate UniqueIds(rows: seq<Category>)
  {
    forall i, j :: 0 <= i < j < |rows| ==> rows[i].id != rows[j].id
  }

  /** The parent links of `rows` form a forest, ranked by `rank`. */
  ghost predicate Forest(rows: seq<Category>, rank: map<nat, nat>)
  {
    && UniqueIds(rows)
    && (forall i :: 0 <= i < |rows| ==> rows[i].id in rank && rank[rows[i].id] < |rows|)
    && (forall i {:trigger rows[i].parent} :: 0 <= i < |rows| && rows[i].parent.Some? ==>
          && HasId(rows, rows[i].parent.value)
          && rows[i].parent.value in rank
          && rank[rows[i].parent.value] < rank[rows[i].id])
  }

  /** Names strictly increase under `less` (`ordering = ['name']`, names unique). */
  predicate ByName(rows: seq<Category>, less: NameOrder)
  {
    forall i, j :: 0 <= i < j < |rows| ==> less(rows[i].name, rows[j].name)
  }

  predicate Distinct(s: seq<nat>)
  {
    forall i, j :: 0 <= i < j < |s| ==> s[i] != s[j]
  }

  lemma ConcatAssoc(a: seq<nat>, b: seq<nat>, c: seq<nat>)
    ensures (a + b) + c == a + (b + c)
  {
  }

  lemma DistinctConcat(a: seq<nat>, b: seq<nat>)
    requires Distinct(a) && Distinct(b)
    requires forall x :: x in a ==> x !in b
    ensures Distinct(a + b)
  {
    var s := a + b;
    forall i, j | 0 <= i < j < |s| ensures s[i] != s[j] {
      if j < |a| {
        assert s[i] == a[i] && s[j] == a[j];
      } else if i >= |a| {
        assert s[i] == b[i - |a|] && s[j] == b[j - |a|];
      } else {
        assert s[i] == a[i] && s[j] == b[j - |a|];
        assert a[i] in a && b[j - |a|] in b;
      }
    }
  }

  /** With unique primary keys, a row is found at its own position. */
  lemma IndexOfRow(rows: seq<Category>, i: nat)
    requires UniqueIds(rows) && i < |rows|
    ensures IndexOf(rows, rows[i].id) == Some(i)
    ensures ParentOf(rows, rows[i].id) == rows[i].parent
  {
    var r := IndexOf(rows, rows[i].id);
    assert r.Some?;
  }

  /** A row of a forest is ranked, and so is its parent, strictly lower. */
  lemma RankOf(rows: seq<Category>, rank: map<nat, nat>, id: nat)
    requires Forest(rows, rank) && HasId(rows, id)
    ensures id in rank && rank[id] < |rows|
    ensures ParentOf(rows, id).Some? ==>
      var p := ParentOf(rows, id).value; HasId(rows, p) && p in rank && rank[p] < rank[id]
  {
    var i := IndexOf(rows, id).value;
    assert rows[i].id == id;
  }

  /** A row that is in the table and names `parent` as its parent. */
  lemma RankOfChild(rows: seq<Category>, rank: map<nat, nat>, k: Category, parent: nat)
    requires Forest(rows, rank) && k in rows && k.parent == Some(parent)
    ensures HasId(rows, k.id) && ParentOf(rows, k.id) == Some(parent)
    ensures k.id in rank && parent in rank && rank[parent] < rank[k.id]
  {
    var i :| 0 <= i < |rows| && rows[i] == k;
    IndexOfRow(rows, i);
  }

  // ---------------------------------------------------------------------
  // The ancestor chain (get_category_tree)

  /** The category, its parent, its parent's parent, ..., up to a root. */
  function AncestorChain(rows: seq<Category>, id: nat, ghost rank: map<nat, nat>): (chain: seq<nat>)
    requires Forest(rows, rank) && HasId(rows, id)
    ensures |chain| >= 1 && chain[0] == id
    ensures |chain| == 1 <==> ParentOf(rows, id).None?
    ensures forall x :: x in chain ==> HasId(rows, x)
    decreases (RankOf(rows, rank, id); rank[id])
  {
    RankOf(rows, rank, id);
    match ParentOf(rows, id)
    case None => [id]
    case Some(p) => [id] + AncestorChain(rows, p, rank)
  }

  /** Every category on the chain ranks no higher than where the chain starts. */
  lemma {:induction false} ChainRank(rows: seq<Category>, rank: map<nat, nat>, y: nat, x: nat)
    requires Forest(rows, rank) && HasId(rows, y) && x in AncestorChain(rows, y, rank)
    ensures x in rank && y in rank && rank[x] <= rank[y]
    decreases (RankOf(rows, rank, y); rank[y])
  {
    RankOf(rows, rank, y);
    RankOf(rows, rank, x);
    if x != y {
      var p := ParentOf(rows, y).value;
      ChainRank(rows, rank, p, x);
    }
  }

  /** The ancestor chain never repeats a category. */
  lemma {:induction false} ChainDistinct(rows: seq<Category>, rank: map<nat, nat>, y: nat)
    requires Forest(rows, rank) && HasId(rows, y)
    ensures Distinct(AncestorChain(rows, y, rank))
    decreases (RankOf(rows, rank, y); rank[y])
  {
    RankOf(rows, rank, y);
    var chain := AncestorChain(rows, y, rank);
    if ParentOf(rows, y).Some? {
      var p := ParentOf(rows, y).value;
      var tail := AncestorChain(rows, p, rank);
      ChainDistinct(rows, rank, p);
      assert chain == [y] + tail;
      forall x | x in tail ensures x != y {
        ChainRank(rows, rank, p, x);
      }
      DistinctConcat([y], tail);
    }
  }

  /** Dropping the first `i` categories of a chain gives the chain of the `i`-th. */
  lemma {:induction false} ChainDrop(rows: seq<Category>, rank: map<nat, nat>, y: nat, i: nat)
    requires Forest(rows, rank) && HasId(rows, y) && i < |AncestorChain(rows, y, rank)|
    ensures AncestorChain(rows, y, rank)[i..] ==
            AncestorChain(rows, AncestorChain(rows, y, rank)[i], rank)
    decreases i
  {
    if i > 0 {
      var p := ParentOf(rows, y).value;
      var chain := AncestorChain(rows, y, rank);
      assert chain == [y] + AncestorChain(rows, p, rank);
      assert chain[i..] == AncestorChain(rows, p, rank)[i - 1..];
      ChainDrop(rows, rank, p, i - 1);
    }
  }

  /**
   * The chain starts at the category, each later element is the parent of
   * the one before it, and the last has no parent.
   */
  lemma ChainShape(rows: seq<Category>, rank: map<nat, nat>, y: nat)
    requires Forest(rows, rank) && HasId(rows, y)
    ensures var chain := AncestorChain(rows, y, rank);
      && chain[0] == y
      && (forall i :: 0 <= i < |chain| - 1 ==> ParentOf(rows, chain[i]) == Some(chain[i + 1]))
      && ParentOf(rows, chain[|chain| - 1]).None?
  {
    var chain := AncestorChain(rows, y, rank);
    forall i | 0 <= i < |chain| - 1 ensures ParentOf(rows, chain[i]) == Some(chain[i + 1]) {
      ChainDrop(rows, rank, y, i);
      var sub := AncestorChain(rows, chain[i], rank);
      assert |sub| > 1;
      assert sub[1] == chain[i + 1];
    }
    ChainDrop(rows, rank, y, |chain| - 1);
  }

  /**
   * Any list that starts at a category, steps from each category to its
   * parent and stops at a root is that category's ancestor chain.
   */
  lemma {:induction false} ChainUnique(rows: seq<Category>, rank: map<nat, nat>, s: seq<nat>)
    requires Forest(rows, rank) && |s| >= 1
    requires forall x :: x in s ==> HasId(rows, x)
    requires forall i :: 0 <= i < |s| - 1 ==> ParentOf(rows, s[i]) == Some(s[i + 1])
    requires ParentOf(rows, s[|s| - 1]).None?
    ensures s == AncestorChain(rows, s[0], rank)
  {
    if |s| > 1 {
      assert ParentOf(rows, s[0]) == Some(s[1]);
      ChainUnique(rows, rank, s[1..]);
      assert s == [s[0]] + s[1..];
    }
  }

  // ---------------------------------------------------------------------
  // The descendant list (get_sub_categorys)

  /** `all_categorys.filter(parent_category=id)`: the child rows, in table order. */
  function ChildRows(rows: seq<Category>, id: nat): (kids: seq<Category>)
    ensures forall k :: k in kids <==> k in rows && k.parent == Some(id)
  {
    if |rows| == 0 then []
    else (if rows[0].parent == Some(id) then [rows[0]] else []) + ChildRows(rows[1..], id)
  }

  /** The category, then the descendant lists of its children in turn. */
  function Descendants(rows: seq<Category>, id: nat, ghost rank: map<nat, nat>): (d: seq<nat>)
    requires Forest(rows, rank) && HasId(rows, id)
    ensures |d| >= 1 && d[0] == id
    decreases (RankOf(rows, rank, id); |rows| - rank[id]), 1
  {
    RankOf(rows, rank, id);
    [id] + DescendantsOfAll(rows, id, ChildRows(rows, id), rank)
  }

  /** The descendant lists of `kids`, children of `parent`, concatenated in order. */
  function DescendantsOfAll(rows: seq<Category>, parent: nat, kids: seq<Category>,
                            ghost rank: map<nat, nat>): (d: seq<nat>)
    requires Forest(rows, rank) && HasId(rows, parent)
    requires forall k :: k in kids ==> k in rows && k.parent == Some(parent)
    decreases (RankOf(rows, rank, parent); |rows| - rank[parent]), 0, |kids|
  {
    RankOf(rows, rank, parent);
    if |kids| == 0 then []
    else
      var last := kids[|kids| - 1];
      RankOfChild(rows, rank, last, parent);
      RankOf(rows, rank, last.id);
      DescendantsOfAll(rows, parent, kids[..|kids| - 1], rank) + Descendants(rows, last.id, rank)
  }

  /** The children's lists grow by one child's list per further child. */
  lemma DescendantsOfAllStep(rows: seq<Category>, rank: map<nat, nat>, parent: nat,
                             kids: seq<Category>, i: nat)
    requires Forest(rows, rank) && HasId(rows, parent)
    requires forall k :: k in kids ==> k in rows && k.parent == Some(parent)
    requires i < |kids|
    ensures HasId(rows, kids[i].id)
    ensures DescendantsOfAll(rows, parent, kids[..i + 1], rank)
         == DescendantsOfAll(rows, parent, kids[..i], rank) + Descendants(rows, kids[i].id, rank)
  {
    RankOfChild(rows, rank, kids[i], parent);
    var front := kids[..i + 1];
    assert front[..i] == kids[..i];
    assert front[i] == kids[i];
  }

  /** The lists of the first `m` children begin the lists of all children. */
  lemma {:induction false} DescendantsOfAllPrefix(rows: seq<Category>, rank: map<nat, nat>, parent: nat,
                                                  kids: seq<Category>, m: nat)
    requires Forest(rows, rank) && HasId(rows, parent)
    requires forall k :: k in kids ==> k in rows && k.parent == Some(parent)
    requires m <= |kids|
    ensures DescendantsOfAll(rows, parent, kids[..m], rank) <= DescendantsOfAll(rows, parent, kids, rank)
    decreases |kids|
  {
    if m < |kids| {
      var n := |kids| - 1;
      var front := kids[..n];
      RankOfChild(rows, rank, kids[n], parent);
      assert front[..m] == kids[..m];
      DescendantsOfAllPrefix(rows, rank, parent, front, m);
      assert DescendantsOfAll(rows, parent, kids, rank)
          == DescendantsOfAll(rows, parent, front, rank) + Descendants(rows, kids[n].id, rank);
    } else {
      assert kids[..m] == kids;
    }
  }

  /** Whatever the children's lists hold comes from one particular child. */
  lemma {:induction false} MemberOfSome(rows: seq<Category>, rank: map<nat, nat>, parent: nat,
                                        kids: seq<Category>, y: nat) returns (j: nat)
    requires Forest(rows, rank) && HasId(rows, parent)
    requires forall k :: k in kids ==> k in rows && k.parent == Some(parent)
    requires y in DescendantsOfAll(rows, parent, kids, rank)
    ensures j < |kids| && HasId(rows, kids[j].id)
    ensures y in Descendants(rows, kids[j].id, rank)
    decreases |kids|
  {
    var n := |kids| - 1;
    RankOfChild(rows, rank, kids[n], parent);
    if y in Descendants(rows, kids[n].id, rank) {
      j := n;
    } else {
      j := MemberOfSome(rows, rank, parent, kids[..n], y);
      assert kids[..n][j] == kids[j];
    }
  }

  /** Every child's list is part of the children's lists. */
  lemma MemberOfAll(rows: seq<Category>, rank: map<nat, nat>, parent: nat,
                    kids: seq<Category>, j: nat, y: nat)
    requires Forest(rows, rank) && HasId(rows, parent)
    requires forall k :: k in kids ==> k in rows && k.parent == Some(parent)
    requires j < |kids| && HasId(rows, kids[j].id) && y in Descendants(rows, kids[j].id, rank)
    ensures y in DescendantsOfAll(rows, parent, kids, rank)
  {
    var pre := DescendantsOfAll(rows, parent, kids[..j + 1], rank);
    assert y in pre by {
      DescendantsOfAllStep(rows, rank, parent, kids, j);
    }
    var all := DescendantsOfAll(rows, parent, kids, rank);
    assert pre <= all by {
      DescendantsOfAllPrefix(rows, rank, parent, kids, j + 1);
    }
    var p :| 0 <= p < |pre| && pre[p] == y;
    assert all[p] == y;
  }

  /** A descendant has the category on its ancestor chain. */
  lemma {:induction false} DescendantHasAncestor(rows: seq<Category>, rank: map<nat, nat>, c: nat, y: nat)
    requires Forest(rows, rank) && HasId(rows, c) && y in Descendants(rows, c, rank)
    ensures HasId(rows, y) && c in AncestorChain(rows, y, rank)
    decreases (RankOf(rows, rank, c); |rows| - rank[c])
  {
    RankOf(rows, rank, c);
    if y != c {
      var kids := ChildRows(rows, c);
      var j := MemberOfSome(rows, rank, c, kids, y);
      var kid := kids[j];
      RankOfChild(rows, rank, kid, c);
      DescendantHasAncestor(rows, rank, kid.id, y);
      ChainThroughParent(rows, rank, y, kid.id, c);
    }
  }

  /** When `k` is on the chain of `y`, so is the parent of `k`. */
  lemma ChainThroughParent(rows: seq<Category>, rank: map<nat, nat>, y: nat, k: nat, p: nat)
    requires Forest(rows, rank) && HasId(rows, y) && k in AncestorChain(rows, y, rank)
    requires ParentOf(rows, k) == Some(p)
    ensures p in AncestorChain(rows, y, rank)
  {
    var chain := AncestorChain(rows, y, rank);
    var i :| 0 <= i < |chain| && chain[i] == k;
    ChainDrop(rows, rank, y, i);
    var sub := AncestorChain(rows, k, rank);
    assert sub == [k] + AncestorChain(rows, p, rank);
    assert chain[i + 1] == sub[1] == p;
  }

  /** A child of a descendant is a descendant. */
  lemma {:induction false} DescendantsClosed(rows: seq<Category>, rank: map<nat, nat>, c: nat, p: nat, y: nat)
    requires Forest(rows, rank) && HasId(rows, c) && p in Descendants(rows, c, rank)
    requires HasId(rows, y) && ParentOf(rows, y) == Some(p)
    ensures y in Descendants(rows, c, rank)
    decreases (RankOf(rows, rank, c); |rows| - rank[c])
  {
    RankOf(rows, rank, c);
    var kids := ChildRows(rows, c);
    if p == c {
      var r := RowOf(rows, y);
      var m := IndexOf(rows, y).value;
      assert r.parent == Some(c);
      assert r in kids;
      var j :| 0 <= j < |kids| && kids[j] == r;
      RankOfChild(rows, rank, r, c);
      MemberOfAll(rows, rank, c, kids, j, y);
    } else {
      var j := MemberOfSome(rows, rank, c, kids, p);
      RankOfChild(rows, rank, kids[j], c);
      DescendantsClosed(rows, rank, kids[j].id, p, y);
      MemberOfAll(rows, rank, c, kids, j, y);
    }
  }

  /** A category with `c` on its ancestor chain is a descendant of `c`. */
  lemma {:induction false} AncestorHasDescendant(rows: seq<Category>, rank: map<nat, nat>, c: nat, y: nat)
    requires Forest(rows, rank) && HasId(rows, c) && HasId(rows, y)
    requires c in AncestorChain(rows, y, rank)
    ensures y in Descendants(rows, c, rank)
    decreases (RankOf(rows, rank, y); rank[y])
  {
    RankOf(rows, rank, y);
    if y != c {
      var p := ParentOf(rows, y).value;
      AncestorHasDescendant(rows, rank, c, p);
      DescendantsClosed(rows, rank, c, p, y);
    }
  }

  /**
   * The two derivations agree: `y` is in the descendant list of `c` exactly
   * when `c` is on the ancestor chain of `y`.
   */
  lemma DescendantsAreReachable(rows: seq<Category>, rank: map<nat, nat>, c: nat, y: nat)
    requires Forest(rows, rank) && HasId(rows, c)
    ensures y in Descendants(rows, c, rank) <==> HasId(rows, y) && c in AncestorChain(rows, y, rank)
  {
    if y in Descendants(rows, c, rank) {
      DescendantHasAncestor(rows, rank, c, y);
    }
    if HasId(rows, y) && c in AncestorChain(rows, y, rank) {
      AncestorHasDescendant(rows, rank, c, y);
    }
  }

  /** Two children of one parent have no descendant in common. */
  lemma SiblingsDisjoint(rows: seq<Category>, rank: map<nat, nat>, p: nat, k1: nat, k2: nat, y: nat)
    requires Forest(rows, rank) && HasId(rows, k1) && HasId(rows, k2)
    requires ParentOf(rows, k1) == Some(p) && ParentOf(rows, k2) == Some(p)
    requires y in Descendants(rows, k1, rank) && y in Descendants(rows, k2, rank)
    ensures k1 == k2
  {
    DescendantHasAncestor(rows, rank, k1, y);
    DescendantHasAncestor(rows, rank, k2, y);
    RankOf(rows, rank, k1);
    var chain := AncestorChain(rows, y, rank);
    var i :| 0 <= i < |chain| && chain[i] == k1;
    var j :| 0 <= j < |chain| && chain[j] == k2;
    ChainDrop(rows, rank, y, i);
    ChainDrop(rows, rank, y, j);
    assert AncestorChain(rows, k1, rank) == [k1] + AncestorChain(rows, p, rank);
    assert AncestorChain(rows, k2, rank) == [k2] + AncestorChain(rows, p, rank);
    assert |chain| - i == |chain| - j;
  }

  /** The child rows of a category carry distinct primary keys. */
  lemma {:induction false} ChildRowsDistinct(rows: seq<Category>, id: nat)
    requires UniqueIds(rows)
    ensures UniqueIds(ChildRows(rows, id))
  {
    if |rows| > 0 {
      var rest := rows[1..];
      assert UniqueIds(rest) by {
        forall i, j | 0 <= i < j < |rest| ensures rest[i].id != rest[j].id {
          assert rest[i] == rows[i + 1] && rest[j] == rows[j + 1];
        }
      }
      ChildRowsDistinct(rest, id);
      var kids := ChildRows(rows, id);
      var tail := ChildRows(rest, id);
      if rows[0].parent == Some(id) {
        assert kids == [rows[0]] + tail;
        forall i, j | 0 <= i < j < |kids| ensures kids[i].id != kids[j].id {
          assert kids[j] == tail[j - 1];
          if i > 0 {
            assert kids[i] == tail[i - 1];
          } else {
            assert tail[j - 1] in rest;
            var m :| 0 <= m < |rest| && rest[m] == tail[j - 1];
            assert rows[m + 1] == tail[j - 1];
          }
        }
      } else {
        assert kids == tail;
      }
    }
  }

  /** Siblings come in name order when the table does (`ordering = ['name']`). */
  lemma {:induction false} ChildRowsByName(rows: seq<Category>, id: nat, less: NameOrder)
    requires ByName(rows, less)
    ensures ByName(ChildRows(rows, id), less)
  {
    if |rows| > 0 {
      var rest := rows[1..];
      assert ByName(rest, less) by {
        forall i, j | 0 <= i < j < |rest| ensures less(rest[i].name, rest[j].name) {
          assert rest[i] == rows[i + 1] && rest[j] == rows[j + 1];
        }
      }
      ChildRowsByName(rest, id, less);
      var kids := ChildRows(rows, id);
      var tail := ChildRows(rest, id);
      if rows[0].parent == Some(id) {
        assert kids == [rows[0]] + tail;
        forall i, j | 0 <= i < j < |kids| ensures less(kids[i].name, kids[j].name) {
          assert kids[j] == tail[j - 1];
          if i > 0 {
            assert kids[i] == tail[i - 1];
          } else {
            assert tail[j - 1] in rest;
            var m :| 0 <= m < |rest| && rest[m] == tail[j - 1];
            assert rows[m + 1] == tail[j - 1];
          }
        }
      } else {
        assert kids == tail;
      }
    }
  }

  /** No category appears twice in a descendant list. */
  lemma {:induction false} DescendantsDistinct(rows: seq<Category>, rank: map<nat, nat>, c: nat)
    requires Forest(rows, rank) && HasId(rows, c)
    ensures Distinct(Descendants(rows, c, rank))
    decreases (RankOf(rows, rank, c); |rows| - rank[c]), 1
  {
    RankOf(rows, rank, c);
    var kids := ChildRows(rows, c);
    ChildRowsDistinct(rows, c);
    DescendantsOfAllDistinct(rows, rank, c, kids);
    var rest := DescendantsOfAll(rows, c, kids, rank);
    forall y | y in rest ensures y != c {
      var j := MemberOfSome(rows, rank, c, kids, y);
      RankOfChild(rows, rank, kids[j], c);
      DescendantHasAncestor(rows, rank, kids[j].id, y);
      ChainRank(rows, rank, y, kids[j].id);
    }
    assert Descendants(rows, c, rank) == [c] + rest;
    DistinctConcat([c], rest);
  }

  lemma {:induction false} DescendantsOfAllDistinct(rows: seq<Category>, rank: map<nat, nat>,
                                                    parent: nat, kids: seq<Category>)
    requires Forest(rows, rank) && HasId(rows, parent)
    requires forall k :: k in kids ==> k in rows && k.parent == Some(parent)
    requires UniqueIds(kids)
    ensures Distinct(DescendantsOfAll(rows, parent, kids, rank))
    decreases (RankOf(rows, rank, parent); |rows| - rank[parent]), 0, |kids|
  {
    RankOf(rows, rank, parent);
    if |kids| > 0 {
      var n := |kids| - 1;
      var last := kids[n];
      var front := kids[..n];
      RankOfChild(rows, rank, last, parent);
      DescendantsOfAllDistinct(rows, rank, parent, front);
      DescendantsDistinct(rows, rank, last.id);
      var a := DescendantsOfAll(rows, parent, front, rank);
      var b := Descendants(rows, last.id, rank);
      forall y | y in a ensures y !in b {
        var j := MemberOfSome(rows, rank, parent, front, y);
        assert front[j] == kids[j];
        RankOfChild(rows, rank, kids[j], parent);
        if y in b {
          SiblingsDisjoint(rows, rank, parent, kids[j].id, last.id, y);
        }
      }
      assert DescendantsOfAll(rows, parent, kids, rank) == a + b;
      DistinctConcat(a, b);
    }
  }

  /** Of two children of `c`, the one yielded first is listed first. */
  lemma EarlierChildFirst(rows: seq<Category>, rank: map<nat, nat>, c: nat, kids: seq<Category>, i: nat, j: nat)
    requires Forest(rows, rank) && HasId(rows, c)
    requires kids == ChildRows(rows, c) && i < j < |kids|
    ensures var d := Descendants(rows, c, rank);
      exists p, q :: 0 <= p < q < |d| && d[p] == kids[i].id && d[q] == kids[j].id
  {
    RankOf(rows, rank, c);
    var a := DescendantsOfAll(rows, c, kids[..j], rank);
    RankOfChild(rows, rank, kids[i], c);
    assert kids[i].id in a by {
      assert kids[..j][i] == kids[i];
      MemberOfAll(rows, rank, c, kids[..j], i, kids[i].id);
    }
    var e := Descendants(rows, kids[j].id, rank);
    var b := DescendantsOfAll(rows, c, kids[..j + 1], rank);
    assert b == a + e by {
      DescendantsOfAllStep(rows, rank, c, kids, j);
    }
    var all := DescendantsOfAll(rows, c, kids, rank);
    assert b <= all by {
      DescendantsOfAllPrefix(rows, rank, c, kids, j + 1);
    }
    assert Descendants(rows, c, rank) == [c] + all;
    EarlierInPrefix([c], all, a, e, kids[i].id, kids[j].id);
  }

  /** In `head + all`, where `all` begins with `a + e`, an entry of `a` comes before the head of `e`. */
  lemma EarlierInPrefix(head: seq<nat>, all: seq<nat>, a: seq<nat>, e: seq<nat>, x: nat, y: nat)
    requires a + e <= all && x in a && |e| > 0 && e[0] == y
    ensures var d := head + all;
      exists p, q :: 0 <= p < q < |d| && d[p] == x && d[q] == y
  {
    var d := head + all;
    var b := a + e;
    var p' :| 0 <= p' < |a| && a[p'] == x;
    var p, q := |head| + p', |head| + |a|;
    assert d[p] == all[p'] == b[p'];
    assert d[q] == all[|a|] == b[|a|];
  }

  /**
   * Siblings are visited in name order: of two children of `c`, the one
   * whose name sorts first is listed first.
   */
  lemma SiblingsInNameOrder(rows: seq<Category>, rank: map<nat, nat>, c: nat, k1: Category, k2: Category,
                            less: NameOrder)
    requires Forest(rows, rank) && StrictOrder(less) && ByName(rows, less) && HasId(rows, c)
    requires k1 in rows && k2 in rows && k1.parent == Some(c) && k2.parent == Some(c)
    requires less(k1.name, k2.name)
    ensures var d := Descendants(rows, c, rank);
      exists p, q :: 0 <= p < q < |d| && d[p] == k1.id && d[q] == k2.id
  {
    var kids := ChildRows(rows, c);
    var i :| 0 <= i < |kids| && kids[i] == k1;
    var j :| 0 <= j < |kids| && kids[j] == k2;
    assert i < j by {
      ChildRowsByName(rows, c, less);
    }
    EarlierChildFirst(rows, rank, c, kids, i, j);
  }

  // ---------------------------------------------------------------------
  // Pre-order: a category is listed after its parent

  /** Each element's parent is `root` or an earlier element. */
  ghost predicate ParentsBefore(rows: seq<Category>, s: seq<nat>, root: nat)
  {
    forall i :: 0 <= i < |s| ==>
      ParentOf(rows, s[i]) == Some(root) || exists j :: 0 <= j < i && ParentOf(rows, s[i]) == Some(s[j])
  }

  lemma ParentsBeforeConcat(rows: seq<Category>, a: seq<nat>, b: seq<nat>, root: nat)
    requires ParentsBefore(rows, a, root) && ParentsBefore(rows, b, root)
    ensures ParentsBefore(rows, a + b, root)
  {
    var s := a + b;
    forall i | 0 <= i < |s| && ParentOf(rows, s[i]) != Some(root)
      ensures exists j :: 0 <= j < i && ParentOf(rows, s[i]) == Some(s[j])
    {
      if i < |a| {
        assert s[i] == a[i];
        var j :| 0 <= j < i && ParentOf(rows, a[i]) == Some(a[j]);
        assert s[j] == a[j];
      } else {
        var k := i - |a|;
        assert s[i] == b[k];
        var j :| 0 <= j < k && ParentOf(rows, b[k]) == Some(b[j]);
        assert s[j + |a|] == b[j];
      }
    }
  }

  lemma ParentsBeforeCons(rows: seq<Category>, k: nat, s: seq<nat>, root: nat)
    requires ParentOf(rows, k) == Some(root) && ParentsBefore(rows, s, k)
    ensures ParentsBefore(rows, [k] + s, root)
  {
    var t := [k] + s;
    forall i | 0 < i < |t| && ParentOf(rows, t[i]) != Some(root)
      ensures exists j :: 0 <= j < i && ParentOf(rows, t[i]) == Some(t[j])
    {
      assert t[i] == s[i - 1];
      if ParentOf(rows, s[i - 1]) == Some(k) {
        assert t[0] == k;
      } else {
        var j :| 0 <= j < i - 1 && ParentOf(rows, s[i - 1]) == Some(s[j]);
        assert t[j + 1] == s[j];
      }
    }
  }

  lemma {:induction false} DescendantsOfAllParentsBefore(rows: seq<Category>, rank: map<nat, nat>,
                                                         parent: nat, kids: seq<Category>)
    requires Forest(rows, rank) && HasId(rows, parent)
    requires forall k :: k in kids ==> k in rows && k.parent == Some(parent)
    ensures ParentsBefore(rows, DescendantsOfAll(rows, parent, kids, rank), parent)
    decreases (RankOf(rows, rank, parent); |rows| - rank[parent]), |kids|
  {
    RankOf(rows, rank, parent);
    if |kids| > 0 {
      var n := |kids| - 1;
      var last := kids[n];
      RankOfChild(rows, rank, last, parent);
      RankOf(rows, rank, last.id);
      DescendantsOfAllParentsBefore(rows, rank, parent, kids[..n]);
      var grand := ChildRows(rows, last.id);
      DescendantsOfAllParentsBefore(rows, rank, last.id, grand);
      ParentsBeforeCons(rows, last.id, DescendantsOfAll(rows, last.id, grand, rank), parent);
      assert Descendants(rows, last.id, rank) == [last.id] + DescendantsOfAll(rows, last.id, grand, rank);
      ParentsBeforeConcat(rows, DescendantsOfAll(rows, parent, kids[..n], rank),
                          Descendants(rows, last.id, rank), parent);
    }
  }

  /** Every category after the first is listed after its parent. */
  lemma DescendantsPreOrder(rows: seq<Category>, rank: map<nat, nat>, c: nat)
    requires Forest(rows, rank) && HasId(rows, c)
    ensures var d := Descendants(rows, c, rank);
      forall i :: 0 < i < |d| ==> exists j :: 0 <= j < i && ParentOf(rows, d[i]) == Some(d[j])
  {
    RankOf(rows, rank, c);
    var kids := ChildRows(rows, c);
    var rest := DescendantsOfAll(rows, c, kids, rank);
    DescendantsOfAllParentsBefore(rows, rank, c, kids);
    var d := Descendants(rows, c, rank);
    assert d == [c] + rest;
    forall i | 0 < i < |d| ensures exists j :: 0 <= j < i && ParentOf(rows, d[i]) == Some(d[j]) {
      assert d[i] == rest[i - 1];
      if ParentOf(rows, rest[i - 1]) == Some(c) {
        assert d[0] == c;
      } else {
        var j :| 0 <= j < i - 1 && ParentOf(rows, rest[i - 1]) == Some(rest[j]);
        assert d[j + 1] == rest[j];
      }
    }
  }

  // ---------------------------------------------------------------------
  // The two methods, as the source builds their lists

  /** `Category.get_category_tree`: the ancestor chain, built by `parse`. */
  method GetCategoryTree(rows: seq<Category>, self: nat, ghost rank: map<nat, nat>)
    returns (categorys: seq<nat>)
    requires Forest(rows, rank) && HasId(rows, self)
    ensures categorys == AncestorChain(rows, self, rank)
  {
    categorys := ParseAncestors(rows, self, rank, []);
  }

  /** The inner `parse(category)`: append the category, recurse on its parent. */
  method ParseAncestors(rows: seq<Category>, category: nat, ghost rank: map<nat, nat>, acc: seq<nat>)
    returns (categorys: seq<nat>)
    requires Forest(rows, rank) && HasId(rows, category)
    ensures categorys == acc + AncestorChain(rows, category, rank)
    decreases (RankOf(rows, rank, category); rank[category])
  {
    RankOf(rows, rank, category);
    categorys := acc + [category];
    var parent := ParentOf(rows, category);
    if parent.Some? {
      categorys := ParseAncestors(rows, parent.value, rank, categorys);
      assert AncestorChain(rows, category, rank) == [category] + AncestorChain(rows, parent.value, rank);
    }
  }

  /** `Category.get_sub_categorys`: the descendant list, built by `parse`. */
  method GetSubCategorys(rows: seq<Category>, self: nat, ghost rank: map<nat, nat>)
    returns (categorys: seq<nat>)
    requires Forest(rows, rank) && HasId(rows, self)
    ensures categorys == Descendants(rows, self, rank)
  {
    categorys := ParseDescendants(rows, self, rank, []);
  }

  /**
   * What `categorys` holds when `parse(category)` starts shares no category
   * with the subtree of `category`; so it also shares none with the subtree
   * of the `i`-th child once the subtrees of the earlier children are added.
   */
  lemma FreshForChild(rows: seq<Category>, rank: map<nat, nat>, category: nat, acc: seq<nat>,
                      childs: seq<Category>, i: nat)
    requires Forest(rows, rank) && HasId(rows, category)
    requires forall x :: x in acc ==> x !in Descendants(rows, category, rank)
    requires childs == ChildRows(rows, category) && i < |childs|
    ensures HasId(rows, childs[i].id)
    ensures forall x :: x in acc + [category] + DescendantsOfAll(rows, category, childs[..i], rank) ==>
              x !in Descendants(rows, childs[i].id, rank)
  {
    var child := childs[i];
    RankOfChild(rows, rank, child, category);
    ChildRowsDistinct(rows, category);
    var done := DescendantsOfAll(rows, category, childs[..i], rank);
    forall x | x in acc + [category] + done ensures x !in Descendants(rows, child.id, rank) {
      if x in Descendants(rows, child.id, rank) {
        if x in acc {
          MemberOfAll(rows, rank, category, childs, i, x);
        } else if x == category {
          DescendantHasAncestor(rows, rank, child.id, x);
          ChainRank(rows, rank, x, child.id);
        } else {
          assert x in done;
          var j := MemberOfSome(rows, rank, category, childs[..i], x);
          assert childs[..i][j] == childs[j];
          RankOfChild(rows, rank, childs[j], category);
          SiblingsDisjoint(rows, rank, category, childs[j].id, child.id, x);
        }
      }
    }
  }

  /** The inner `parse(category)`: append the category, then parse each child in turn. */
  method ParseDescendants(rows: seq<Category>, category: nat, ghost rank: map<nat, nat>, acc: seq<nat>)
    returns (categorys: seq<nat>)
    requires Forest(rows, rank) && HasId(rows, category)
    requires forall x :: x in acc ==> x !in Descendants(rows, category, rank)
    ensures categorys == acc + Descendants(rows, category, rank)
    decreases (RankOf(rows, rank, category); |rows| - rank[category])
  {
    RankOf(rows, rank, category);
    categorys := acc;
    if category !in categorys {
      categorys := categorys + [category];
    }
    var childs := ChildRows(rows, category);
    for i := 0 to |childs|
      invariant categorys == acc + [category] + DescendantsOfAll(rows, category, childs[..i], rank)
    {
      var child := childs[i];
      ghost var done := DescendantsOfAll(rows, category, childs[..i], rank);
      assert category in categorys;
      // The source tests `category` here, which is always already listed.
      if category !in categorys {
        categorys := categorys + [child.id];
      }
      assert HasId(rows, child.id) && forall x :: x in categorys ==> x !in Descendants(rows, child.id, rank) by {
        FreshForChild(rows, rank, category, acc, childs, i);
      }
      assert DescendantsOfAll(rows, category, childs[..i + 1], rank) == done + Descendants(rows, child.id, rank) by {
        DescendantsOfAllStep(rows, rank, category, childs, i);
      }
      RankOfChild(rows, rank, child, category);
      categorys := ParseDescendants(rows, child.id, rank, categorys);
      ConcatAssoc(acc + [category], done, Descendants(rows, child.id, rank));
    }
    assert childs[..|childs|] == childs;
    assert Descendants(rows, category, rank) == [category] + DescendantsOfAll(rows, category, childs, rank);
    ConcatAssoc(acc, [category], DescendantsOfAll(rows, category, childs, rank));
  }
}
