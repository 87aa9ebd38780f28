/** categories.py: the category tree served by `get_categories` and the
    one-row re-parenting of `move_subcategory`.

    `get_categories` builds one dict per category and then links the dicts
    into each other, so a child dict is the very object stored under its own
    id. Here every such dict is a `CategoryNode` in a table keyed by id, and
    a link is the child's id in its parent's `subcategories` list (the
    nested JSON is that table read from the roots). */
module Categories {
  import opened Common
  import opened Store
  import opened SlugSuffix
  import Scraper
  import Database
  import FeedLoad

  // ---------------------------------------------------------------------
  // Product counts (lines 17-23 and 39)

  /** `product_counts.get(id, 0)`: the `COUNT(*)` of the products whose
      `category_id` is `id`. */
  function ProductCount(products: seq<ProductRow>, id: int): (n: nat)
    ensures n <= |products|
  {
    if products == [] then 0
    else
      ProductCount(products[..|products| - 1], id)
        + if products[|products| - 1].categoryId == Some(id) then 1 else 0
  }

  function RowsInCategory(products: seq<ProductRow>, id: int): set<nat> {
    set i: nat | i < |products| && products[i].categoryId == Some(id)
  }

  /** The count is the number of product rows carrying the id, and 0 for a
      category without products. */
  lemma {:induction false} ProductCountIsSize(products: seq<ProductRow>, id: int)
    ensures ProductCount(products, id) == |RowsInCategory(products, id)|
    ensures ProductCount(products, id) == 0 <==> forall i :: 0 <= i < |products| ==> products[i].categoryId != Some(id)
  {
    if products != [] {
      var n := |products| - 1;
      var front := products[..n];
      ProductCountIsSize(front, id);
      var s, s0 := RowsInCategory(products, id), RowsInCategory(front, id);
      if products[n].categoryId == Some(id) {
        assert s == s0 + {n};
        assert n !in s0;
      } else {
        assert s == s0;
      }
      assert forall i :: 0 <= i < n ==> front[i] == products[i];
    }
  }

  // ---------------------------------------------------------------------
  // The `categories` dict (lines 29-41)

  datatype CategoryNode = CategoryNode(
    id: int,
    name: string,
    slug: Option<string>,
    parentId: Option<int>,
    productCount: nat,
    subcategories: seq<int>)   // ids of the child nodes, in insertion order

  /** The dict built for one row, before any child is attached. */
  function Fresh(row: CategoryRow, products: seq<ProductRow>): CategoryNode {
    CategoryNode(row.id, row.name, row.slug, row.parentId, ProductCount(products, row.id), [])
  }

  /** A Python dict: its entries, and its keys in insertion order. */
  datatype NodeTable = NodeTable(nodes: map<int, CategoryNode>, order: seq<int>)

  /** `categories` after the loop of lines 32-41 over `rows`: a repeated id
      overwrites the entry but keeps its place. */
  function Table(rows: seq<CategoryRow>, products: seq<ProductRow>): NodeTable
    decreases |rows|
  {
    if rows == [] then NodeTable(map[], [])
    else
      var t := Table(rows[..|rows| - 1], products);
      var row := rows[|rows| - 1];
      NodeTable(t.nodes[row.id := Fresh(row, products)],
                if row.id in t.nodes then t.order else t.order + [row.id])
  }

  /** The last row carrying `id`. */
  function LastRow(rows: seq<CategoryRow>, id: int): (r: Option<nat>)
    ensures r.Some? ==> r.value < |rows| && rows[r.value].id == id
    ensures r.Some? ==> forall k :: r.value < k < |rows| ==> rows[k].id != id
    ensures r.None? ==> forall k :: 0 <= k < |rows| ==> rows[k].id != id
  {
    if rows == [] then None
    else if rows[|rows| - 1].id == id then Some(|rows| - 1)
    else LastRow(rows[..|rows| - 1], id)
  }

  predicate NoDuplicates(xs: seq<int>) {
    forall i, j :: 0 <= i < j < |xs| ==> xs[i] != xs[j]
  }

  /** The dict has one entry per distinct id, built from the last row with
      that id; its key order lists each id once. */
  lemma {:induction false} TableFacts(rows: seq<CategoryRow>, products: seq<ProductRow>)
    ensures NoDuplicates(Table(rows, products).order)
    ensures forall id :: id in Table(rows, products).nodes <==> id in Table(rows, products).order
    ensures forall id :: id in Table(rows, products).nodes <==> LastRow(rows, id).Some?
    ensures forall id :: id in Table(rows, products).nodes ==>
      Table(rows, products).nodes[id] == Fresh(rows[LastRow(rows, id).value], products)
    decreases |rows|
  {
    if rows != [] {
      TableFacts(rows[..|rows| - 1], products);
    }
  }

  // ---------------------------------------------------------------------
  // Linking (lines 44-52)

  /** The ids, in key order, whose node has parent `p`. */
  function ChildIds(order: seq<int>, nodes: map<int, CategoryNode>, p: Option<int>): (r: seq<int>)
    ensures forall id :: id in r <==> id in order && id in nodes && nodes[id].parentId == p
  {
    if order == [] then []
    else
      var id := order[|order| - 1];
      ChildIds(order[..|order| - 1], nodes, p) + if id in nodes && nodes[id].parentId == p then [id] else []
  }

  /** The served structure: every node with its children linked, and the
      ids of the top-level entries of `structured_categories`, in order. */
  datatype CategoryTree = CategoryTree(nodes: map<int, CategoryNode>, roots: seq<int>)

  function Tree(rows: seq<CategoryRow>, products: seq<ProductRow>): CategoryTree {
    Link(Table(rows, products))
  }

  /** One node per category id; each node is the last row with that id and
      its product count. */
  lemma TreeNodes(rows: seq<CategoryRow>, products: seq<ProductRow>, id: int)
    ensures id in Tree(rows, products).nodes <==> exists k :: 0 <= k < |rows| && rows[k].id == id
    ensures id in Tree(rows, products).nodes ==>
      var n, row := Tree(rows, products).nodes[id], rows[LastRow(rows, id).value];
      && n.id == id && n.name == row.name && n.slug == row.slug && n.parentId == row.parentId
      && n.productCount == |RowsInCategory(products, id)|
  {
    TableFacts(rows, products);
    ProductCountIsSize(products, id);
  }

  /** The top level holds exactly the categories without a parent. */
  lemma TreeRoots(rows: seq<CategoryRow>, products: seq<ProductRow>, id: int)
    ensures id in Tree(rows, products).roots <==>
      id in Tree(rows, products).nodes && Tree(rows, products).nodes[id].parentId.None?
  {
    TableFacts(rows, products);
  }

  /** A node lists exactly the categories whose parent it is. */
  lemma TreeChildren(rows: seq<CategoryRow>, products: seq<ProductRow>, p: int, id: int)
    requires p in Tree(rows, products).nodes
    ensures id in Tree(rows, products).nodes[p].subcategories <==>
      id in Tree(rows, products).nodes && Tree(rows, products).nodes[id].parentId == Some(p)
  {
    TableFacts(rows, products);
  }

  /** A category whose parent id names no category is attached nowhere:
      not at the top level and under no node. */
  lemma TreeOrphans(rows: seq<CategoryRow>, products: seq<ProductRow>, id: int)
    requires id in Tree(rows, products).nodes
    requires var q := Tree(rows, products).nodes[id].parentId; q.Some? && q.value !in Tree(rows, products).nodes
    ensures id !in Tree(rows, products).roots
    ensures forall p :: p in Tree(rows, products).nodes ==> id !in Tree(rows, products).nodes[p].subcategories
  {
    TableFacts(rows, products);
  }

  /** The structure does not depend on the order of the rows: two tables
      holding the same rows, each id once, give the same nodes, with the
      same children and the same top level up to order. */
  lemma TreeOrderFree(rows1: seq<CategoryRow>, rows2: seq<CategoryRow>, products: seq<ProductRow>)
    requires IdsOnce(rows1) && IdsOnce(rows2)
    requires forall r :: r in rows1 <==> r in rows2
    ensures Tree(rows1, products).nodes.Keys == Tree(rows2, products).nodes.Keys
    ensures forall id :: id in Tree(rows1, products).nodes ==>
      var n1, n2 := Tree(rows1, products).nodes[id], Tree(rows2, products).nodes[id];
      n1.(subcategories := []) == n2.(subcategories := []) &&
      (forall c :: c in n1.subcategories <==> c in n2.subcategories)
    ensures forall id :: id in Tree(rows1, products).roots <==> id in Tree(rows2, products).roots
  {
    TableFacts(rows1, products);
    TableFacts(rows2, products);
    var t1, t2 := Table(rows1, products), Table(rows2, products);
    forall id
      ensures id in t1.nodes <==> id in t2.nodes
      ensures id in t1.nodes ==> t1.nodes[id] == t2.nodes[id]
    {
      SameRowFor(rows1, rows2, id);
    }
  }

  predicate IdsOnce(rows: seq<CategoryRow>) {
    forall i, j :: 0 <= i < j < |rows| ==> rows[i].id != rows[j].id
  }

  /** A row with the id in `a` that `b` also holds gives `b` a row with it. */
  lemma LastRowShared(a: seq<CategoryRow>, b: seq<CategoryRow>, id: int)
    requires forall r :: r in a ==> r in b
    requires LastRow(a, id).Some?
    ensures LastRow(b, id).Some?
  {
    assert a[LastRow(a, id).value] in b;
  }

  /** With unique ids, the last row with an id is the only one. */
  lemma SameRowFor(rows1: seq<CategoryRow>, rows2: seq<CategoryRow>, id: int)
    requires IdsOnce(rows1) && IdsOnce(rows2)
    requires forall r :: r in rows1 <==> r in rows2
    ensures LastRow(rows1, id).Some? <==> LastRow(rows2, id).Some?
    ensures LastRow(rows1, id).Some? ==> rows1[LastRow(rows1, id).value] == rows2[LastRow(rows2, id).value]
  {
    if LastRow(rows1, id).Some? {
      LastRowShared(rows1, rows2, id);
      var l1, l2 := LastRow(rows1, id).value, LastRow(rows2, id).value;
      assert rows2[l2] in rows1;
      var k1 :| 0 <= k1 < |rows1| && rows1[k1] == rows2[l2];
      assert k1 == l1;
    } else if LastRow(rows2, id).Some? {
      LastRowShared(rows2, rows1, id);
    }
  }

  /** The second loop's result on a filled dict. */
  function Link(t: NodeTable): CategoryTree {
    CategoryTree(
      map id | id in t.nodes :: t.nodes[id].(subcategories := ChildIds(t.order, t.nodes, Some(id))),
      ChildIds(t.order, t.nodes, None))
  }

  /** Lines 32-41. */
  method FillTable(rows: seq<CategoryRow>, products: seq<ProductRow>) returns (t: NodeTable)
    ensures t == Table(rows, products)
  {
    var nodes: map<int, CategoryNode> := map[];
    var order: seq<int> := [];
    for i := 0 to |rows|
      invariant NodeTable(nodes, order) == Table(rows[..i], products)
    {
      assert rows[..i + 1][..i] == rows[..i];
      var row := rows[i];
      if row.id !in nodes {
        order := order + [row.id];
      }
      nodes := nodes[row.id := Fresh(row, products)];
    }
    assert rows[..|rows|] == rows;
    t := NodeTable(nodes, order);
  }

  /** The state of the second loop after the first `i` keys. */
  ghost predicate LinkedUpTo(t: NodeTable, i: nat, nodes: map<int, CategoryNode>, roots: seq<int>)
    requires i <= |t.order|
  {
    && roots == ChildIds(t.order[..i], t.nodes, None)
    && nodes.Keys == t.nodes.Keys
    && forall id :: id in nodes ==>
         nodes[id] == t.nodes[id].(subcategories := ChildIds(t.order[..i], t.nodes, Some(id)))
  }

  /** Lines 46-52. */
  method LinkTable(t: NodeTable) returns (tree: CategoryTree)
    requires forall id :: id in t.nodes <==> id in t.order
    requires forall id :: id in t.nodes ==> t.nodes[id].subcategories == []
    ensures tree == Link(t)
  {
    var nodes := t.nodes;
    var roots: seq<int> := [];
    for i := 0 to |t.order|
      invariant LinkedUpTo(t, i, nodes, roots)
    {
      var id := t.order[i];
      var parent := nodes[id].parentId;
      LinkStep(t, i, nodes, roots);
      if parent.None? {
        roots := roots + [id];
      } else if parent.value in nodes {
        var p := nodes[parent.value];
        nodes := nodes[parent.value := p.(subcategories := p.subcategories + [id])];
      }
    }
    assert t.order[..|t.order|] == t.order;
    assert LinkedUpTo(t, |t.order|, nodes, roots);
    forall id | id in nodes ensures nodes[id] == Link(t).nodes[id] {
    }
    assert nodes.Keys == Link(t).nodes.Keys;
    tree := CategoryTree(nodes, roots);
  }

  /** One turn of the second loop. */
  lemma LinkStep(t: NodeTable, i: nat, nodes: map<int, CategoryNode>, roots: seq<int>)
    requires i < |t.order| && t.order[i] in t.nodes
    requires LinkedUpTo(t, i, nodes, roots)
    ensures var id := t.order[i];
      var parent := t.nodes[id].parentId;
      && nodes[id].parentId == parent
      && (parent.None? ==> LinkedUpTo(t, i + 1, nodes, roots + [id]))
      && (parent.Some? && parent.value in nodes ==>
            LinkedUpTo(t, i + 1, nodes[parent.value := nodes[parent.value].(subcategories := nodes[parent.value].subcategories + [id])], roots))
      && (parent.Some? && parent.value !in nodes ==> LinkedUpTo(t, i + 1, nodes, roots))
  {
    var id := t.order[i];
    var parent := t.nodes[id].parentId;
    if parent.None? {
      LinkRoot(t, i, nodes, roots);
    } else if parent.value in nodes {
      LinkChild(t, i, nodes, roots);
    } else {
      LinkOrphan(t, i, nodes, roots);
    }
  }

  lemma LinkRoot(t: NodeTable, i: nat, nodes: map<int, CategoryNode>, roots: seq<int>)
    requires i < |t.order| && t.order[i] in t.nodes && t.nodes[t.order[i]].parentId.None?
    requires LinkedUpTo(t, i, nodes, roots)
    ensures LinkedUpTo(t, i + 1, nodes, roots + [t.order[i]])
  {
    ChildIdsNext(t, i, None);
    forall k | k in nodes ensures nodes[k] == t.nodes[k].(subcategories := ChildIds(t.order[..i + 1], t.nodes, Some(k))) {
      ChildIdsNext(t, i, Some(k));
    }
  }

  lemma LinkChild(t: NodeTable, i: nat, nodes: map<int, CategoryNode>, roots: seq<int>)
    requires i < |t.order| && t.order[i] in t.nodes
    requires var parent := t.nodes[t.order[i]].parentId; parent.Some? && parent.value in nodes
    requires LinkedUpTo(t, i, nodes, roots)
    ensures var id, q := t.order[i], t.nodes[t.order[i]].parentId.value;
      LinkedUpTo(t, i + 1, nodes[q := nodes[q].(subcategories := nodes[q].subcategories + [id])], roots)
  {
    var id, q := t.order[i], t.nodes[t.order[i]].parentId.value;
    var nodes' := nodes[q := nodes[q].(subcategories := nodes[q].subcategories + [id])];
    ChildIdsNext(t, i, None);
    forall k | k in nodes' ensures nodes'[k] == t.nodes[k].(subcategories := ChildIds(t.order[..i + 1], t.nodes, Some(k))) {
      ChildIdsNext(t, i, Some(k));
      if k == q {
        assert nodes'[k].subcategories == ChildIds(t.order[..i], t.nodes, Some(k)) + [id];
      } else {
        assert nodes'[k] == nodes[k];
      }
    }
  }

  lemma LinkOrphan(t: NodeTable, i: nat, nodes: map<int, CategoryNode>, roots: seq<int>)
    requires i < |t.order| && t.order[i] in t.nodes
    requires var parent := t.nodes[t.order[i]].parentId; parent.Some? && parent.value !in nodes
    requires LinkedUpTo(t, i, nodes, roots)
    ensures LinkedUpTo(t, i + 1, nodes, roots)
  {
    ChildIdsNext(t, i, None);
    forall k | k in nodes ensures nodes[k] == t.nodes[k].(subcategories := ChildIds(t.order[..i + 1], t.nodes, Some(k))) {
      ChildIdsNext(t, i, Some(k));
    }
  }

  /** One more id in key order joins the children of its own parent only. */
  lemma ChildIdsNext(t: NodeTable, i: nat, p: Option<int>)
    requires i < |t.order|
    ensures var id := t.order[i];
      ChildIds(t.order[..i + 1], t.nodes, p) ==
        ChildIds(t.order[..i], t.nodes, p) + if id in t.nodes && t.nodes[id].parentId == p then [id] else []
  {
    assert t.order[..i + 1][..i] == t.order[..i];
  }

  /** `get_categories`: the first loop fills the dict, the second links
      every entry under its parent or into the top level. */
  method GetCategories(db: Catalog) returns (tree: CategoryTree)
    ensures tree == Tree(db.categories, db.products)
  {
    var t := FillTable(db.categories, db.products);
    TableFacts(db.categories, db.products);
    tree := LinkTable(t);
  }

  // ---------------------------------------------------------------------
  // move_subcategory (lines 60-95)

  /** The two slugs the function looks up. */
  const SubcategorySlug: string := "Вибротрамбовки"
  const TargetSlug: string := "Строительное оборудование"

  /** `UPDATE categories SET parent_id = ? WHERE id = ?` */
  function Reparent(cats: seq<CategoryRow>, id: int, parent: int): (r: seq<CategoryRow>)
    ensures |r| == |cats|
    ensures forall i :: 0 <= i < |cats| ==>
      r[i] == if cats[i].id == id then cats[i].(parentId := Some(parent)) else cats[i]
  {
    seq(|cats|, i requires 0 <= i < |cats| => if cats[i].id == id then cats[i].(parentId := Some(parent)) else cats[i])
  }

  /** Re-parenting changes no id, name or slug, so the keys stay valid. */
  lemma ReparentSchema(t: Tables, id: int, parent: int)
    requires Schema(t)
    ensures Schema(t.(categories := Reparent(t.categories, id, parent)))
  {
    var cs, r := t.categories, Reparent(t.categories, id, parent);
    forall i, j | 0 <= i < j < |r|
      ensures r[i].id != r[j].id && r[i].name != r[j].name
      ensures r[i].slug.Some? ==> r[i].slug != r[j].slug
    {
      assert r[i].id == cs[i].id && r[i].name == cs[i].name && r[i].slug == cs[i].slug;
      assert r[j].id == cs[j].id && r[j].name == cs[j].name && r[j].slug == cs[j].slug;
    }
    forall c | c in r ensures c.id <= t.categorySeq {
      var i :| 0 <= i < |r| && r[i] == c;
      assert c.id == cs[i].id && cs[i] in cs;
    }
  }

  /** Nothing stops a category from being placed under its own child: the
      two rows then point at each other, and neither is reachable from the
      top level any more. */
  lemma ReparentMakesCycle()
    ensures var cats := [CategoryRow(1, "a", Some("a"), None), CategoryRow(2, "b", Some("b"), Some(1))];
      var moved := Reparent(cats, 1, 2);
      && moved[0].parentId == Some(2) && moved[1].parentId == Some(1)
      && Tree(moved, []).roots == []
  {
    var cats := [CategoryRow(1, "a", Some("a"), None), CategoryRow(2, "b", Some("b"), Some(1))];
    var moved := Reparent(cats, 1, 2);
    var roots := Tree(moved, []).roots;
    TableFacts(moved, []);
    if roots != [] {
      var id := roots[0];
      TreeRoots(moved, [], id);
      TreeNodes(moved, [], id);
      assert false;
    }
  }

  /** `move_subcategory` as written: both rows are looked up by slug; when
      either is missing nothing is written, otherwise the first row's parent
      becomes the second row's id. */
  method MoveSubcategory(db: Catalog)
    modifies db
    ensures var child := FindCategoryBySlug(old(db.categories), SubcategorySlug);
      var target := FindCategoryBySlug(old(db.categories), TargetSlug);
      db.categories == if child.None? || target.None? then old(db.categories)
                       else Reparent(old(db.categories), child.value, target.value)
    ensures db.products == old(db.products) && db.attributes == old(db.attributes)
    ensures db.categorySeq == old(db.categorySeq)
  {
    var child := FindCategoryBySlug(db.categories, SubcategorySlug);
    if child.None? {
      return;
    }
    var target := FindCategoryBySlug(db.categories, TargetSlug);
    if target.None? {
      return;
    }
    db.categories := Reparent(db.categories, child.value, target.value);
  }

  /** The slug lookups can only succeed on a slug starting with a Cyrillic
      capital letter. */
  predicate CapitalStart(s: string) {
    s != [] && '\U{400}' <= s[0] <= '\U{42f}'
  }

  /** A suffix never changes the first character of a non-empty base. */
  lemma CandidateStart(base: string, k: nat)
    requires base != []
    ensures Candidate(base, k)[0] == base[0]
  {
  }

  /** No slug of `scraper.py` starts with one: the base is lower-cased and
      a suffix starts with a hyphen. */
  lemma ScraperSlugsLower(name: string, k: nat)
    ensures !CapitalStart(Candidate(Scraper.ScraperSlug(name), k))
  {
    Scraper.ScraperSlugShape(name);
    ShapedStartsLower(Scraper.ScraperSlug(name), k);
  }

  lemma ShapedStartsLower(base: string, k: nat)
    requires Scraper.SlugShaped(base)
    ensures !CapitalStart(Candidate(base, k))
  {
    if base != [] {
      assert Scraper.SlugChar(base[0]);
      CandidateStart(base, k);
    }
  }

  /** No slug of `database.py` starts with one: it is ASCII throughout. */
  lemma DatabaseSlugsAscii(name: string, translit: string -> string, idSuffix: Option<int>, k: nat)
    ensures !CapitalStart(Candidate(Database.BaseSlug(name, translit, idSuffix), k))
  {
    var base := Database.BaseSlug(name, translit, idSuffix);
    Database.BaseSlugWellFormed(name, translit, idSuffix);
    Database.CandidateWellFormed(base, k);
    assert Database.IsSlugChar(Candidate(base, k)[0]);
  }

  /** Every category slug the feed load stores comes from `database.py`. */
  lemma FeedSlugsAscii(name: string, translit: string -> string, slugs: set<string>, id: int)
    ensures var s := FeedLoad.ClaimSlug(name, translit, slugs, id).0;
      s.Some? ==> !CapitalStart(s.value)
  {
    var base := Database.BaseSlug(name, translit, Some(id));
    DatabaseSlugsAscii(name, translit, Some(id), FreeIndex(base, slugs, 0));
  }

  predicate LowerSlugs(cats: seq<CategoryRow>) {
    forall i :: 0 <= i < |cats| && cats[i].slug.Some? ==> !CapitalStart(cats[i].slug.value)
  }

  /** Saving a breadcrumb path only adds rows with such slugs. */
  lemma {:induction false} SaveKeepsLowerSlugs(t: Tables, index: map<string, int>, crumbs: seq<Scraper.Crumb>, parent: Option<int>)
    requires LowerSlugs(t.categories)
    ensures LowerSlugs(Scraper.ResolvePath(t, index, crumbs, parent).0.categories)
    decreases |crumbs|
  {
    if crumbs != [] && crumbs[0].Name? {
      var name := crumbs[0].text;
      var (t1, id) := Scraper.ResolveOne(t, index, name, parent);
      ResolveKeepsLowerSlugs(t, index, name, parent);
      SaveKeepsLowerSlugs(t1, index, crumbs[1..], Some(id));
    }
  }

  lemma ResolveKeepsLowerSlugs(t: Tables, index: map<string, int>, name: string, parent: Option<int>)
    requires LowerSlugs(t.categories)
    ensures LowerSlugs(Scraper.ResolveOne(t, index, name, parent).0.categories)
  {
    if name !in index && FindCategoryByName(t.categories, name).None? {
      var cats := Scraper.ResolveOne(t, index, name, parent).0.categories;
      var base := Scraper.ScraperSlug(name);
      var k := FreeIndex(base, CategorySlugs(t.categories), 0);
      ScraperSlugsLower(name, k);
      assert cats == t.categories + [cats[|t.categories|]];
      assert cats[|t.categories|].slug == Some(Candidate(base, k));
      forall i | 0 <= i < |t.categories| ensures cats[i] == t.categories[i] {
      }
    }
  }

  /** Hence on a catalog whose category slugs were all generated, as
      written the function finds neither row and changes nothing. */
  lemma MoveAsWrittenFindsNothing(cats: seq<CategoryRow>)
    requires LowerSlugs(cats)
    ensures FindCategoryBySlug(cats, SubcategorySlug).None?
    ensures FindCategoryBySlug(cats, TargetSlug).None?
  {
    assert CapitalStart(SubcategorySlug) && CapitalStart(TargetSlug);
    forall i | 0 <= i < |cats|
      ensures cats[i].slug != Some(SubcategorySlug) && cats[i].slug != Some(TargetSlug)
    {
    }
  }

  /** The names the docstring and the log messages give. */
  const SubcategoryName: string := "Вибротрамбовки"
  const TargetName: string := "Строительное оборудование"

  /** The move as intended: the rows are looked up by their names, which
      the schema keeps unique. */
  method MoveSubcategoryByName(db: Catalog)
    modifies db
    ensures var child := FindCategoryByName(old(db.categories), SubcategoryName);
      var target := FindCategoryByName(old(db.categories), TargetName);
      db.categories == if child.None? || target.None? then old(db.categories)
                       else Reparent(old(db.categories), child.value, target.value)
    ensures db.products == old(db.products) && db.attributes == old(db.attributes)
    ensures db.categorySeq == old(db.categorySeq)
  {
    var child := FindCategoryByName(db.categories, SubcategoryName);
    if child.None? {
      return;
    }
    var target := FindCategoryByName(db.categories, TargetName);
    if target.None? {
      return;
    }
    db.categories := Reparent(db.categories, child.value, target.value);
  }

  /** On a valid catalog holding both names, the row named
      "Вибротрамбовки" ends up under the row named "Строительное
      оборудование", whatever the slugs are, and no other row changes. */
  lemma MoveByNameMoves(t: Tables, i: nat, j: nat)
    requires Schema(t)
    requires i < |t.categories| && t.categories[i].name == SubcategoryName
    requires j < |t.categories| && t.categories[j].name == TargetName
    ensures FindCategoryByName(t.categories, SubcategoryName) == Some(t.categories[i].id)
    ensures FindCategoryByName(t.categories, TargetName) == Some(t.categories[j].id)
    ensures var moved := Reparent(t.categories, t.categories[i].id, t.categories[j].id);
      && moved[i] == t.categories[i].(parentId := Some(t.categories[j].id))
      && forall k :: 0 <= k < |t.categories| && k != i ==> moved[k] == t.categories[k]
  {
    FindUniqueName(t.categories, i);
    FindUniqueName(t.categories, j);
  }

  /** With unique names and ids, the lookup by a row's name finds that
      row's id. */
  lemma FindUniqueName(cats: seq<CategoryRow>, i: nat)
    requires i < |cats|
    requires forall a, b :: 0 <= a < b < |cats| ==> cats[a].name != cats[b].name
    ensures FindCategoryByName(cats, cats[i].name) == Some(cats[i].id)
  {
    var c := FindCategoryByName(cats, cats[i].name);
    var k :| 0 <= k < |cats| && cats[k].name == cats[i].name && cats[k].id == c.value;
    assert k == i;
  }
}
