/** The three tables of the catalog database (products, product_attributes,
    categories) held in memory, with the lookups the SQL queries perform. */
module Store {
  import opened Common

  datatype ProductRow = ProductRow(
    id: int,
    name: string,
    slug: Option<string>,
    price: Option<real>,
    priceRrc: Option<real>,
    description: string,
    image: string,          // image URLs joined with ","
    categoryId: Option<int>,
    available: bool)

  datatype AttributeRow = AttributeRow(productId: int, name: string, value: string)

  /** A `{"name": ..., "value": ...}` pair, as scraped and as served. */
  datatype Attribute = Attribute(name: string, value: string)

  datatype CategoryRow = CategoryRow(id: int, name: string, slug: Option<string>, parentId: Option<int>)

  /** The whole database. `categorySeq` is SQLite's AUTOINCREMENT
      high-water mark for categories: the largest id ever stored there. */
  datatype Tables = Tables(
    products: seq<ProductRow>,
    attributes: seq<AttributeRow>,
    categories: seq<CategoryRow>,
    categorySeq: int)

  function ProductSlugs(products: seq<ProductRow>): set<string> {
    set p | p in products && p.slug.Some? :: p.slug.value
  }

  function CategorySlugs(categories: seq<CategoryRow>): set<string> {
    set c | c in categories && c.slug.Some? :: c.slug.value
  }

  function ProductIds(products: seq<ProductRow>): set<int> {
    set p | p in products :: p.id
  }

  function CategoryIds(categories: seq<CategoryRow>): set<int> {
    set c | c in categories :: c.id
  }

  /** `SELECT id FROM categories WHERE name = ?` followed by fetchone(). */
  function FindCategoryByName(categories: seq<CategoryRow>, name: string): (r: Option<int>)
    ensures r.None? <==> forall i :: 0 <= i < |categories| ==> categories[i].name != name
    ensures r.Some? ==> exists i :: 0 <= i < |categories| && categories[i].name == name && categories[i].id == r.value
  {
    if categories == [] then None
    else if categories[0].name == name then Some(categories[0].id)
    else
      var r := FindCategoryByName(categories[1..], name);
      assert forall i :: 1 <= i < |categories| ==> categories[i] == categories[1..][i - 1];
      r
  }

  /** `SELECT id FROM categories WHERE slug = ?` followed by fetchone(). */
  function FindCategoryBySlug(categories: seq<CategoryRow>, slug: string): (r: Option<int>)
    ensures r.None? <==> forall i :: 0 <= i < |categories| ==> categories[i].slug != Some(slug)
    ensures r.Some? ==> exists i :: 0 <= i < |categories| && categories[i].slug == Some(slug) && categories[i].id == r.value
  {
    if categories == [] then None
    else if categories[0].slug == Some(slug) then Some(categories[0].id)
    else
      var r := FindCategoryBySlug(categories[1..], slug);
      assert forall i :: 1 <= i < |categories| ==> categories[i] == categories[1..][i - 1];
      r
  }

  /** `SELECT ... FROM products WHERE slug = ?` followed by fetchone(). */
  function FindProductBySlug(products: seq<ProductRow>, slug: string): (r: Option<ProductRow>)
    ensures r.None? <==> forall i :: 0 <= i < |products| ==> products[i].slug != Some(slug)
    ensures r.Some? ==> r.value in products && r.value.slug == Some(slug)
  {
    if products == [] then None
    else if products[0].slug == Some(slug) then Some(products[0])
    else
      var r := FindProductBySlug(products[1..], slug);
      assert forall i :: 1 <= i < |products| ==> products[i] == products[1..][i - 1];
      r
  }

  /** The schema's keys: product ids and category ids are primary keys,
      product slugs, category names and category slugs are UNIQUE (several
      NULL slugs are allowed), and no category id exceeds the
      AUTOINCREMENT high-water mark. */
  ghost predicate Schema(t: Tables) {
    && (forall i, j :: 0 <= i < j < |t.products| ==> t.products[i].id != t.products[j].id)
    && (forall i, j :: 0 <= i < j < |t.products| && t.products[i].slug.Some? ==> t.products[i].slug != t.products[j].slug)
    && (forall i, j :: 0 <= i < j < |t.categories| ==> t.categories[i].id != t.categories[j].id)
    && (forall i, j :: 0 <= i < j < |t.categories| ==> t.categories[i].name != t.categories[j].name)
    && (forall i, j :: 0 <= i < j < |t.categories| && t.categories[i].slug.Some? ==> t.categories[i].slug != t.categories[j].slug)
    && (forall c :: c in t.categories ==> c.id <= t.categorySeq)
  }

  /** A product row with a new id and a new (or no) slug keeps the keys;
      the attribute rows play no part in them. */
  lemma AddProductSchema(t: Tables, row: ProductRow, attributes: seq<AttributeRow>)
    requires Schema(t)
    requires row.id !in ProductIds(t.products)
    requires row.slug.Some? ==> row.slug.value !in ProductSlugs(t.products)
    ensures Schema(Tables(t.products + [row], attributes, t.categories, t.categorySeq))
  {
    var n, ps := |t.products|, t.products + [row];
    forall i, j | 0 <= i < j < |ps|
      ensures ps[i].id != ps[j].id
      ensures ps[i].slug.Some? ==> ps[i].slug != ps[j].slug
    {
      assert ps[i] == t.products[i] && t.products[i] in t.products;
      if j < n {
        assert ps[j] == t.products[j];
      }
    }
  }

  /** A category row with a new id, name and slug, numbered from the
      sequence, keeps the keys. */
  lemma AddCategorySchema(t: Tables, row: CategoryRow)
    requires Schema(t)
    requires row.id !in CategoryIds(t.categories) && row.id >= t.categorySeq
    requires forall i :: 0 <= i < |t.categories| ==> t.categories[i].name != row.name
    requires row.slug.Some? ==> row.slug.value !in CategorySlugs(t.categories)
    ensures Schema(t.(categories := t.categories + [row], categorySeq := row.id))
  {
    var n, cs := |t.categories|, t.categories + [row];
    forall i, j | 0 <= i < j < |cs|
      ensures cs[i].id != cs[j].id && cs[i].name != cs[j].name
      ensures cs[i].slug.Some? ==> cs[i].slug != cs[j].slug
    {
      assert cs[i] == t.categories[i] && t.categories[i] in t.categories;
      if j < n {
        assert cs[j] == t.categories[j];
      }
    }
    forall c | c in cs ensures c.id <= row.id {
      if c != row {
        assert c in t.categories;
      }
    }
  }

  /** The database file every endpoint and loader opens. */
  class Catalog {
    var products: seq<ProductRow>
    var attributes: seq<AttributeRow>
    var categories: seq<CategoryRow>
    var categorySeq: int

    function Snapshot(): Tables
      reads this
    {
      Tables(products, attributes, categories, categorySeq)
    }

    ghost predicate Valid()
      reads this
    {
      Schema(Snapshot())
    }
  }
}
