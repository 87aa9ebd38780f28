/** database.py, load_xml_to_db: the bulk load of the XML feed. The parsed
    feed comes in as two sequences of records, one per `<category>` and one
    per `<offer>` element, in document order. */
module FeedLoad {
  import opened Common
  import opened SlugSuffix
  import opened Store
  import opened Database

  /** A numeric element after `float(...)`: missing, parsed, or text that
      `float` rejects. For `price` a missing element reads as 0.0; for
      `price_rrc` a missing or empty element reads as NULL. */
  datatype FeedNumber = Absent | Num(value: real) | Bad

  /** `<category id=".." parentId="..">text</category>` */
  datatype FeedCategory = FeedCategory(id: int, text: Option<string>, parentId: Option<int>)

  /** `<offer id=".." available="..">` with its child elements. */
  datatype FeedOffer = FeedOffer(
    id: int,
    name: string,
    price: FeedNumber,
    priceRrc: FeedNumber,
    description: string,
    pictures: seq<Option<string>>,
    categoryId: int,
    available: Option<string>)

  /** The exceptions that end a load half-way. */
  datatype FeedError =
    | DuplicateCategoryId(categoryId: int)   // PRIMARY KEY clash on INSERT INTO categories
    | DuplicateProductId(productId: int)     // PRIMARY KEY clash on INSERT INTO products
    | MalformedNumber(offerId: int)          // float() raised ValueError

  /** What the load has built so far: the rows of the two tables it writes,
      the AUTOINCREMENT mark, `category_map` and `existing_slugs`. */
  datatype Loading = Loading(
    categories: seq<CategoryRow>,
    categorySeq: int,
    categoryMap: map<int, int>,
    slugs: set<string>,
    products: seq<ProductRow>)

  datatype Progress = Going(st: Loading) | Stopped(error: FeedError, st: Loading)

  // ---------------------------------------------------------------------
  // One record at a time

  /** generate_slug with the shared set: no slug for an empty name, else the
      first free candidate, which joins the set. */
  function ClaimSlug(name: string, translit: string -> string, slugs: set<string>, id: int)
    : (r: (Option<string>, set<string>))
    ensures name == [] ==> r.0 == None && r.1 == slugs
    ensures name != [] ==> r.0.Some? && r.0.value !in slugs && r.1 == slugs + {r.0.value}
  {
    if name == [] then (None, slugs)
    else
      var s := FirstFree(BaseSlug(name, translit, Some(id)), slugs);
      FirstFreeIsLeastFree(BaseSlug(name, translit, Some(id)), slugs);
      (Some(s), slugs + {s})
  }

  /** `category.text.strip() if category.text else ""` */
  function FeedName(c: FeedCategory): string {
    Strip(c.text.GetOr(""))
  }

  /** The stripped names of the feed's category nodes, in order. */
  function FeedNames(cs: seq<FeedCategory>): (r: seq<string>)
    ensures |r| == |cs|
    ensures forall j :: 0 <= j < |cs| ==> r[j] == FeedName(cs[j])
  {
    seq(|cs|, j requires 0 <= j < |cs| => FeedName(cs[j]))
  }

  /** Lines 119-139 for one `<category>`: a name already in the table only
      maps the feed id to that row; otherwise the row is inserted with the
      feed id, which fails when that id is already taken. The slug is
      claimed either way. */
  function LoadCategory(st: Loading, c: FeedCategory, translit: string -> string): Progress {
    var name := FeedName(c);
    var claim := ClaimSlug(name, translit, st.slugs, c.id);
    match FindCategoryByName(st.categories, name)
    case Some(existing) =>
      Going(st.(categoryMap := st.categoryMap[c.id := existing], slugs := claim.1))
    case None =>
      if c.id in CategoryIds(st.categories) then Stopped(DuplicateCategoryId(c.id), st)
      else Going(st.(
        categories := st.categories + [CategoryRow(c.id, name, claim.0, c.parentId)],
        categorySeq := if c.id > st.categorySeq then c.id else st.categorySeq,
        categoryMap := st.categoryMap[c.id := c.id],
        slugs := claim.1))
  }

  /** `item.get("available", "false").lower() == "true"` */
  function Available(attr: Option<string>): (r: bool)
    ensures attr.None? ==> !r
    ensures r <==> attr.Some? && Lower(attr.value) == "true"
  {
    Lower(attr.GetOr("false")) == "true"
  }

  /** The product row an offer becomes, given its slug and `category_map`. */
  function OfferRow(o: FeedOffer, slug: Option<string>, categoryMap: map<int, int>): (r: ProductRow)
    requires !o.price.Bad? && !o.priceRrc.Bad?
    ensures r.id == o.id && r.name == Strip(o.name) && r.slug == slug && r.description == o.description
    ensures r.price == Some(if o.price.Num? then o.price.value else 0.0)
    ensures r.priceRrc.None? <==> o.priceRrc.Absent?
    ensures r.categoryId.Some? <==> o.categoryId in categoryMap
    ensures r.categoryId.Some? ==> r.categoryId.value == categoryMap[o.categoryId]
  {
    ProductRow(
      o.id, Strip(o.name), slug,
      Some(if o.price.Num? then o.price.value else 0.0),
      if o.priceRrc.Num? then Some(o.priceRrc.value) else None,
      o.description,
      JoinWith(PresentTexts(o.pictures), ','),
      if o.categoryId in categoryMap then Some(categoryMap[o.categoryId]) else None,
      Available(o.available))
  }

  /** Lines 142-164 for one `<offer>`. */
  function LoadOffer(st: Loading, o: FeedOffer, translit: string -> string): Progress {
    var claim := ClaimSlug(Strip(o.name), translit, st.slugs, o.id);
    if o.price.Bad? || o.priceRrc.Bad? then Stopped(MalformedNumber(o.id), st)
    else if o.id in ProductIds(st.products) then Stopped(DuplicateProductId(o.id), st)
    else Going(st.(products := st.products + [OfferRow(o, claim.0, st.categoryMap)], slugs := claim.1))
  }

  // ---------------------------------------------------------------------
  // The two loops and the whole load

  function LoadCategories(st: Loading, cs: seq<FeedCategory>, translit: string -> string): Progress {
    if cs == [] then Going(st)
    else match LoadCategories(st, cs[..|cs| - 1], translit)
      case Stopped(e, s) => Stopped(e, s)
      case Going(s) => LoadCategory(s, cs[|cs| - 1], translit)
  }

  function LoadOffers(st: Loading, os: seq<FeedOffer>, translit: string -> string): Progress {
    if os == [] then Going(st)
    else match LoadOffers(st, os[..|os| - 1], translit)
      case Stopped(e, s) => Stopped(e, s)
      case Going(s) => LoadOffer(s, os[|os| - 1], translit)
  }

  /** Once a load has stopped, the records after that point are not looked at. */
  lemma {:induction false} CategoriesStopped(st: Loading, cs: seq<FeedCategory>, n: nat, translit: string -> string)
    requires n <= |cs| && LoadCategories(st, cs[..n], translit).Stopped?
    ensures LoadCategories(st, cs, translit) == LoadCategories(st, cs[..n], translit)
    decreases |cs| - n
  {
    if n < |cs| {
      var p := cs[..n + 1];
      assert p[..|p| - 1] == cs[..n];
      assert LoadCategories(st, p, translit) == LoadCategories(st, cs[..n], translit);
      CategoriesStopped(st, cs, n + 1, translit);
    } else {
      assert cs[..n] == cs;
    }
  }

  lemma {:induction false} OffersStopped(st: Loading, os: seq<FeedOffer>, n: nat, translit: string -> string)
    requires n <= |os| && LoadOffers(st, os[..n], translit).Stopped?
    ensures LoadOffers(st, os, translit) == LoadOffers(st, os[..n], translit)
    decreases |os| - n
  {
    if n < |os| {
      var p := os[..n + 1];
      assert p[..|p| - 1] == os[..n];
      assert LoadOffers(st, p, translit) == LoadOffers(st, os[..n], translit);
      OffersStopped(st, os, n + 1, translit);
    } else {
      assert os[..n] == os;
    }
  }

  /** After an exception the uncommitted work is rolled back to the last
      commit: the one after the latest category insert (which also made the
      three DELETEs stick), or the original tables when nothing was
      inserted. */
  function RolledBack(before: Tables, st: Loading): Tables {
    if st.categories == [] then before else Tables([], [], st.categories, st.categorySeq)
  }

  /** The state the load starts from once the three tables are cleared:
      DELETE leaves the AUTOINCREMENT mark alone. */
  function Start(before: Tables): Loading {
    Loading([], before.categorySeq, map[], {}, [])
  }

  /** The tables after the load and the exception it ended with, if any. */
  function LoadFeedSpec(before: Tables, cs: seq<FeedCategory>, os: seq<FeedOffer>,
                        translit: string -> string): (Tables, Option<FeedError>) {
    match LoadCategories(Start(before), cs, translit)
    case Stopped(e, s) => (RolledBack(before, s), Some(e))
    case Going(s) =>
      match LoadOffers(s, os, translit)
      case Stopped(e, s2) => (RolledBack(before, s2), Some(e))
      case Going(s2) => (Tables(s2.products, [], s2.categories, s2.categorySeq), None)
  }

  // ---------------------------------------------------------------------
  // What a load produces

  /** The first feed category carrying `name`. */
  function FirstNamed(cs: seq<FeedCategory>, name: string): (r: Option<nat>)
    ensures r.Some? ==> r.value < |cs| && FeedName(cs[r.value]) == name
    ensures r.Some? ==> forall k :: 0 <= k < r.value ==> FeedName(cs[k]) != name
    ensures r.None? ==> forall k :: 0 <= k < |cs| ==> FeedName(cs[k]) != name
  {
    FirstNamedFrom(FeedNames(cs), name, 0)
  }

  /** The first position from `from` on holding `name`. */
  function FirstNamedFrom(names: seq<string>, name: string, from: nat): (r: Option<nat>)
    requires from <= |names|
    ensures r.Some? ==> from <= r.value < |names| && names[r.value] == name
    ensures r.Some? ==> forall k :: from <= k < r.value ==> names[k] != name
    ensures r.None? ==> forall k :: from <= k < |names| ==> names[k] != name
    decreases |names| - from
  {
    if from == |names| then None
    else if names[from] == name then Some(from)
    else FirstNamedFrom(names, name, from + 1)
  }

  /** The last feed category carrying `id`. */
  function LastWithId(cs: seq<FeedCategory>, id: int): (r: Option<nat>)
    ensures r.Some? ==> r.value < |cs| && cs[r.value].id == id
    ensures r.Some? ==> forall k :: r.value < k < |cs| ==> cs[k].id != id
    ensures r.None? ==> forall k :: 0 <= k < |cs| ==> cs[k].id != id
  {
    if cs == [] then None
    else if cs[|cs| - 1].id == id then Some(|cs| - 1)
    else LastWithId(cs[..|cs| - 1], id)
  }

  /** Where `category_map` sends a feed id after the category loop: to the
      row named after the last node with that id, which carries the id of
      the first node with that name. */
  function MappedId(cs: seq<FeedCategory>, id: int): int
    requires LastWithId(cs, id).Some?
  {
    var name := FeedName(cs[LastWithId(cs, id).value]);
    cs[FirstNamed(cs, name).value].id
  }

  /** A row inserted for the first node with its name. */
  ghost predicate FromFirstNamed(cs: seq<FeedCategory>, row: CategoryRow) {
    && FirstNamed(cs, row.name).Some?
    && row.id == cs[FirstNamed(cs, row.name).value].id
    && row.parentId == cs[FirstNamed(cs, row.name).value].parentId
  }

  /** The keys of the categories table: names and ids unique, ids within
      the AUTOINCREMENT mark. */
  ghost predicate CategoryKeys(cats: seq<CategoryRow>, mark: int) {
    && (forall i, j :: 0 <= i < j < |cats| ==> cats[i].name != cats[j].name)
    && (forall i, j :: 0 <= i < j < |cats| ==> cats[i].id != cats[j].id)
    && (forall i :: 0 <= i < |cats| ==> cats[i].id <= mark)
  }

  /** Every row was inserted for the first node with its name. */
  ghost predicate RowsFromFirst(cs: seq<FeedCategory>, cats: seq<CategoryRow>) {
    forall i :: 0 <= i < |cats| ==> FromFirstNamed(cs, cats[i])
  }

  /** Every feed name has a row. */
  ghost predicate NamesCovered(cs: seq<FeedCategory>, cats: seq<CategoryRow>) {
    forall n :: FirstNamed(cs, n).Some? ==> FindCategoryByName(cats, n).Some?
  }

  /** `category_map` holds exactly the feed ids, each mapped as `MappedId` says. */
  ghost predicate MapOf(cs: seq<FeedCategory>, categoryMap: map<int, int>) {
    && (forall id :: id in categoryMap <==> LastWithId(cs, id).Some?)
    && (forall id :: id in categoryMap ==> categoryMap[id] == MappedId(cs, id))
  }

  /** The categories table and `category_map` after the loop over `cs`. */
  ghost predicate CategoriesOf(cs: seq<FeedCategory>, cats: seq<CategoryRow>, mark: int, categoryMap: map<int, int>) {
    && CategoryKeys(cats, mark)
    && RowsFromFirst(cs, cats)
    && NamesCovered(cs, cats)
    && MapOf(cs, categoryMap)
  }

  /** Every slug in the two tables was drawn from the shared set, and no
      slug appears twice across both tables. */
  ghost predicate SlugsShared(st: Loading) {
    && (forall i :: 0 <= i < |st.categories| && st.categories[i].slug.Some? ==>
          st.categories[i].slug.value in st.slugs)
    && (forall j :: 0 <= j < |st.products| && st.products[j].slug.Some? ==>
          st.products[j].slug.value in st.slugs)
    && SlugsDistinct(st.categories, st.products)
  }

  ghost predicate SlugsDistinct(cats: seq<CategoryRow>, products: seq<ProductRow>) {
    && (forall i, j :: 0 <= i < j < |cats| && cats[i].slug.Some? ==> cats[i].slug != cats[j].slug)
    && (forall i, j :: 0 <= i < j < |products| && products[i].slug.Some? ==> products[i].slug != products[j].slug)
    && (forall i, j :: 0 <= i < |cats| && 0 <= j < |products| && cats[i].slug.Some? ==>
          cats[i].slug != products[j].slug)
  }

  /** Two feed records carry the same id. */
  ghost predicate DuplicatedCategoryId(cs: seq<FeedCategory>, id: int) {
    exists i, j :: 0 <= i < j < |cs| && cs[i].id == id && cs[j].id == id
  }

  ghost predicate DuplicatedOfferId(os: seq<FeedOffer>, id: int) {
    exists i, j :: 0 <= i < j < |os| && os[i].id == id && os[j].id == id
  }

  lemma FirstNamedSnoc(cs: seq<FeedCategory>, c: FeedCategory, name: string)
    ensures FirstNamed(cs + [c], name) ==
      if FirstNamed(cs, name).Some? then FirstNamed(cs, name)
      else if FeedName(c) == name then Some(|cs|) else None
  {
    FeedNamesSnoc(cs, c);
    FirstNamedFromSnoc(FeedNames(cs), FeedName(c), name, 0);
  }

  lemma FeedNamesSnoc(cs: seq<FeedCategory>, c: FeedCategory)
    ensures FeedNames(cs + [c]) == FeedNames(cs) + [FeedName(c)]
  {
    var l, r := FeedNames(cs + [c]), FeedNames(cs) + [FeedName(c)];
    forall j | 0 <= j < |l| ensures l[j] == r[j] {
      assert (cs + [c])[j] == if j < |cs| then cs[j] else c;
    }
  }

  /** A name appended at the end is found only when none came before. */
  lemma {:induction false} FirstNamedFromSnoc(names: seq<string>, x: string, name: string, from: nat)
    requires from <= |names|
    ensures FirstNamedFrom(names + [x], name, from) ==
      if FirstNamedFrom(names, name, from).Some? then FirstNamedFrom(names, name, from)
      else if x == name then Some(|names|) else None
    decreases |names| - from
  {
    var ns := names + [x];
    if from == |names| {
      assert ns[from] == x;
      if x != name {
        assert FirstNamedFrom(ns, name, from + 1) == None;
      }
    } else {
      assert ns[from] == names[from];
      FirstNamedFromSnoc(names, x, name, from + 1);
    }
  }

  lemma LastWithIdSnoc(cs: seq<FeedCategory>, c: FeedCategory, id: int)
    ensures LastWithId(cs + [c], id) == if c.id == id then Some(|cs|) else LastWithId(cs, id)
  {
    assert (cs + [c])[..|cs|] == cs;
  }

  /** Appending a record only changes where its own id is mapped. */
  lemma MappedIdSnoc(cs: seq<FeedCategory>, c: FeedCategory, id: int)
    ensures LastWithId(cs + [c], id).Some? <==> id == c.id || LastWithId(cs, id).Some?
    ensures id == c.id ==> MappedId(cs + [c], id) == (cs + [c])[FirstNamed(cs + [c], FeedName(c)).value].id
    ensures id != c.id && LastWithId(cs, id).Some? ==> MappedId(cs + [c], id) == MappedId(cs, id)
  {
    var cs' := cs + [c];
    LastWithIdSnoc(cs, c, id);
    if id == c.id {
      assert cs'[|cs|] == c;
    } else if LastWithId(cs, id).Some? {
      var last := LastWithId(cs, id).value;
      assert cs'[last] == cs[last];
      var n := FeedName(cs[last]);
      FirstNamedSnoc(cs, c, n);
      var f := FirstNamed(cs, n).value;
      assert cs'[f] == cs[f];
    }
  }

  /** Loading one category record keeps the shared-slug invariant. */
  lemma CategoryKeepsSlugs(st: Loading, c: FeedCategory, translit: string -> string)
    requires SlugsShared(st) && st.products == []
    ensures SlugsShared(LoadCategory(st, c, translit).st)
  {
    var name := FeedName(c);
    var claim := ClaimSlug(name, translit, st.slugs, c.id);
    var r := LoadCategory(st, c, translit);
    match FindCategoryByName(st.categories, name)
    case Some(existing) =>
      assert r.st == st.(categoryMap := st.categoryMap[c.id := existing], slugs := claim.1);
    case None =>
      if c.id !in CategoryIds(st.categories) {
        var row := CategoryRow(c.id, name, claim.0, c.parentId);
        AddCategoryKeepsSlugs(st, row, claim.1);
        assert r.st == st.(categories := st.categories + [row], slugs := claim.1,
          categorySeq := r.st.categorySeq, categoryMap := r.st.categoryMap);
      }
  }

  lemma AddCategoryKeepsSlugs(st: Loading, row: CategoryRow, slugs: set<string>)
    requires SlugsShared(st) && st.products == []
    requires row.slug.None? ==> slugs == st.slugs
    requires row.slug.Some? ==> row.slug.value !in st.slugs && slugs == st.slugs + {row.slug.value}
    ensures SlugsShared(st.(categories := st.categories + [row], slugs := slugs))
  {
    var cats := st.categories + [row];
    assert forall i :: 0 <= i < |st.categories| ==> cats[i] == st.categories[i];
    assert cats[|st.categories|] == row;
  }

  lemma RowsFromFirstSnoc(cs: seq<FeedCategory>, c: FeedCategory, cats: seq<CategoryRow>)
    requires RowsFromFirst(cs, cats)
    ensures RowsFromFirst(cs + [c], cats)
  {
    var cs' := cs + [c];
    forall r | 0 <= r < |cats| ensures FromFirstNamed(cs', cats[r]) {
      assert FromFirstNamed(cs, cats[r]);
      FirstNamedSnoc(cs, c, cats[r].name);
      var f := FirstNamed(cs, cats[r].name).value;
      assert cs'[f] == cs[f];
    }
  }

  lemma MapOfSnoc(cs: seq<FeedCategory>, c: FeedCategory, m: map<int, int>, target: int)
    requires MapOf(cs, m)
    requires FirstNamed(cs + [c], FeedName(c)).Some?
    requires target == (cs + [c])[FirstNamed(cs + [c], FeedName(c)).value].id
    ensures MapOf(cs + [c], m[c.id := target])
  {
    var cs' := cs + [c];
    var m' := m[c.id := target];
    forall id ensures id in m' <==> LastWithId(cs', id).Some? {
      LastWithIdSnoc(cs, c, id);
    }
    forall id | id in m' ensures m'[id] == MappedId(cs', id) {
      MappedEntrySnoc(cs, c, m, target, id);
    }
  }

  lemma MappedEntrySnoc(cs: seq<FeedCategory>, c: FeedCategory, m: map<int, int>, target: int, id: int)
    requires MapOf(cs, m) && id in m[c.id := target]
    requires FirstNamed(cs + [c], FeedName(c)).Some?
    requires target == (cs + [c])[FirstNamed(cs + [c], FeedName(c)).value].id
    ensures LastWithId(cs + [c], id).Some?
    ensures m[c.id := target][id] == MappedId(cs + [c], id)
  {
    MappedIdSnoc(cs, c, id);
    if id != c.id {
      assert id in m;
      assert m[c.id := target][id] == m[id] == MappedId(cs, id);
    }
  }

  /** A repeated name maps the feed id to the existing row. */
  lemma CategorySeenStep(cs: seq<FeedCategory>, cats: seq<CategoryRow>, mark: int, m: map<int, int>, c: FeedCategory)
    requires CategoriesOf(cs, cats, mark, m)
    requires FindCategoryByName(cats, FeedName(c)).Some?
    ensures CategoriesOf(cs + [c], cats, mark, m[c.id := FindCategoryByName(cats, FeedName(c)).value])
  {
    var name := FeedName(c);
    var existing := FindCategoryByName(cats, name).value;
    var cs' := cs + [c];
    var i :| 0 <= i < |cats| && cats[i].name == name && cats[i].id == existing;
    assert FromFirstNamed(cs, cats[i]);
    FirstNamedSnoc(cs, c, name);
    var f := FirstNamed(cs, name).value;
    assert cs'[f] == cs[f];
    RowsFromFirstSnoc(cs, c, cats);
    MapOfSnoc(cs, c, m, existing);
    forall n | FirstNamed(cs', n).Some? ensures FindCategoryByName(cats, n).Some? {
      FirstNamedSnoc(cs, c, n);
    }
  }

  /** A new name is inserted with the feed id. */
  lemma CategoryNewStep(cs: seq<FeedCategory>, cats: seq<CategoryRow>, mark: int, m: map<int, int>,
                        c: FeedCategory, slug: Option<string>)
    requires CategoriesOf(cs, cats, mark, m)
    requires FindCategoryByName(cats, FeedName(c)).None?
    requires c.id !in CategoryIds(cats)
    ensures CategoriesOf(cs + [c], cats + [CategoryRow(c.id, FeedName(c), slug, c.parentId)],
                         if c.id > mark then c.id else mark, m[c.id := c.id])
  {
    var row := CategoryRow(c.id, FeedName(c), slug, c.parentId);
    assert FirstNamed(cs, FeedName(c)).None?;
    NewRowKeys(cats, mark, row);
    NewRowFromFirst(cs, c, cats, row);
    NewRowCovers(cs, c, cats, row);
    FirstNamedSnoc(cs, c, FeedName(c));
    assert (cs + [c])[|cs|] == c;
    MapOfSnoc(cs, c, m, c.id);
  }

  lemma NewRowFromFirst(cs: seq<FeedCategory>, c: FeedCategory, cats: seq<CategoryRow>, row: CategoryRow)
    requires RowsFromFirst(cs, cats)
    requires FirstNamed(cs, FeedName(c)).None?
    requires row.name == FeedName(c) && row.id == c.id && row.parentId == c.parentId
    ensures RowsFromFirst(cs + [c], cats + [row])
  {
    var cs', cats' := cs + [c], cats + [row];
    FirstNamedSnoc(cs, c, row.name);
    assert cs'[|cs|] == c;
    RowsFromFirstSnoc(cs, c, cats);
    forall r | 0 <= r < |cats'| ensures FromFirstNamed(cs', cats'[r]) {
      if r < |cats| { assert cats'[r] == cats[r]; }
    }
  }

  lemma NewRowCovers(cs: seq<FeedCategory>, c: FeedCategory, cats: seq<CategoryRow>, row: CategoryRow)
    requires NamesCovered(cs, cats)
    requires row.name == FeedName(c)
    ensures NamesCovered(cs + [c], cats + [row])
  {
    var cs', cats' := cs + [c], cats + [row];
    forall n | FirstNamed(cs', n).Some? ensures FindCategoryByName(cats', n).Some? {
      FirstNamedSnoc(cs, c, n);
      if n == row.name {
        assert cats'[|cats|] == row;
      } else {
        var i :| 0 <= i < |cats| && cats[i].name == n;
        assert cats'[i] == cats[i];
      }
    }
  }

  lemma NewRowKeys(cats: seq<CategoryRow>, mark: int, row: CategoryRow)
    requires CategoryKeys(cats, mark)
    requires FindCategoryByName(cats, row.name).None?
    requires row.id !in CategoryIds(cats)
    ensures CategoryKeys(cats + [row], if row.id > mark then row.id else mark)
  {
    forall r | 0 <= r < |cats| ensures cats[r].id != row.id {
      assert cats[r] in cats;
    }
  }

  /** The category loop keeps the category and slug invariants, and it
      stops only on a feed id that two records share. */
  lemma {:induction false} CategoriesLoaded(before: Tables, cs: seq<FeedCategory>, translit: string -> string)
    ensures var r := LoadCategories(Start(before), cs, translit);
      && SlugsShared(r.st) && r.st.products == []
      && CategoryKeys(r.st.categories, r.st.categorySeq)
      && (r.Going? ==> CategoriesOf(cs, r.st.categories, r.st.categorySeq, r.st.categoryMap))
      && (r.Stopped? ==> r.error.DuplicateCategoryId? && DuplicatedCategoryId(cs, r.error.categoryId))
  {
    if cs != [] {
      var init := cs[..|cs| - 1];
      var c := cs[|cs| - 1];
      assert cs == init + [c];
      CategoriesLoaded(before, init, translit);
      var r := LoadCategories(Start(before), init, translit);
      if r.Stopped? {
        assert LoadCategories(Start(before), cs, translit) == r;
        var id := r.error.categoryId;
        var i, j :| 0 <= i < j < |init| && init[i].id == id && init[j].id == id;
        assert cs[i] == init[i] && cs[j] == init[j];
      } else {
        assert LoadCategories(Start(before), cs, translit) == LoadCategory(r.st, c, translit);
        CategoryLoaded(before, init, r.st, c, translit);
      }
    }
  }

  /** One step of the induction above, on the state the prefix left. */
  lemma CategoryLoaded(before: Tables, init: seq<FeedCategory>, st: Loading, c: FeedCategory, translit: string -> string)
    requires SlugsShared(st) && st.products == []
    requires CategoriesOf(init, st.categories, st.categorySeq, st.categoryMap)
    ensures var r := LoadCategory(st, c, translit);
      && SlugsShared(r.st) && r.st.products == []
      && CategoryKeys(r.st.categories, r.st.categorySeq)
      && (r.Going? ==> CategoriesOf(init + [c], r.st.categories, r.st.categorySeq, r.st.categoryMap))
      && (r.Stopped? ==> r.error.DuplicateCategoryId? && DuplicatedCategoryId(init + [c], r.error.categoryId))
  {
    var name := FeedName(c);
    CategoryKeepsSlugs(st, c, translit);
    match FindCategoryByName(st.categories, name)
    case Some(existing) =>
      CategorySeenStep(init, st.categories, st.categorySeq, st.categoryMap, c);
    case None =>
      if c.id !in CategoryIds(st.categories) {
        var claim := ClaimSlug(name, translit, st.slugs, c.id);
        CategoryNewStep(init, st.categories, st.categorySeq, st.categoryMap, c, claim.0);
      } else {
        DuplicateIdShown(init, st.categories, st.categorySeq, st.categoryMap, c);
      }
  }

  /** A feed id that already has a row was carried by an earlier record. */
  lemma DuplicateIdShown(init: seq<FeedCategory>, cats: seq<CategoryRow>, mark: int, m: map<int, int>, c: FeedCategory)
    requires CategoriesOf(init, cats, mark, m)
    requires c.id in CategoryIds(cats)
    ensures DuplicatedCategoryId(init + [c], c.id)
  {
    var cs := init + [c];
    var row :| row in cats && row.id == c.id;
    var i :| 0 <= i < |cats| && cats[i] == row;
    assert FromFirstNamed(init, row);
    var k := FirstNamed(init, row.name).value;
    assert cs[k] == init[k] && cs[|init|] == c;
  }

  ghost predicate ProductIdsUnique(products: seq<ProductRow>) {
    forall i, j :: 0 <= i < j < |products| ==> products[i].id != products[j].id
  }

  /** The product rows are the offers, in order, each built by `OfferRow`. */
  ghost predicate ProductsOf(os: seq<FeedOffer>, categoryMap: map<int, int>, products: seq<ProductRow>) {
    && |products| == |os|
    && forall j :: 0 <= j < |os| ==>
        && !os[j].price.Bad? && !os[j].priceRrc.Bad?
        && products[j] == OfferRow(os[j], products[j].slug, categoryMap)
        && (products[j].slug.None? <==> Strip(os[j].name) == [])
  }

  /** Why an offer stopped the load. */
  ghost predicate OfferErrorShown(os: seq<FeedOffer>, e: FeedError) {
    || (e.MalformedNumber? && exists j :: 0 <= j < |os| && os[j].id == e.offerId && (os[j].price.Bad? || os[j].priceRrc.Bad?))
    || (e.DuplicateProductId? && DuplicatedOfferId(os, e.productId))
  }

  lemma AddProductKeepsSlugs(st: Loading, row: ProductRow, slugs: set<string>)
    requires SlugsShared(st)
    requires row.slug.None? ==> slugs == st.slugs
    requires row.slug.Some? ==> row.slug.value !in st.slugs && slugs == st.slugs + {row.slug.value}
    ensures SlugsShared(st.(products := st.products + [row], slugs := slugs))
  {
    var ps := st.products + [row];
    assert forall j :: 0 <= j < |st.products| ==> ps[j] == st.products[j];
    assert ps[|st.products|] == row;
  }

  lemma OfferRowAdded(m: map<int, int>, init: seq<FeedOffer>, products: seq<ProductRow>, o: FeedOffer,
                      slug: Option<string>)
    requires ProductsOf(init, m, products) && ProductIdsUnique(products)
    requires o.id !in ProductIds(products) && !o.price.Bad? && !o.priceRrc.Bad?
    requires slug.None? <==> Strip(o.name) == []
    ensures ProductsOf(init + [o], m, products + [OfferRow(o, slug, m)])
    ensures ProductIdsUnique(products + [OfferRow(o, slug, m)])
  {
    OfferRowFresh(products, OfferRow(o, slug, m));
    OfferRowFits(m, init, products, o, slug);
  }

  lemma OfferRowFresh(products: seq<ProductRow>, row: ProductRow)
    requires ProductIdsUnique(products) && row.id !in ProductIds(products)
    ensures ProductIdsUnique(products + [row])
  {
    var ps := products + [row];
    forall j | 0 <= j < |products| ensures ps[j].id != row.id {
      assert products[j] in products;
    }
  }

  lemma OfferRowFits(m: map<int, int>, init: seq<FeedOffer>, products: seq<ProductRow>, o: FeedOffer,
                     slug: Option<string>)
    requires ProductsOf(init, m, products)
    requires !o.price.Bad? && !o.priceRrc.Bad?
    requires slug.None? <==> Strip(o.name) == []
    ensures ProductsOf(init + [o], m, products + [OfferRow(o, slug, m)])
  {
    var os := init + [o];
    var ps := products + [OfferRow(o, slug, m)];
    assert os[|init|] == o && ps[|init|] == OfferRow(o, slug, m);
    forall j | 0 <= j < |init|
      ensures !os[j].price.Bad? && !os[j].priceRrc.Bad?
      ensures ps[j] == OfferRow(os[j], ps[j].slug, m)
      ensures ps[j].slug.None? <==> Strip(os[j].name) == []
    {
      assert os[j] == init[j] && ps[j] == products[j];
    }
  }

  lemma OfferIdTaken(m: map<int, int>, init: seq<FeedOffer>, products: seq<ProductRow>, o: FeedOffer)
    requires ProductsOf(init, m, products)
    requires o.id in ProductIds(products)
    ensures DuplicatedOfferId(init + [o], o.id)
  {
    var os := init + [o];
    var p :| p in products && p.id == o.id;
    var j :| 0 <= j < |products| && products[j] == p;
    assert os[j] == init[j] && os[|init|] == o;
  }

  lemma OfferLoaded(m: map<int, int>, init: seq<FeedOffer>, st: Loading, o: FeedOffer, translit: string -> string)
    requires SlugsShared(st) && ProductIdsUnique(st.products) && st.categoryMap == m
    requires ProductsOf(init, m, st.products)
    ensures var r := LoadOffer(st, o, translit);
      && SlugsShared(r.st) && ProductIdsUnique(r.st.products)
      && r.st.categories == st.categories && r.st.categorySeq == st.categorySeq && r.st.categoryMap == m
      && (r.Going? ==> ProductsOf(init + [o], m, r.st.products))
      && (r.Stopped? ==> OfferErrorShown(init + [o], r.error))
  {
    var claim := ClaimSlug(Strip(o.name), translit, st.slugs, o.id);
    if o.price.Bad? || o.priceRrc.Bad? {
      assert (init + [o])[|init|] == o;
    } else if o.id in ProductIds(st.products) {
      OfferIdTaken(m, init, st.products, o);
    } else {
      var row := OfferRow(o, claim.0, m);
      assert LoadOffer(st, o, translit).st == st.(products := st.products + [row], slugs := claim.1);
      AddProductKeepsSlugs(st, row, claim.1);
      OfferRowAdded(m, init, st.products, o, claim.0);
    }
  }

  lemma {:induction false} OffersLoaded(s: Loading, os: seq<FeedOffer>, translit: string -> string)
    requires SlugsShared(s) && s.products == []
    ensures var r := LoadOffers(s, os, translit);
      && SlugsShared(r.st) && ProductIdsUnique(r.st.products)
      && r.st.categories == s.categories && r.st.categorySeq == s.categorySeq && r.st.categoryMap == s.categoryMap
      && (r.Going? ==> ProductsOf(os, s.categoryMap, r.st.products))
      && (r.Stopped? ==> OfferErrorShown(os, r.error))
  {
    if os != [] {
      var init := os[..|os| - 1];
      var o := os[|os| - 1];
      assert os == init + [o];
      OffersLoaded(s, init, translit);
      var r := LoadOffers(s, init, translit);
      if r.Stopped? {
        assert LoadOffers(s, os, translit) == r;
        if r.error.MalformedNumber? {
          var j :| 0 <= j < |init| && init[j].id == r.error.offerId && (init[j].price.Bad? || init[j].priceRrc.Bad?);
          assert os[j] == init[j];
        } else {
          var i, j :| 0 <= i < j < |init| && init[i].id == r.error.productId && init[j].id == r.error.productId;
          assert os[i] == init[i] && os[j] == init[j];
        }
      } else {
        assert LoadOffers(s, os, translit) == LoadOffer(r.st, o, translit);
        OfferLoaded(s.categoryMap, init, r.st, o, translit);
      }
    }
  }

  // ---------------------------------------------------------------------
  // Properties of a whole load

  lemma LoadPhases(before: Tables, cs: seq<FeedCategory>, os: seq<FeedOffer>, translit: string -> string)
    ensures var r := LoadCategories(Start(before), cs, translit);
      && SlugsShared(r.st) && r.st.products == [] && CategoryKeys(r.st.categories, r.st.categorySeq)
      && (r.Going? ==> CategoriesOf(cs, r.st.categories, r.st.categorySeq, r.st.categoryMap))
      && (r.Stopped? ==> r.error.DuplicateCategoryId? && DuplicatedCategoryId(cs, r.error.categoryId))
      && (r.Going? ==>
            var r2 := LoadOffers(r.st, os, translit);
            && SlugsShared(r2.st) && ProductIdsUnique(r2.st.products)
            && r2.st.categories == r.st.categories && r2.st.categorySeq == r.st.categorySeq
            && (r2.Going? ==> ProductsOf(os, r.st.categoryMap, r2.st.products))
            && (r2.Stopped? ==> OfferErrorShown(os, r2.error)))
  {
    CategoriesLoaded(before, cs, translit);
    var r := LoadCategories(Start(before), cs, translit);
    if r.Going? {
      OffersLoaded(r.st, os, translit);
    }
  }

  /** All slugs handed out in one load, to categories and products alike,
      are pairwise distinct: they come from one shared set. */
  lemma LoadFeedSlugsDistinct(before: Tables, cs: seq<FeedCategory>, os: seq<FeedOffer>, translit: string -> string)
    ensures var (t, e) := LoadFeedSpec(before, cs, os, translit);
      e.None? ==> SlugsDistinct(t.categories, t.products)
  {
    LoadPhases(before, cs, os, translit);
  }

  /** After a successful load the categories table holds one row per
      distinct feed name, with the id and parent of the first node carrying
      that name, and every name of the feed has its row. */
  lemma LoadFeedCategoryRows(before: Tables, cs: seq<FeedCategory>, os: seq<FeedOffer>, translit: string -> string)
    ensures var (t, e) := LoadFeedSpec(before, cs, os, translit);
      e.None? ==>
        && (forall i, j :: 0 <= i < j < |t.categories| ==> t.categories[i].name != t.categories[j].name)
        && (forall i :: 0 <= i < |t.categories| ==> FromFirstNamed(cs, t.categories[i]))
        && (forall k :: 0 <= k < |cs| ==> FindCategoryByName(t.categories, FeedName(cs[k])).Some?)
  {
    LoadPhases(before, cs, os, translit);
    var (t, e) := LoadFeedSpec(before, cs, os, translit);
    if e.None? {
      var r := LoadCategories(Start(before), cs, translit);
      assert NamesCovered(cs, t.categories);
      forall k | 0 <= k < |cs| ensures FindCategoryByName(t.categories, FeedName(cs[k])).Some? {
        assert FirstNamed(cs, FeedName(cs[k])).Some?;
      }
    }
  }

  /** After a successful load there is one product row per offer, in feed
      order, built from that offer; `category_id` is the mapped feed id or
      NULL when no feed category carries it. */
  lemma LoadFeedProductRows(before: Tables, cs: seq<FeedCategory>, os: seq<FeedOffer>, translit: string -> string)
    ensures var (t, e) := LoadFeedSpec(before, cs, os, translit);
      e.None? ==>
        && |t.products| == |os|
        && forall j :: 0 <= j < |os| ==>
          var p, o := t.products[j], os[j];
          && p.id == o.id && p.name == Strip(o.name) && p.description == o.description
          && (p.slug.None? <==> Strip(o.name) == [])
          && p.price == Some(if o.price.Num? then o.price.value else 0.0)
          && p.priceRrc == (if o.priceRrc.Num? then Some(o.priceRrc.value) else None)
          && p.image == JoinWith(PresentTexts(o.pictures), ',')
          && p.available == Available(o.available)
          && p.categoryId == (if LastWithId(cs, o.categoryId).Some? then Some(MappedId(cs, o.categoryId)) else None)
  {
    LoadPhases(before, cs, os, translit);
    var (t, e) := LoadFeedSpec(before, cs, os, translit);
    if e.None? {
      var r := LoadCategories(Start(before), cs, translit);
      var m := r.st.categoryMap;
      assert MapOf(cs, m);
      forall j | 0 <= j < |os|
        ensures t.products[j].categoryId ==
          (if LastWithId(cs, os[j].categoryId).Some? then Some(MappedId(cs, os[j].categoryId)) else None)
      {
        assert t.products[j] == OfferRow(os[j], t.products[j].slug, m);
      }
    }
  }

  /** A load stops only for a reason the feed shows: two category records
      or two offers sharing an id, or an offer whose price does not parse.
      It then leaves the last committed state: the original tables if no
      category was inserted, else the inserted categories alone. */
  lemma LoadFeedErrors(before: Tables, cs: seq<FeedCategory>, os: seq<FeedOffer>, translit: string -> string)
    ensures var (t, e) := LoadFeedSpec(before, cs, os, translit);
      && (e.Some? && e.value.DuplicateCategoryId? ==> DuplicatedCategoryId(cs, e.value.categoryId))
      && (e.Some? && !e.value.DuplicateCategoryId? ==> OfferErrorShown(os, e.value))
      && (e.Some? ==> t == before || (t.products == [] && t.attributes == [] && t.categories != []))
  {
    LoadPhases(before, cs, os, translit);
  }

  /** Distinct category ids, distinct offer ids and parseable prices make
      the load succeed. */
  lemma LoadFeedSucceeds(before: Tables, cs: seq<FeedCategory>, os: seq<FeedOffer>, translit: string -> string)
    requires forall i, j :: 0 <= i < j < |cs| ==> cs[i].id != cs[j].id
    requires forall i, j :: 0 <= i < j < |os| ==> os[i].id != os[j].id
    requires forall j :: 0 <= j < |os| ==> !os[j].price.Bad? && !os[j].priceRrc.Bad?
    ensures LoadFeedSpec(before, cs, os, translit).1.None?
  {
    LoadFeedErrors(before, cs, os, translit);
  }

  /** A load keeps the schema's keys, whether it succeeds or rolls back. */
  lemma LoadFeedSchema(before: Tables, cs: seq<FeedCategory>, os: seq<FeedOffer>, translit: string -> string)
    requires Schema(before)
    ensures Schema(LoadFeedSpec(before, cs, os, translit).0)
  {
    LoadPhases(before, cs, os, translit);
    var r := LoadCategories(Start(before), cs, translit);
    if r.Stopped? {
      LoadedSchema(r.st, r.st.(products := []));
    } else {
      var r2 := LoadOffers(r.st, os, translit);
      LoadedSchema(r.st, r2.st);
      LoadedSchema(r.st, r2.st.(products := []));
    }
  }

  /** The invariants of the two loops give the schema's keys, for the
      loaded tables and for the categories alone. */
  lemma LoadedSchema(cats: Loading, st: Loading)
    requires CategoryKeys(cats.categories, cats.categorySeq)
    requires st.categories == cats.categories && st.categorySeq == cats.categorySeq
    requires SlugsShared(st) && ProductIdsUnique(st.products)
    ensures Schema(Tables(st.products, [], st.categories, st.categorySeq))
  {
    forall c | c in st.categories ensures c.id <= st.categorySeq {
      var i :| 0 <= i < |st.categories| && st.categories[i] == c;
    }
  }

  method RollBack(db: Catalog, before: Tables)
    modifies db
    ensures old(db.categories) == [] ==> db.Snapshot() == before
    ensures old(db.categories) != [] ==>
      db.Snapshot() == Tables([], [], old(db.categories), old(db.categorySeq))
  {
    if db.categories == [] {
      db.products, db.attributes, db.categories, db.categorySeq :=
        before.products, before.attributes, before.categories, before.categorySeq;
    } else {
      db.products, db.attributes := [], [];
    }
  }

  /** One pass of the category loop (lines 119-139). On an error nothing
      has been written to the tables. */
  method CategoryStep(db: Catalog, slugs: SlugSet, categoryMap: map<int, int>, c: FeedCategory,
                      translit: string -> string)
    returns (newMap: map<int, int>, error: Option<FeedError>)
    modifies db, slugs
    ensures db.products == old(db.products) && db.attributes == old(db.attributes)
    ensures var st := Loading(old(db.categories), old(db.categorySeq), categoryMap, old(slugs.members), db.products);
      LoadCategory(st, c, translit) ==
        if error.Some? then Stopped(error.value, st)
        else Going(Loading(db.categories, db.categorySeq, newMap, slugs.members, db.products))
    ensures error.Some? ==> db.categories == old(db.categories) && db.categorySeq == old(db.categorySeq)
  {
    var name := FeedName(c);
    ghost var st := Loading(db.categories, db.categorySeq, categoryMap, slugs.members, db.products);
    var slug := GenerateSlug(name, translit, slugs, Some(c.id), null);
    ghost var claim := ClaimSlug(name, translit, st.slugs, c.id);
    assert slug == claim.0 && slugs.members == claim.1;
    LoadCategoryCases(st, c, translit, name, claim);
    match FindCategoryByName(db.categories, name)
    case Some(existing) =>
      newMap, error := categoryMap[c.id := existing], None;
    case None =>
      if c.id in CategoryIds(db.categories) {
        return categoryMap, Some(DuplicateCategoryId(c.id));
      }
      var row := CategoryRow(c.id, name, slug, c.parentId);
      var mark := db.categorySeq;
      if c.id > mark {
        mark := c.id;
      }
      newMap, error := categoryMap[c.id := c.id], None;
      db.categories, db.categorySeq := db.categories + [row], mark;
  }

  /** The three outcomes of one category, with the name and the claimed
      slug given. */
  lemma LoadCategoryCases(st: Loading, c: FeedCategory, translit: string -> string, name: string,
                          claim: (Option<string>, set<string>))
    requires name == FeedName(c) && claim == ClaimSlug(name, translit, st.slugs, c.id)
    ensures var found := FindCategoryByName(st.categories, name);
      && (found.Some? ==>
            LoadCategory(st, c, translit) == Going(st.(categoryMap := st.categoryMap[c.id := found.value], slugs := claim.1)))
      && (found.None? && c.id in CategoryIds(st.categories) ==>
            LoadCategory(st, c, translit) == Stopped(DuplicateCategoryId(c.id), st))
      && (found.None? && c.id !in CategoryIds(st.categories) ==>
            LoadCategory(st, c, translit) == Going(st.(
              categories := st.categories + [CategoryRow(c.id, name, claim.0, c.parentId)],
              categorySeq := if c.id > st.categorySeq then c.id else st.categorySeq,
              categoryMap := st.categoryMap[c.id := c.id],
              slugs := claim.1)))
  {
  }

  /** One pass of the offer loop (lines 142-164). On an error nothing has
      been written to the tables. */
  method OfferStep(db: Catalog, slugs: SlugSet, categoryMap: map<int, int>, o: FeedOffer,
                   translit: string -> string)
    returns (error: Option<FeedError>)
    modifies db, slugs
    ensures db.categories == old(db.categories) && db.categorySeq == old(db.categorySeq)
    ensures db.attributes == old(db.attributes)
    ensures var st := Loading(db.categories, db.categorySeq, categoryMap, old(slugs.members), old(db.products));
      LoadOffer(st, o, translit) ==
        if error.Some? then Stopped(error.value, st)
        else Going(Loading(db.categories, db.categorySeq, categoryMap, slugs.members, db.products))
  {
    var slug := GenerateSlug(Strip(o.name), translit, slugs, Some(o.id), null);
    if o.price.Bad? || o.priceRrc.Bad? {
      return Some(MalformedNumber(o.id));
    }
    if o.id in ProductIds(db.products) {
      return Some(DuplicateProductId(o.id));
    }
    db.products := db.products + [OfferRow(o, slug, categoryMap)];
    error := None;
  }

  /** The category loop (lines 119-139) on cleared product tables. It stops
      at the first failing record, with the tables as that record found them. */
  method LoadCategoryRecords(db: Catalog, slugs: SlugSet, start: Loading, cs: seq<FeedCategory>,
                             translit: string -> string)
    returns (categoryMap: map<int, int>, error: Option<FeedError>)
    requires start == Loading(db.categories, db.categorySeq, map[], slugs.members, [])
    requires db.products == [] && db.attributes == []
    modifies db, slugs
    ensures db.products == [] && db.attributes == []
    ensures var r := LoadCategories(start, cs, translit);
      if error.Some? then
        r.Stopped? && r.error == error.value
        && r.st.categories == db.categories && r.st.categorySeq == db.categorySeq
      else r == Going(Loading(db.categories, db.categorySeq, categoryMap, slugs.members, []))
  {
    categoryMap := map[];
    for i := 0 to |cs|
      invariant db.products == [] && db.attributes == []
      invariant LoadCategories(start, cs[..i], translit) ==
        Going(Loading(db.categories, db.categorySeq, categoryMap, slugs.members, []))
    {
      assert cs[..i + 1][..i] == cs[..i];
      categoryMap, error := CategoryStep(db, slugs, categoryMap, cs[i], translit);
      if error.Some? {
        CategoriesStopped(start, cs, i + 1, translit);
        return;
      }
    }
    assert cs[..|cs|] == cs;
    error := None;
  }

  /** The offer loop (lines 142-164). */
  method LoadOfferRecords(db: Catalog, slugs: SlugSet, loaded: Loading, os: seq<FeedOffer>,
                          translit: string -> string)
    returns (error: Option<FeedError>)
    requires loaded == Loading(db.categories, db.categorySeq, loaded.categoryMap, slugs.members, db.products)
    requires db.attributes == []
    modifies db, slugs
    ensures db.attributes == [] && db.categories == old(db.categories) && db.categorySeq == old(db.categorySeq)
    ensures var r := LoadOffers(loaded, os, translit);
      if error.Some? then
        r.Stopped? && r.error == error.value
        && r.st.categories == db.categories && r.st.categorySeq == db.categorySeq
      else r == Going(Loading(db.categories, db.categorySeq, loaded.categoryMap, slugs.members, db.products))
  {
    for j := 0 to |os|
      invariant db.attributes == [] && db.categories == old(db.categories) && db.categorySeq == old(db.categorySeq)
      invariant LoadOffers(loaded, os[..j], translit) ==
        Going(Loading(db.categories, db.categorySeq, loaded.categoryMap, slugs.members, db.products))
    {
      assert os[..j + 1][..j] == os[..j];
      ghost var st := Loading(db.categories, db.categorySeq, loaded.categoryMap, slugs.members, db.products);
      assert LoadOffers(loaded, os[..j + 1], translit) == LoadOffer(st, os[j], translit);
      error := OfferStep(db, slugs, loaded.categoryMap, os[j], translit);
      if error.Some? {
        OffersStopped(loaded, os, j + 1, translit);
        return;
      }
    }
    assert os[..|os|] == os;
    error := None;
  }

  /** load_xml_to_db over the parsed feed. The transliteration library is
      the parameter `translit`. */
  method LoadFeed(db: Catalog, cs: seq<FeedCategory>, os: seq<FeedOffer>, translit: string -> string)
    returns (error: Option<FeedError>)
    modifies db
    ensures db.Snapshot() == LoadFeedSpec(old(db.Snapshot()), cs, os, translit).0
    ensures error == LoadFeedSpec(old(db.Snapshot()), cs, os, translit).1
  {
    var before := db.Snapshot();
    assert before == old(db.Snapshot());
    db.products, db.categories, db.attributes := [], [], [];
    var slugs := new SlugSet();
    var categoryMap;
    categoryMap, error := LoadCategoryRecords(db, slugs, Start(before), cs, translit);
    ghost var r := LoadCategories(Start(before), cs, translit);
    if error.Some? {
      assert LoadFeedSpec(before, cs, os, translit) == (RolledBack(before, r.st), Some(r.error));
      RollBack(db, before);
      assert db.Snapshot() == RolledBack(before, r.st);
      return;
    }
    var loaded := Loading(db.categories, db.categorySeq, categoryMap, slugs.members, []);
    assert r == Going(loaded);
    error := LoadOfferRecords(db, slugs, loaded, os, translit);
    ghost var r2 := LoadOffers(loaded, os, translit);
    if error.Some? {
      assert LoadFeedSpec(before, cs, os, translit) == (RolledBack(before, r2.st), Some(r2.error));
      RollBack(db, before);
      assert db.Snapshot() == RolledBack(before, r2.st);
    } else {
      assert LoadFeedSpec(before, cs, os, translit) == (Tables(r2.st.products, [], r2.st.categories, r2.st.categorySeq), None);
      assert db.Snapshot() == Tables(r2.st.products, [], r2.st.categories, r2.st.categorySeq);
    }
  }
}
