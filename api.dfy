/** api.py: the recommended-price (RRC) update, the price shown to
    shoppers, the grouping of attribute rows per product and the shaping of
    product responses. The rows the SQL queries return come in as inputs;
    `round(x, 2)` is a parameter. */
module Api {
  import opened Common
  import opened Store

  /** 404 for an unknown slug; 500 for an exception inside a handler. */
  datatype ApiError = NotFound | ServerError

  // ---------------------------------------------------------------------
  // Prices

  /** `price_rrc if price_rrc is not None else price * 1.3`; None where
      both are NULL and the multiplication raises. */
  function DisplayPrice(p: ProductRow): Option<real> {
    if p.priceRrc.Some? then p.priceRrc
    else if p.price.Some? then Some(p.price.value * 1.3)
    else None
  }

  /** The replacement RRC of lines 122-129. */
  function Tier(price: real): real {
    if price < 100.0 then price * 1.8
    else if price < 1000.0 then price * 1.6
    else if price < 2000.0 then price * 1.4
    else price * 1.3
  }

  /** The test of line 121. */
  predicate NeedsNewRrc(rrc: Option<real>, price: real) {
    rrc.None? || rrc.value < price * 1.3
  }

  /** For a non-negative price every tier is at least the 1.3 floor the
      selection test checks, so a replaced RRC passes that test before
      rounding. For a negative price every tier is below it. */
  lemma TierAboveFloor(price: real)
    ensures price >= 0.0 ==> Tier(price) >= price * 1.3 && !NeedsNewRrc(Some(Tier(price)), price)
    ensures price < 0.0 ==> Tier(price) < price * 1.3
    ensures price < 100.0 ==> Tier(price) == price * 1.8
    ensures 100.0 <= price < 1000.0 ==> Tier(price) == price * 1.6
    ensures 1000.0 <= price < 2000.0 ==> Tier(price) == price * 1.4
    ensures 2000.0 <= price ==> Tier(price) == price * 1.3
  {
  }

  // ---------------------------------------------------------------------
  // bulk_update_price_rrc (lines 107-145)

  datatype PriceUpdate = PriceUpdate(id: int, priceRrc: real)

  /** The `updates` list after the rows `ps`; a NULL price raises a
      TypeError before anything is written. */
  function PlannedUpdates(ps: seq<ProductRow>, round2: real -> real): (r: Result<seq<PriceUpdate>, ApiError>)
    ensures r.Err? ==> r.error == ServerError
  {
    if ps == [] then Ok([])
    else
      match PlannedUpdates(ps[..|ps| - 1], round2)
      case Err(e) => Err(e)
      case Ok(us) =>
        var p := ps[|ps| - 1];
        if p.price.None? then Err(ServerError)
        else if NeedsNewRrc(p.priceRrc, p.price.value) then
          Ok(us + [PriceUpdate(p.id, round2(Tier(p.price.value)))])
        else Ok(us)
  }

  /** `UPDATE products SET price_rrc = ? WHERE id = ?` */
  function ApplyUpdate(ps: seq<ProductRow>, u: PriceUpdate): (r: seq<ProductRow>)
    ensures |r| == |ps|
    ensures forall i :: 0 <= i < |ps| ==>
      r[i] == if ps[i].id == u.id then ps[i].(priceRrc := Some(u.priceRrc)) else ps[i]
  {
    seq(|ps|, i requires 0 <= i < |ps| => if ps[i].id == u.id then ps[i].(priceRrc := Some(u.priceRrc)) else ps[i])
  }

  /** `execute_many` of the updates, in order. */
  function ApplyUpdates(ps: seq<ProductRow>, us: seq<PriceUpdate>): (r: seq<ProductRow>)
    ensures |r| == |ps|
  {
    if us == [] then ps else ApplyUpdate(ApplyUpdates(ps, us[..|us| - 1]), us[|us| - 1])
  }

  /** The products table afterwards and the `updated` count, or the
      error, with the table untouched. */
  function BulkUpdateSpec(ps: seq<ProductRow>, round2: real -> real): (seq<ProductRow>, Result<nat, ApiError>) {
    match PlannedUpdates(ps, round2)
    case Err(e) => (ps, Err(e))
    case Ok(us) => (ApplyUpdates(ps, us), Ok(|us|))
  }

  predicate IdsUnique(ps: seq<ProductRow>) {
    forall i, j :: 0 <= i < j < |ps| ==> ps[i].id != ps[j].id
  }

  /** The row as the update leaves it. */
  function Updated(p: ProductRow, round2: real -> real): ProductRow
    requires p.price.Some?
  {
    if NeedsNewRrc(p.priceRrc, p.price.value) then p.(priceRrc := Some(round2(Tier(p.price.value)))) else p
  }

  /** How many of the rows are selected for an update. */
  function CountNeeding(ps: seq<ProductRow>): nat
    requires forall i :: 0 <= i < |ps| ==> ps[i].price.Some?
  {
    if ps == [] then 0
    else
      var p := ps[|ps| - 1];
      CountNeeding(ps[..|ps| - 1]) + if NeedsNewRrc(p.priceRrc, p.price.value) then 1 else 0
  }

  lemma {:induction false} PlannedFails(ps: seq<ProductRow>, round2: real -> real)
    ensures PlannedUpdates(ps, round2).Err? <==> exists i :: 0 <= i < |ps| && ps[i].price.None?
    ensures PlannedUpdates(ps, round2).Ok? ==> |PlannedUpdates(ps, round2).value| == CountNeeding(ps)
  {
    if ps != [] {
      var front := ps[..|ps| - 1];
      PlannedFails(front, round2);
      assert forall i :: 0 <= i < |front| ==> front[i] == ps[i];
    }
  }

  /** Updates touch only the rows with their id, and only `price_rrc`. */
  lemma {:induction false} ApplyUpdatesKeepIds(ps: seq<ProductRow>, us: seq<PriceUpdate>)
    ensures forall i :: 0 <= i < |ps| ==> ApplyUpdates(ps, us)[i] == ps[i].(priceRrc := ApplyUpdates(ps, us)[i].priceRrc)
  {
    if us != [] {
      ApplyUpdatesKeepIds(ps, us[..|us| - 1]);
    }
  }

  /** After the first k rows are planned, applying their updates has
      updated exactly the selected rows among them. */
  lemma {:induction false} PlannedPrefixApplied(ps: seq<ProductRow>, round2: real -> real, k: nat)
    requires IdsUnique(ps) && k <= |ps|
    requires forall i :: 0 <= i < |ps| ==> ps[i].price.Some?
    ensures PlannedUpdates(ps[..k], round2).Ok?
    ensures forall i :: 0 <= i < |ps| ==>
      ApplyUpdates(ps, PlannedUpdates(ps[..k], round2).value)[i] == if i < k then Updated(ps[i], round2) else ps[i]
  {
    if k > 0 {
      PlannedPrefixApplied(ps, round2, k - 1);
      assert ps[..k][..k - 1] == ps[..k - 1];
      var us := PlannedUpdates(ps[..k - 1], round2).value;
      var p := ps[k - 1];
      if NeedsNewRrc(p.priceRrc, p.price.value) {
        var u := PriceUpdate(p.id, round2(Tier(p.price.value)));
        assert (us + [u])[..|us|] == us;
        ApplyUpdatesKeepIds(ps, us);
      }
    }
  }

  /** The effect of a successful run, on a table with unique ids: only
      `price_rrc` changes, exactly on the rows whose RRC is NULL or below
      1.3 times the price, where it becomes the rounded tier; the count is
      the number of such rows. The run fails, writing nothing, iff some
      price is NULL. */
  lemma BulkUpdateEffect(ps: seq<ProductRow>, round2: real -> real)
    requires IdsUnique(ps)
    ensures BulkUpdateSpec(ps, round2).1.Err? <==> exists i :: 0 <= i < |ps| && ps[i].price.None?
    ensures BulkUpdateSpec(ps, round2).1.Err? ==> BulkUpdateSpec(ps, round2).0 == ps
    ensures BulkUpdateSpec(ps, round2).1.Ok? ==>
      var (after, count) := BulkUpdateSpec(ps, round2);
      && (forall i :: 0 <= i < |ps| ==> ps[i].price.Some?)
      && |after| == |ps|
      && (forall i :: 0 <= i < |ps| ==> after[i] == Updated(ps[i], round2))
      && count.value == CountNeeding(ps)
  {
    PlannedFails(ps, round2);
    if BulkUpdateSpec(ps, round2).1.Ok? {
      PlannedPrefixApplied(ps, round2, |ps|);
      assert ps[..|ps|] == ps;
    }
  }

  /** When no row is selected the plan is empty. */
  lemma {:induction false} NothingPlanned(ps: seq<ProductRow>, round2: real -> real)
    requires forall i :: 0 <= i < |ps| ==> ps[i].price.Some? && !NeedsNewRrc(ps[i].priceRrc, ps[i].price.value)
    ensures PlannedUpdates(ps, round2) == Ok([])
  {
    if ps != [] {
      NothingPlanned(ps[..|ps| - 1], round2);
    }
  }

  /** With rounding that never drops a non-negative price's tier below the
      1.3 floor, a second run selects nothing and changes nothing. */
  lemma BulkUpdateIdempotent(ps: seq<ProductRow>, round2: real -> real)
    requires IdsUnique(ps)
    requires forall i :: 0 <= i < |ps| ==> ps[i].price.Some? && ps[i].price.value >= 0.0
    requires forall i :: 0 <= i < |ps| ==> round2(Tier(ps[i].price.value)) >= ps[i].price.value * 1.3
    ensures var after := BulkUpdateSpec(ps, round2).0;
      BulkUpdateSpec(after, round2) == (after, Ok(0))
  {
    BulkUpdateEffect(ps, round2);
    var after := BulkUpdateSpec(ps, round2).0;
    forall i | 0 <= i < |after|
      ensures after[i].price.Some? && !NeedsNewRrc(after[i].priceRrc, after[i].price.value)
    {
      TierAboveFloor(ps[i].price.value);
    }
    NothingPlanned(after, round2);
  }

  /** After a successful run every row has an RRC, so the shown price is
      the RRC and never the `price * 1.3` fallback. */
  lemma DisplayAfterUpdate(ps: seq<ProductRow>, round2: real -> real)
    requires IdsUnique(ps)
    requires BulkUpdateSpec(ps, round2).1.Ok?
    ensures var after := BulkUpdateSpec(ps, round2).0;
      forall i :: 0 <= i < |after| ==> after[i].priceRrc.Some? && DisplayPrice(after[i]) == after[i].priceRrc
  {
    BulkUpdateEffect(ps, round2);
  }

  /** One instance of `round(x, 2)` on reals: to the nearest cent, halves
      up. It agrees with Python's `round` except on exact ties, which
      Python rounds to the even cent. */
  function RoundCents(x: real): (r: real)
    ensures x - 0.005 < r <= x + 0.005
  {
    ((x * 100.0 + 0.5).Floor as real) / 100.0
  }

  /** As written, the new RRC is rounded to the nearest cent but compared
      with the unrounded floor next time: a price of 2000.01 gets an RRC of
      2600.01, below 2600.013, so every later run selects the row again and
      reports it as updated. */
  lemma RoundingReselects()
    ensures var ps := [ProductRow(1, "p", Some("p"), Some(2000.01), None, "", "", None, true)];
      var after := BulkUpdateSpec(ps, RoundCents).0;
      && after[0].priceRrc == Some(2600.01)
      && BulkUpdateSpec(after, RoundCents) == (after, Ok(1))
  {
    var ps := [ProductRow(1, "p", Some("p"), Some(2000.01), None, "", "", None, true)];
    var u := PriceUpdate(1, 2600.01);
    OneRowPlan(ps[0]);
    assert [ps[0]] == ps;
    OneUpdate(ps, u);
    var after := ApplyUpdate(ps, u);
    assert after[0] == ps[0].(priceRrc := Some(2600.01));
    assert NeedsNewRrc(after[0].priceRrc, 2000.01);
    OneRowPlan(after[0]);
    assert [after[0]] == after;
    OneUpdate(after, u);
    assert ApplyUpdate(after, u) == after;
  }

  /** One row priced 2000.01 that the test selects gets an RRC of 2600.01. */
  lemma OneRowPlan(p: ProductRow)
    requires p.id == 1 && p.price == Some(2000.01) && NeedsNewRrc(p.priceRrc, 2000.01)
    ensures PlannedUpdates([p], RoundCents) == Ok([PriceUpdate(1, 2600.01)])
  {
    var ps := [p];
    var f: real -> real := RoundCents;
    assert Tier(2000.01) == 2600.013;
    assert (2600.013 * 100.0 + 0.5).Floor == 260001;
    assert f(Tier(2000.01)) == 2600.01;
    assert ps[..|ps| - 1] == [];
    assert PlannedUpdates(ps[..|ps| - 1], f) == Ok([]);
    assert PriceUpdate(p.id, f(Tier(p.price.value))) == PriceUpdate(1, 2600.01);
    assert [] + [PriceUpdate(1, 2600.01)] == [PriceUpdate(1, 2600.01)];
  }

  lemma OneUpdate(ps: seq<ProductRow>, u: PriceUpdate)
    ensures ApplyUpdates(ps, [u]) == ApplyUpdate(ps, u)
  {
    assert [u][..0] == [];
  }

  /** Rounding up to the cent never goes below the value. */
  function RoundUpCents(x: real): (r: real)
    ensures x <= r < x + 0.01
  {
    (-((-x * 100.0).Floor) as real) / 100.0
  }

  /** With the RRC rounded up instead, a second run changes nothing and
      reports 0, for every table of non-negative prices. */
  lemma RoundUpIdempotent(ps: seq<ProductRow>)
    requires IdsUnique(ps)
    requires forall i :: 0 <= i < |ps| ==> ps[i].price.Some? && ps[i].price.value >= 0.0
    ensures var after := BulkUpdateSpec(ps, RoundUpCents).0;
      BulkUpdateSpec(after, RoundUpCents) == (after, Ok(0))
  {
    forall i | 0 <= i < |ps|
      ensures RoundUpCents(Tier(ps[i].price.value)) >= ps[i].price.value * 1.3
    {
      TierAboveFloor(ps[i].price.value);
    }
    BulkUpdateIdempotent(ps, RoundUpCents);
  }

  /** The first loop, building `updates`. */
  method PlanUpdates(ps: seq<ProductRow>, round2: real -> real) returns (r: Result<seq<PriceUpdate>, ApiError>)
    ensures r == PlannedUpdates(ps, round2)
  {
    var updates: seq<PriceUpdate> := [];
    for i := 0 to |ps|
      invariant PlannedUpdates(ps[..i], round2) == Ok(updates)
    {
      assert ps[..i + 1][..i] == ps[..i];
      var p := ps[i];
      if p.price.None? {
        PlannedStopped(ps, round2, i + 1);
        assert ps[..|ps|] == ps;
        return Err(ServerError);
      }
      if NeedsNewRrc(p.priceRrc, p.price.value) {
        updates := updates + [PriceUpdate(p.id, round2(Tier(p.price.value)))];
      }
    }
    assert ps[..|ps|] == ps;
    r := Ok(updates);
  }

  /** Once the plan has failed on a prefix it fails on the whole table. */
  lemma {:induction false} PlannedStopped(ps: seq<ProductRow>, round2: real -> real, k: nat)
    requires k <= |ps| && PlannedUpdates(ps[..k], round2).Err?
    ensures PlannedUpdates(ps, round2) == Err(ServerError)
    decreases |ps| - k
  {
    if k < |ps| {
      assert ps[..k + 1][..k] == ps[..k];
      PlannedStopped(ps, round2, k + 1);
    } else {
      assert ps[..k] == ps;
    }
  }

  /** `bulk_update_price_rrc`: plan, then write every update. */
  method BulkUpdatePriceRrc(db: Catalog, round2: real -> real) returns (r: Result<nat, ApiError>)
    modifies db
    ensures (db.products, r) == BulkUpdateSpec(old(db.products), round2)
    ensures db.attributes == old(db.attributes) && db.categories == old(db.categories)
    ensures db.categorySeq == old(db.categorySeq)
  {
    var planned := PlanUpdates(db.products, round2);
    if planned.Err? {
      return Err(planned.error);
    }
    var updates := planned.value;
    ghost var before := db.products;
    for k := 0 to |updates|
      invariant db.products == ApplyUpdates(before, updates[..k])
      invariant db.attributes == old(db.attributes) && db.categories == old(db.categories)
      invariant db.categorySeq == old(db.categorySeq)
    {
      assert updates[..k + 1][..k] == updates[..k];
      db.products := ApplyUpdate(db.products, updates[k]);
    }
    assert updates[..|updates|] == updates;
    r := Ok(|updates|);
  }

  // ---------------------------------------------------------------------
  // The images field (lines 68 and 101)

  /** `image.split(",") if image else []` */
  function SplitImages(image: string): (r: seq<string>)
    ensures r == [] <==> image == ""
    ensures forall k :: 0 <= k < |r| ==> ',' !in r[k]
  {
    if image == "" then [] else SplitOn(image, ',')
  }

  /** Splitting undoes the `",".join(images)` done when products are
      stored, for comma-free URLs other than the single empty URL. */
  lemma SplitImagesJoin(urls: seq<string>)
    requires forall k :: 0 <= k < |urls| ==> ',' !in urls[k]
    requires urls != [""]
    ensures SplitImages(JoinWith(urls, ',')) == urls
  {
    if |urls| == 1 {
      assert JoinWith(urls, ',') == urls[0] != "";
      SplitJoin(urls, ',');
    } else if |urls| >= 2 {
      var j := JoinWith(urls, ',');
      assert j[|urls[0]|] == ',';
      SplitJoin(urls, ',');
    }
  }

  /** Joining the split field gives the stored field back. */
  lemma JoinSplitImages(image: string)
    ensures JoinWith(SplitImages(image), ',') == image
  {
    if image != "" {
      JoinSplit(image, ',');
    }
  }

  // ---------------------------------------------------------------------
  // Attributes per product (lines 47-57, 71, 90-93, 104)

  /** The attributes of product `id` among `rows`, in row order. */
  function AttributesOf(rows: seq<AttributeRow>, id: int): (r: seq<Attribute>)
    ensures |r| <= |rows|
    ensures forall k :: 0 <= k < |r| ==> exists i :: 0 <= i < |rows| && rows[i] == AttributeRow(id, r[k].name, r[k].value)
  {
    if rows == [] then []
    else
      var last := rows[|rows| - 1];
      var front := AttributesOf(rows[..|rows| - 1], id);
      assert forall i :: 0 <= i < |rows| - 1 ==> rows[..|rows| - 1][i] == rows[i];
      front + if last.productId == id then [Attribute(last.name, last.value)] else []
  }

  /** `WHERE product_id = ANY(:ids)`: the rows of the listed products, in
      table order. */
  function FetchAttributes(rows: seq<AttributeRow>, ids: set<int>): (r: seq<AttributeRow>)
    ensures forall k :: 0 <= k < |r| ==> r[k] in rows && r[k].productId in ids
  {
    if rows == [] then []
    else
      var last := rows[|rows| - 1];
      FetchAttributes(rows[..|rows| - 1], ids) + if last.productId in ids then [last] else []
  }

  /** Fetching only the listed products' rows loses none of theirs. */
  lemma {:induction false} FetchKeepsListed(rows: seq<AttributeRow>, ids: set<int>, id: int)
    requires id in ids
    ensures AttributesOf(FetchAttributes(rows, ids), id) == AttributesOf(rows, id)
  {
    if rows != [] {
      var front := rows[..|rows| - 1];
      var last := rows[|rows| - 1];
      FetchKeepsListed(front, ids, id);
      var f := FetchAttributes(front, ids);
      if last.productId in ids {
        assert (f + [last])[..|f|] == f;
      } else {
        assert FetchAttributes(rows, ids) == f;
        assert last.productId != id;
      }
    }
  }

  /** `attr_map` after the `setdefault(...).append(...)` loop over `rows`. */
  function AttrMap(rows: seq<AttributeRow>): map<int, seq<Attribute>> {
    if rows == [] then map[]
    else
      var m := AttrMap(rows[..|rows| - 1]);
      var last := rows[|rows| - 1];
      m[last.productId := Lookup(m, last.productId) + [Attribute(last.name, last.value)]]
  }

  /** `attr_map.get(id, [])` */
  function Lookup(m: map<int, seq<Attribute>>, id: int): seq<Attribute> {
    if id in m then m[id] else []
  }

  /** The map holds a key exactly for the products with a row. */
  lemma {:induction false} AttrMapKeys(rows: seq<AttributeRow>, id: int)
    ensures id in AttrMap(rows) <==> exists i :: 0 <= i < |rows| && rows[i].productId == id
  {
    if rows != [] {
      var front := rows[..|rows| - 1];
      AttrMapKeys(front, id);
      assert forall i :: 0 <= i < |front| ==> front[i] == rows[i];
    }
  }

  /** Under each key the map holds exactly that product's attributes, in
      row order, and `get(id, [])` is [] for a product without rows. */
  lemma {:induction false} AttrMapGroups(rows: seq<AttributeRow>, id: int)
    ensures Lookup(AttrMap(rows), id) == AttributesOf(rows, id)
  {
    if rows != [] {
      AttrMapGroups(rows[..|rows| - 1], id);
    }
  }

  /** The grouping loop of lines 52-57. */
  method GroupAttributes(rows: seq<AttributeRow>) returns (attrMap: map<int, seq<Attribute>>)
    ensures forall id :: id in attrMap <==> exists i :: 0 <= i < |rows| && rows[i].productId == id
    ensures forall id :: Lookup(attrMap, id) == AttributesOf(rows, id)
  {
    attrMap := map[];
    for i := 0 to |rows|
      invariant attrMap == AttrMap(rows[..i])
    {
      assert rows[..i + 1][..i] == rows[..i];
      var row := rows[i];
      var group := if row.productId in attrMap then attrMap[row.productId] else [];
      attrMap := attrMap[row.productId := group + [Attribute(row.name, row.value)]];
    }
    assert rows[..|rows|] == rows;
    forall id
      ensures id in attrMap <==> exists i :: 0 <= i < |rows| && rows[i].productId == id
      ensures Lookup(attrMap, id) == AttributesOf(rows, id)
    {
      AttrMapKeys(rows, id);
      AttrMapGroups(rows, id);
    }
  }

  // ---------------------------------------------------------------------
  // Responses (lines 59-75 and 77-105)

  datatype ProductView = ProductView(
    id: int,
    name: string,
    slug: Option<string>,
    price: real,
    description: string,
    images: seq<string>,
    categoryId: Option<int>,
    available: bool,
    attributes: seq<Attribute>)

  function View(p: ProductRow, price: real, attributes: seq<Attribute>): ProductView {
    ProductView(p.id, p.name, p.slug, price, p.description, SplitImages(p.image), p.categoryId, p.available, attributes)
  }

  function ListedIds(products: seq<ProductRow>): set<int> {
    set p | p in products :: p.id
  }

  /** The views of the listed rows, prices rounded, attributes taken from
      `attrMap`; the first row without any price raises. */
  function Views(products: seq<ProductRow>, attrMap: map<int, seq<Attribute>>, round2: real -> real): Result<seq<ProductView>, ApiError> {
    if products == [] then Ok([])
    else
      match Views(products[..|products| - 1], attrMap, round2)
      case Err(e) => Err(e)
      case Ok(vs) =>
        var p := products[|products| - 1];
        match DisplayPrice(p)
        case None => Err(ServerError)
        case Some(price) => Ok(vs + [View(p, round2(price), Lookup(attrMap, p.id))])
  }

  /** `get_products` after its query returned `products`: nothing more is
      fetched for an empty page. */
  function ListProductsSpec(products: seq<ProductRow>, attributes: seq<AttributeRow>, round2: real -> real): Result<seq<ProductView>, ApiError> {
    if products == [] then Ok([])
    else Views(products, AttrMap(FetchAttributes(attributes, ListedIds(products))), round2)
  }

  lemma {:induction false} ViewsFacts(products: seq<ProductRow>, attrMap: map<int, seq<Attribute>>, round2: real -> real)
    ensures Views(products, attrMap, round2).Err? <==> exists i :: 0 <= i < |products| && DisplayPrice(products[i]).None?
    ensures Views(products, attrMap, round2).Ok? ==>
      var vs := Views(products, attrMap, round2).value;
      |vs| == |products| &&
      forall i :: 0 <= i < |products| ==>
        vs[i] == View(products[i], round2(DisplayPrice(products[i]).value), Lookup(attrMap, products[i].id))
  {
    if products != [] {
      var front := products[..|products| - 1];
      ViewsFacts(front, attrMap, round2);
      assert forall i :: 0 <= i < |front| ==> front[i] == products[i];
    }
  }

  /** The list response: it fails iff some listed row has neither price;
      otherwise it has one entry per row, in order, showing the rounded
      display price, the split images and exactly that product's
      attribute rows in table order. */
  lemma ListProductsFacts(products: seq<ProductRow>, attributes: seq<AttributeRow>, round2: real -> real)
    ensures ListProductsSpec(products, attributes, round2).Err? <==>
      exists i :: 0 <= i < |products| && DisplayPrice(products[i]).None?
    ensures ListProductsSpec(products, attributes, round2).Ok? ==>
      var vs := ListProductsSpec(products, attributes, round2).value;
      |vs| == |products| &&
      forall i :: 0 <= i < |products| ==>
        vs[i] == View(products[i], round2(DisplayPrice(products[i]).value), AttributesOf(attributes, products[i].id))
  {
    if products != [] {
      var ids := ListedIds(products);
      var fetched := FetchAttributes(attributes, ids);
      ViewsFacts(products, AttrMap(fetched), round2);
      forall i | 0 <= i < |products|
        ensures Lookup(AttrMap(fetched), products[i].id) == AttributesOf(attributes, products[i].id)
      {
        assert products[i] in products;
        AttrMapGroups(fetched, products[i].id);
        FetchKeepsListed(attributes, ids, products[i].id);
      }
    }
  }

  /** `get_products` from the rows its query returned: group the
      attribute rows, then shape each product. */
  method ListProducts(db: Catalog, products: seq<ProductRow>, round2: real -> real) returns (r: Result<seq<ProductView>, ApiError>)
    ensures r == ListProductsSpec(products, db.attributes, round2)
  {
    if products == [] {
      return Ok([]);
    }
    var attrMap := GroupAttributes(FetchAttributes(db.attributes, ListedIds(products)));
    ghost var spec := AttrMap(FetchAttributes(db.attributes, ListedIds(products)));
    var result: seq<ProductView> := [];
    for i := 0 to |products|
      invariant Views(products[..i], spec, round2) == Ok(result)
    {
      assert products[..i + 1][..i] == products[..i];
      var p := products[i];
      var price := DisplayPrice(p);
      if price.None? {
        ViewsStopped(products, spec, round2, i + 1);
        return Err(ServerError);
      }
      AttrMapGroups(FetchAttributes(db.attributes, ListedIds(products)), p.id);
      result := result + [View(p, round2(price.value), Lookup(attrMap, p.id))];
    }
    assert products[..|products|] == products;
    r := Ok(result);
  }

  lemma {:induction false} ViewsStopped(products: seq<ProductRow>, attrMap: map<int, seq<Attribute>>, round2: real -> real, k: nat)
    requires k <= |products| && Views(products[..k], attrMap, round2) == Err(ServerError)
    ensures Views(products, attrMap, round2) == Err(ServerError)
    decreases |products| - k
  {
    if k < |products| {
      assert products[..k + 1][..k] == products[..k];
      ViewsStopped(products, attrMap, round2, k + 1);
    } else {
      assert products[..k] == products;
    }
  }

  /** `view` is the single-product response for row `p` with the slug. */
  predicate Serves(t: Tables, p: ProductRow, slug: string, view: ProductView) {
    && p.slug == Some(slug)
    && DisplayPrice(p).Some?
    && view == View(p, DisplayPrice(p).value, AttributesOf(t.attributes, p.id))
  }

  /** `get_product(slug)`: 404 when no row has the slug; the price is the
      display price, unrounded; the attributes are the product's rows. */
  function GetProductSpec(t: Tables, slug: string): (r: Result<ProductView, ApiError>)
    ensures r == Err(NotFound) <==> forall i :: 0 <= i < |t.products| ==> t.products[i].slug != Some(slug)
    ensures r.Ok? ==> exists i :: 0 <= i < |t.products| && Serves(t, t.products[i], slug, r.value)
    ensures var found := FindProductBySlug(t.products, slug);
      && (r.Ok? <==> found.Some? && DisplayPrice(found.value).Some?)
      && (r == Err(ServerError) <==> found.Some? && DisplayPrice(found.value).None?)
  {
    match FindProductBySlug(t.products, slug)
    case None => Err(NotFound)
    case Some(p) =>
      match DisplayPrice(p)
      case None => Err(ServerError)
      case Some(price) => Ok(View(p, price, AttributesOf(t.attributes, p.id)))
  }

  /** Both endpoints agree on a product the list shows: the single
      endpoint serves the same entry, with the price before rounding. */
  lemma ListAndGetAgree(t: Tables, products: seq<ProductRow>, round2: real -> real, i: nat, slug: string)
    requires Schema(t)
    requires i < |products| && products[i] in t.products && products[i].slug == Some(slug)
    requires ListProductsSpec(products, t.attributes, round2).Ok?
    ensures GetProductSpec(t, slug).Ok?
    ensures var vs := ListProductsSpec(products, t.attributes, round2).value;
      var v := GetProductSpec(t, slug).value;
      |vs| == |products| && vs[i] == v.(price := round2(v.price))
  {
    ListProductsFacts(products, t.attributes, round2);
    var p := products[i];
    var j :| 0 <= j < |t.products| && t.products[j] == p;
    var q := FindProductBySlug(t.products, slug);
    assert q.Some?;
    var m :| 0 <= m < |t.products| && t.products[m] == q.value;
    assert m == j;
  }
}
