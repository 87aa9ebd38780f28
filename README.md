# Catalog backend and storefront: a Dafny model

This project models the core of a building-equipment catalog:
- A SQLite database of categories, products and product attributes.
- The code that fills the database:
  - from a YML supplier feed (`load_xml_to_db`);
  - from scraped product pages (`scraper.py`).
- The HTTP endpoints that serve the catalog:
  - the product list and the single-product view;
  - the category tree;
  - the bulk recommended-retail-price (RRC) update;
  - the one-off category move.
- The two React components that show products: a card, and the price-sorted, lazily extended list.

The modules follow the source files:

| module | file | models |
|---|---|---|
| `Common` | common.dfy | Option/Result; Python's `lower`, `strip` and `zfill`; decimal text; substring search; `split`/`join` on one separator |
| `SlugSuffix` | slug_suffix.dfy | the "`base`, `base-1`, `base-2`, …" search that every slug generator runs |
| `Store` | store.dfy | the rows of the three tables; the `Catalog` class holding them; the schema's keys |
| `Database` | database.dfy | `generate_slug` of database.py |
| `FeedLoad` | feed_load.dfy | `load_xml_to_db`, with its commits and rollback |
| `Scraper` | scraper.dfy | slugs, product ids, the attribute table, the breadcrumbs, category saving, product insertion, image URLs |
| `Api` | api.dfy | `get_products`, `get_product`, `bulk_update_price_rrc` |
| `Categories` | categories.dfy | `get_categories`, `move_subcategory` |
| `ProductCard` | product_card.dfy | Product.js |
| `ProductList` | product_list.dfy | ProductList.jsx |

How the source maps onto Dafny:
- Code that updates the database becomes a method on `Store.Catalog` with `modifies`.
- Each such method is proved equal to a function on the table contents, and the properties are lemmas about that function.
- Python loops become Dafny loops with invariants.
- Dictionaries become `map`s.
- Query results are sequences of rows in table order.
- External services are parameters:
  - the transliteration library is a function `translit: string -> string`;
  - Python's `round(x, 2)` is a function `round2: real -> real`;
  - the page fetches are the parsed values they yield.

## Model

| member | source | states |
|---|---|---|
| Common.ParseNatToString | scraper.py:144 | reading back the decimal text of a number gives the number (the `str(article)` used for article codes) |
| Common.SplitJoin | api.py:68 | splitting on a separator the pieces do not contain gives back the joined pieces |
| Common.JoinSplit | api.py:68 | joining the pieces of a split gives back the string |
| SlugSuffix.CandidateInjective | scraper.py:36-42 | different suffix numbers never give the same candidate slug |
| SlugSuffix.FreeIndex | database.py:47-51 | the search stops at a candidate not taken, and every earlier candidate is taken; it terminates because the taken set is finite |
| SlugSuffix.FirstFreeIsLeastFree | database.py:47-59 | the chosen slug is free; it is the base when the base is free, else `base-k` for the least k ≥ 1 with a free candidate |
| SlugSuffix.FindFreeSlug | scraper.py:36-42 | the loop returns the first free candidate |
| Store.FindCategoryByName | scraper.py:311-312 | `None` exactly when no row has the name; else the id of a row with that name |
| Store.FindCategoryBySlug | categories.py:69-73 | `None` exactly when no row has the slug; else the id of a row with that slug |
| Store.FindProductBySlug | api.py:82-88 | `None` exactly when no product has the slug; else a product row with that slug |
| Database.SplitWords | database.py:21 | at least one part, none containing whitespace |
| Database.KeepSlugChars | database.py:30 | keeps only `[a-zA-Z0-9-]` characters, all taken from the input |
| Database.NonEmpty | database.py:33 | keeps only non-empty parts, all taken from the input |
| Database.BaseSlugWellFormed | database.py:15-40 | every base slug is non-empty, of `[a-zA-Z0-9-]`, with no leading or trailing hyphen |
| Database.PatchedPieceWellFormed | database.py:23-27 | a word holding "eurolux" but not "eurolux-ll" becomes a well-formed piece after the patch |
| Database.JoinWellFormed | database.py:40 | joining well-formed pieces with "-" is well-formed |
| Database.NoLatinFallsBack | database.py:36-37 | a name whose transliteration has no ASCII letter or digit gets the fallback `product-<id>` (or `product`) |
| Database.CandidateWellFormed | database.py:47-59 | a `-k` suffix keeps a slug well-formed |
| Database.SlugSet.constructor | database.py:116 | an empty slug set |
| Database.GenerateSlug | database.py:9-62 | an empty name gives `None` and leaves the set alone; otherwise a well-formed slug: with a set, the first free candidate, which joins the set; with only a cursor, the first candidate no product has; with neither, the base slug |
| FeedLoad.ClaimSlug | database.py:124-147 | no slug for an empty name; otherwise a slug not yet handed out, added to the shared set |
| FeedLoad.Available | database.py:161 | true exactly when the attribute is present and is "true" in any letter case |
| FeedLoad.OfferRow | database.py:144-164 | the row's id, stripped name, slug, description and prices come from the offer (price defaults to 0, an absent RRC is NULL); `category_id` is set exactly when the feed mapped the offer's category |
| FeedLoad.LoadFeedSlugsDistinct | database.py:108-164 | after a successful load, all category and product slugs are pairwise distinct |
| FeedLoad.LoadFeedCategoryRows | database.py:119-139 | after a successful load: one category row per distinct feed name, with the id and parent of the first node of that name; every feed name has its row |
| FeedLoad.LoadFeedProductRows | database.py:142-164 | after a successful load: one product row per offer, in feed order, with the fields, pictures and mapped category of that offer |
| FeedLoad.LoadFeedErrors | database.py:100-168 | a load fails only on a duplicated category id, a duplicated offer id or an unparsable `price` or `price_rrc`; it then leaves the original tables, or only the categories committed so far |
| FeedLoad.LoadFeedSucceeds | database.py:100-168 | distinct category ids, distinct offer ids and parsable prices make the load succeed |
| FeedLoad.LoadFeedSchema | database.py:100-168 | a load, successful or rolled back, keeps the unique keys of the schema |
| FeedLoad.CategoriesStopped | database.py:119-139 | once a category record fails, the records after it change nothing |
| FeedLoad.OffersStopped | database.py:142-164 | once an offer fails, the offers after it change nothing |
| FeedLoad.RollBack | database.py:136-138 | the rollback restores the tables at the last commit |
| FeedLoad.CategoryStep | database.py:119-139 | one category record: the tables, map and slug set equal the one-record specification; on a duplicated id nothing is written |
| FeedLoad.OfferStep | database.py:142-164 | one offer: the tables and slug set equal the one-offer specification; on an error nothing is written |
| FeedLoad.LoadCategoryRecords | database.py:119-139 | the category loop yields the categories specification, stopping at the first error |
| FeedLoad.LoadOfferRecords | database.py:142-164 | the offer loop yields the offers specification, stopping at the first error |
| FeedLoad.LoadFeed | database.py:100-168 | the tables after the method and the error it reports are exactly those of the load specification |
| Scraper.ScraperSlugShape | scraper.py:17-28 | a slug holds only hyphens and lower-case Latin or Cyrillic letters and digits, never two hyphens in a row |
| Scraper.ScraperSlugLetters | scraper.py:17-28 | the letters and digits of the slug are exactly those of the lower-cased name, in order |
| Scraper.LeadingSpaceGivesHyphen | scraper.py:17-28 | a name starting with a space gives a slug starting with "-": the space has become a hyphen before `strip()`, which removes only whitespace |
| Scraper.ScraperSlugIdempotent | scraper.py:17-28 | slugging a slug changes nothing |
| Scraper.GenerateUniqueSlug | scraper.py:31-43 | the first free candidate for the name's slug; no product has it |
| Scraper.ZFill | scraper.py:144 | never shortens; pads to the width, with the zeros in front when there is no sign |
| Scraper.ArticleCode | scraper.py:144 | the article code is at least six characters long |
| Scraper.FirstArticleColumn | scraper.py:154-159 | the first column carrying the article marker, if any |
| Scraper.FirstMatch | scraper.py:160-167 | the first row whose zero-padded value equals the article code, if any |
| Scraper.EmittingColumns | scraper.py:174-190 | lists, in order, exactly the columns that yield an attribute |
| Scraper.EmittedFails | scraper.py:174-190 | the attribute pass fails exactly when a value column has no cell list |
| Scraper.EmittedByColumn | scraper.py:174-190 | each attribute is the (header, value) pair of one emitting column, in column order |
| Scraper.NoMarkerNoAttributes | scraper.py:146-172 | a table without an article column yields no attributes |
| Scraper.ArticleNotFoundNoAttributes | scraper.py:170-172 | an article missing from the article column yields no attributes |
| Scraper.FindArticlePosition | scraper.py:153-168 | the loop finds the position of the article specification |
| Scraper.EmitAttributes | scraper.py:174-190 | the loop yields the attribute specification |
| Scraper.ScrapeAttributes | scraper.py:138-190 | the method equals the specification of `scrape_attributes` |
| Scraper.ExtractCategories | scraper.py:261-285 | always two crumbs: the first is the text of link 2 when there are at least four links, the second the text of link 3 when there are at least five; otherwise a non-string |
| Scraper.LastNamed | scraper.py:294-299 | the position of the last occurrence of a name, if any |
| Scraper.FeedIndexLastWins | scraper.py:294-299 | the name-to-id map holds exactly the feed's names, each mapped to the id of its last category |
| Scraper.BuildFeedIndex | scraper.py:294-299 | the loop builds that map |
| Scraper.HighMark | scraper.py:332-335 | the AUTOINCREMENT mark is above every category id |
| Scraper.ResolveOneFacts | scraper.py:303-341 | a name the feed knows gives the feed's id; a name the table knows gives its row; otherwise exactly one row is appended, with the name, the parent, a free slug and a fresh id above the mark; products and attributes never change |
| Scraper.SaveCategoriesIdempotent | scraper.py:287-344 | saving the same breadcrumbs twice changes nothing the second time and gives the same id |
| Scraper.SaveCategoriesSchema | scraper.py:287-344 | saving keeps the unique keys of the schema |
| Scraper.ShortBreadcrumbsCrash | scraper.py:261-308 | with fewer than four links the save fails before touching the tables |
| Scraper.FourBreadcrumbsCrash | scraper.py:261-341 | with exactly four links the first crumb may be saved, then the save fails |
| Scraper.LongBreadcrumbsResolve | scraper.py:261-344 | with five or more links the save resolves to a category id |
| Scraper.ResolveName | scraper.py:303-341 | one crumb: the feed id, else the row with the name, else one new row with a free slug; the tables and id equal the one-name specification |
| Scraper.SaveCategories | scraper.py:287-344 | the method's tables and result equal the save specification |
| Scraper.MaxProductId | scraper.py:192-224 | `None` exactly on an empty table; otherwise an id in the table that no id exceeds |
| Scraper.NextProductIdFresh | scraper.py:192-224 | the new id is 1 on an empty table, else one above the largest id; no product has it |
| Scraper.GenerateUniqueProductId | scraper.py:192-224 | the method returns that id |
| Scraper.AttributeRows | scraper.py:242-247 | one attribute row per scraped attribute, in order, under the product id |
| Scraper.InsertFacts | scraper.py:226-258 | exactly one new product row: fresh id, free slug, available, name, price, RRC and description taken from the scraped data, images joined by ","; then its attribute rows in order; categories untouched; schema keys kept |
| Scraper.AddAttributeRows | scraper.py:242-247 | the loop appends those attribute rows and changes nothing else |
| Scraper.InsertScrapedProduct | scraper.py:226-258 | the method's tables equal the insertion specification |
| Scraper.UrlIsValid | scraper.py:346-359 | valid exactly when the request answered with a status other than 404 |
| Scraper.AbsoluteUrls | scraper.py:86-87 | one URL per source, each made absolute |
| Scraper.GalleryUrlsPresent | scraper.py:82-89 | the gallery loop keeps exactly the non-empty sources, in order, made absolute |
| Scraper.ImageUrlsFacts | scraper.py:82-89 | no gallery gives no URLs; each URL starts with "http" and ends with its source, which is kept when it already starts with "http" |
| Scraper.CollectImageUrls | scraper.py:82-89 | the loop yields that list |
| Api.TierAboveFloor | api.py:121-129 | for a non-negative price, each tier's RRC is at least 1.3 × price, so the test would not pick the row again before rounding |
| Api.PlannedUpdates | api.py:116-134 | a failure is the server error |
| Api.ApplyUpdate | api.py:136-140 | only the rows with the update's id get the new RRC |
| Api.PlannedFails | api.py:116-134 | planning fails exactly when a price is NULL; otherwise it plans one update per row the test selects |
| Api.ApplyUpdatesKeepIds | api.py:136-140 | the updates keep the rows and their ids |
| Api.BulkUpdateEffect | api.py:107-145 | fails exactly on a NULL price, changing nothing; otherwise each row ends as the rule says, and the count is the number of rows selected |
| Api.NothingPlanned | api.py:136-145 | when no row needs a new RRC, the table stays as it was and the count is 0 |
| Api.BulkUpdateIdempotent | api.py:107-145 | with unique ids, non-negative prices and rounding that never drops below the floor, a second run changes nothing and reports 0 |
| Api.DisplayAfterUpdate | api.py:107-145 | after an update, every selected row shows its new RRC as its price |
| Api.RoundCents | api.py:133 | `round(x, 2)` lands within half a cent of x |
| Api.RoundingReselects | api.py:121-133 | with rounding to the nearest cent, a price of 2000.01 gets an RRC of 2600.01, and the next run updates that row again |
| Api.RoundUpCents | api.py:133 | rounding up to the cent never goes below x |
| Api.RoundUpIdempotent | api.py:107-145 | with rounding up, a second run changes nothing and reports 0 |
| Api.PlanUpdates | api.py:116-134 | the loop yields the planned updates |
| Api.BulkUpdatePriceRrc | api.py:107-145 | the method's products table and result equal the update specification; the other tables are untouched |
| Api.SplitImages | api.py:68 | an empty image column gives no URLs; no URL holds a comma |
| Api.SplitImagesJoin | api.py:68 | images stored joined by "," are served back as the same list |
| Api.JoinSplitImages | api.py:68 | the served list joined by "," is the stored column |
| Api.AttributesOf | api.py:52-57 | the attributes of a product, in row order |
| Api.FetchAttributes | api.py:47-50 | only the attribute rows of the listed products, in order |
| Api.FetchKeepsListed | api.py:47-57 | filtering to the listed products leaves each listed product's attributes unchanged |
| Api.AttrMapKeys | api.py:52-57 | the grouping has a key exactly for each product with an attribute row |
| Api.AttrMapGroups | api.py:52-57 | each product's group is its attributes in row order |
| Api.GroupAttributes | api.py:52-57 | the loop builds that grouping |
| Api.ViewsFacts | api.py:59-72 | the listing loop yields one view per product, or fails on a product without a price |
| Api.ListProductsFacts | api.py:11-75 | fails exactly when some product has no displayable price; otherwise one view per product, in order, with the rounded price, split images and its attributes |
| Api.ListProducts | api.py:11-75 | the method equals the listing specification |
| Api.GetProductSpec | api.py:77-105 | 404 exactly when no product has the slug; 500 exactly when the found product has neither an RRC nor a price; otherwise the view of that product |
| Api.ListAndGetAgree | api.py:11-105 | with unique slugs, a listed product and its single view agree apart from price rounding |
| Categories.ProductCount | categories.py:17-39 | the count never exceeds the number of products |
| Categories.ProductCountIsSize | categories.py:17-39 | the count is the number of products in the category, and 0 exactly when there are none |
| Categories.LastRow | categories.py:29-41 | the last row with the id, whose values the dict keeps |
| Categories.TableFacts | categories.py:29-41 | one node per distinct id, in first-seen order, built from the last row with that id |
| Categories.ChildIds | categories.py:44-52 | exactly the ids in the table whose parent is the given one |
| Categories.TreeNodes | categories.py:29-41 | a node exactly for each category id, with the last row's fields and its product count |
| Categories.TreeRoots | categories.py:46-49 | a category is a root exactly when it has no parent |
| Categories.TreeChildren | categories.py:50-52 | a category is listed under a parent exactly when that is its parent |
| Categories.TreeOrphans | categories.py:50-52 | a category whose parent is missing appears neither as a root nor as a child |
| Categories.TreeOrderFree | categories.py:11-56 | the same rows in another order give the same nodes, roots and children |
| Categories.FillTable | categories.py:29-41 | the first loop builds the node table |
| Categories.LinkTable | categories.py:44-52 | the second loop links that table into the tree |
| Categories.GetCategories | categories.py:11-56 | the method returns the tree of the tables |
| Categories.Reparent | categories.py:87-88 | every row with the id gets the new parent; no other row changes |
| Categories.ReparentSchema | categories.py:87-88 | re-parenting keeps the unique keys of the schema |
| Categories.ReparentMakesCycle | categories.py:87-88 | nothing stops a move that creates a cycle; the tree then has no roots |
| Categories.MoveSubcategory | categories.py:60-95 | as written: a missing slug leaves the tables unchanged; otherwise the category gets the new parent |
| Categories.ScraperSlugsLower | scraper.py:17-43 | no slug the scraper can store starts with an upper-case Cyrillic letter |
| Categories.DatabaseSlugsAscii | database.py:9-62 | no slug database.py can produce starts with an upper-case Cyrillic letter |
| Categories.FeedSlugsAscii | database.py:124-147 | neither does a slug handed out by the feed load |
| Categories.SaveKeepsLowerSlugs | scraper.py:303-341 | saving categories never stores a slug that starts with an upper-case Cyrillic letter |
| Categories.MoveAsWrittenFindsNothing | categories.py:69-82 | on such tables both slug lookups find nothing, so the move never happens |
| Categories.MoveSubcategoryByName | categories.py:60-95 | corrected: the same move with the rows looked up by name |
| Categories.MoveByNameMoves | categories.py:60-95 | when both names exist, the named category gets the named target as parent and nothing else changes |
| ProductCard.TrimTrailingSlashes | Product.js:19 | removes exactly the trailing run of "/" |
| ProductCard.TrimLeadingSlashes | Product.js:19 | removes exactly the leading run of "/" |
| ProductCard.BuildImageUrl | Product.js:16-20 | base and path joined with one "/"; the base does not end with "/" and the path does not start with one |
| ProductCard.BuildImageUrlJoin | Product.js:18-20 | clean parts are joined with one "/", and extra slashes at the seam are removed |
| ProductCard.BuildImageUrlDefaults | Product.js:16-20 | a missing path gives a URL ending in "/"; a missing base gives one starting with "/" |
| ProductCard.ValidImages | Product.js:12 | anything other than an array counts as no images |
| ProductCard.FirstImage | Product.js:22 | the placeholder without images, otherwise the URL of the first |
| ProductCard.SecondImage | Product.js:14-23 | present exactly when there are at least two images |
| ProductCard.FirstImagePlaceholder | Product.js:16-22 | with images, the first is the placeholder exactly when the base is empty and the path is "placeholder.jpg" |
| ProductCard.ShownImage | Product.js:44 | the second image while hovered once loaded, else the first |
| ProductCard.RoundedPrice | Product.js:25 | the least integer not below the price |
| ProductList.ItemsPerRow | ProductList.jsx:17-20 | one to five cards per row by width band |
| ProductList.ItemsPerRowMonotone | ProductList.jsx:17-20 | a wider window never holds fewer cards per row |
| ProductList.RowsPerPage | ProductList.jsx:23-26 | the fewest 300-pixel rows that cover the height |
| ProductList.VisibleCountBounds | ProductList.jsx:17-29 | a window with height shows at least one card, and enough cards to fill it; a zero height shows none |
| ProductList.OnScroll | ProductList.jsx:77-80 | near the bottom one more screenful is added, otherwise the count stays |
| ProductList.Insert | ProductList.jsx:71-73 | insertion adds exactly the one element |
| ProductList.SortByPrice | ProductList.jsx:71-73 | the sorted list is a permutation of the products |
| ProductList.SortByPriceSorted | ProductList.jsx:71-73 | "asc" gives non-decreasing prices, any other order non-increasing |
| ProductList.Slice | ProductList.jsx:112 | `slice(0, n)` takes a prefix, with a negative end counted from the back |
| ProductList.RenderedCheapest | ProductList.jsx:71-112 | the rendered cards are the first `visibleCount` in price order (all when fewer), all among the fetched products, none after any card that is not rendered |
| ProductList.ScrollExtendsRendered | ProductList.jsx:77-112 | scrolling only appends cards to those already rendered |

## Left out

- Network and parsing:
  - the HTTP fetches of pages, the HTML parsing (BeautifulSoup), the XLSX parsing and the XML feed parsing are not modelled;
  - the model starts from the values they yield: the gallery's `src` attributes, the attribute table's columns, the breadcrumb texts and the feed's category and offer records.
- The transliteration library is the function parameter `translit`; Python's `round(x, 2)` is the parameter `round2`.
- Prices are Dafny reals rather than binary floating point, so float error in `price * 1.3` is not modelled.
- Python `str.lower` is modelled for ASCII and for the Cyrillic capitals U+0400–U+042F only; other scripts keep their case.
- The get_products SQL (`WHERE`, `ORDER BY`, `LIMIT`/`OFFSET`, lines 22-41 of api.py):
  - the query's result rows are an input to `Api.ListProducts`;
  - only the attribute query's `ANY(:ids)` filter is modelled.
- save_categories_to_db's `IntegrityError` branch (lines 336-339 of scraper.py) is not modelled: run one at a time, the name was just looked up and the slug is free, so the insert cannot clash.
- generate_unique_product_id's `while True` returns on its first pass, so it is modelled as one step.
- Foreign keys are not enforced, as in SQLite by default; a product may name a missing category.
- The feed's ids are integers: a missing or non-numeric category `id`, `parentId` or offer `<categoryId>` makes `int()` raise in the source (database.py:120-158); those failures are not modelled.
- Database.BaseSlugWellFormed: does not exclude a doubled hyphen, because the fallback `product-<id>` gives `product--5` for a negative feed id (database.py:37).
- The article cell: only an empty cell, an integer and text are modelled; Excel float and date cells are not.
- Exceptions that insert_scraped_product and move_subcategory log and swallow are not modelled beyond leaving the tables as the last commit left them.
- The move endpoint always answers with the same success message (lines 98-102 of categories.py), whatever happened; the message is not modelled.
- React state, hooks, `fetch`, `navigate` and event wiring are not modelled; window sizes and scroll offsets are integer parameters.
- ProductList.SortByPrice: does not state that equal prices keep their order; `Array.prototype.sort` is stable, and the insertion sort of the model is too, but this is not proved.
- `Math.ceil` is modelled on reals, not on JavaScript doubles.
- The category tree's nested JSON is modelled as a node table keyed by id, with each node's children as a list of ids.
- Logging, async wiring, FastAPI routing, CORS middleware, `main.py` and `models.py` are not part of this model.
- Api.BulkUpdateIdempotent: the second run reports 0 only when rounding never drops below `1.3 × price`; with round-to-nearest this fails (see Findings).
- ProductCard.FirstImagePlaceholder: the first image is the placeholder when there are no images, but also when the base is empty and the first path is "placeholder.jpg"; the lemma states exactly when this happens.

## Findings

| source | as written | input that shows it | evidently intended | confidence | as-written member | corrected member |
|---|---|---|---|---|---|---|
| categories.py:69-82 | `move_subcategory` looks up the two categories by slugs equal to the Cyrillic names "Вибротрамбовки" and "Строительное оборудование"; neither slug generator can produce these, since scraper slugs are lower-cased with no spaces and database slugs are ASCII | any catalog whose categories were stored by `save_categories_to_db` or `load_xml_to_db`, e.g. one holding category "Вибротрамбовки" with slug "vibrotrambovki": both lookups return nothing, so the move is skipped and the endpoint still reports success | look the categories up by name | not executed | Categories.MoveAsWrittenFindsNothing | Categories.MoveByNameMoves |
| api.py:121-133 | the new RRC is rounded to the cent, but the next run compares it with the unrounded `price * 1.3` | price 2000.01 with no RRC: the first run stores 2600.01, which is below 2600.013, so every later run selects the row again and reports it as updated | once a row's RRC is set, later runs leave it alone (round the RRC up, or compare with the rounded floor) | not executed | Api.RoundingReselects | Api.RoundUpIdempotent |
