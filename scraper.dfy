/** scraper.py: the Cyrillic-keeping slug, the attribute table read by
    article position, the breadcrumb path and its resolution into category
    rows, and the insert of a scraped product. Pages, workbooks and HTTP
    responses come in already parsed. */
module Scraper {
  import opened Common
  import opened SlugSuffix
  import opened Store
  import opened FeedLoad

  // ---------------------------------------------------------------------
  // generate_slug (lines 17-28)

  predicate IsCyrillicKept(c: char) {
    ('а' <= c <= 'я') || ('А' <= c <= 'Я') || c == 'ё' || c == 'Ё'
  }

  /** The class `[a-zA-Z0-9\-а-яА-ЯёЁ\s]`. */
  predicate IsKept(c: char) {
    IsAsciiLetter(c) || IsAsciiDigit(c) || c == '-' || IsCyrillicKept(c) || IsSpace(c)
  }

  /** The class `[\s_-]`. */
  predicate IsRunChar(c: char) { IsSpace(c) || c == '_' || c == '-' }

  /** `re.sub(r'[^a-zA-Z0-9\-а-яА-ЯёЁ\s]', '', s)` */
  function KeepChars(s: string): (r: string)
    ensures forall i :: 0 <= i < |r| ==> IsKept(r[i]) && r[i] in s
    ensures (forall i :: 0 <= i < |s| ==> IsKept(s[i])) ==> r == s
  {
    if s == [] then []
    else
      var rest := KeepChars(s[1..]);
      if IsKept(s[0]) then [s[0]] + rest else rest
  }

  function DropRun(s: string): (r: string)
    ensures |r| <= |s| && r == s[|s| - |r|..]
    ensures r == [] || !IsRunChar(r[0])
    ensures s != [] && IsRunChar(s[0]) ==> |r| < |s|
  {
    if s != [] && IsRunChar(s[0]) then DropRun(s[1..]) else s
  }

  /** `re.sub(r'[\s_-]+', '-', s)`: every maximal run of whitespace,
      underscores and hyphens becomes one hyphen. */
  function CollapseRuns(s: string): (r: string)
    ensures r == [] <==> s == []
    ensures r != [] ==> (r[0] == '-' <==> IsRunChar(s[0]))
    decreases |s|
  {
    if s == [] then []
    else if IsRunChar(s[0]) then "-" + CollapseRuns(DropRun(s))
    else [s[0]] + CollapseRuns(s[1..])
  }

  /** Every character of `r` is a hyphen or a non-separator taken from `s`. */
  predicate HyphensAndLettersOf(r: string, s: string) {
    forall i :: 0 <= i < |r| ==> r[i] == '-' || (!IsRunChar(r[i]) && r[i] in s)
  }

  predicate NoDoubleHyphen(r: string) {
    forall i :: 0 <= i < |r| - 1 ==> !(r[i] == '-' && r[i + 1] == '-')
  }

  lemma {:induction false} CollapseChars(s: string)
    ensures HyphensAndLettersOf(CollapseRuns(s), s)
    decreases |s|
  {
    if s != [] {
      var t := if IsRunChar(s[0]) then DropRun(s) else s[1..];
      CollapseChars(t);
      var head := if IsRunChar(s[0]) then '-' else s[0];
      assert CollapseRuns(s) == [head] + CollapseRuns(t);
      assert head == '-' || (!IsRunChar(head) && head in s);
      CharsOfSuffix(s, t, head, CollapseRuns(t));
    }
  }

  /** What holds of a suffix holds of the whole string. */
  lemma CharsOfSuffix(s: string, t: string, head: char, rest: string)
    requires |t| <= |s| && t == s[|s| - |t|..]
    requires HyphensAndLettersOf(rest, t)
    requires head == '-' || (!IsRunChar(head) && head in s)
    ensures HyphensAndLettersOf([head] + rest, s)
  {
    var r := [head] + rest;
    forall i | 1 <= i < |r| ensures r[i] == '-' || (!IsRunChar(r[i]) && r[i] in s) {
      assert r[i] == rest[i - 1];
      if rest[i - 1] != '-' {
        var j :| 0 <= j < |t| && t[j] == rest[i - 1];
        assert t[j] == s[|s| - |t| + j];
      }
    }
  }

  lemma {:induction false} CollapseNoDouble(s: string)
    ensures NoDoubleHyphen(CollapseRuns(s))
    decreases |s|
  {
    if s != [] {
      var r := CollapseRuns(s);
      var t := if IsRunChar(s[0]) then DropRun(s) else s[1..];
      var rest := CollapseRuns(t);
      CollapseNoDouble(t);
      assert NoDoubleHyphen(rest);
      assert r[1..] == rest;
      if IsRunChar(s[0]) && rest != [] {
        assert !IsRunChar(t[0]);
        assert rest[0] != '-';
      }
      forall i | 0 <= i < |r| - 1 ensures !(r[i] == '-' && r[i + 1] == '-') {
        if i > 0 {
          assert r[i] == rest[i - 1] && r[i + 1] == rest[i];
        }
      }
    }
  }

  /** The slug of scraper.py: lower-cased, reduced to the kept class,
      separator runs collapsed to `-`, then stripped of whitespace. */
  function ScraperSlug(name: string): string {
    Strip(CollapseRuns(KeepChars(Lower(name))))
  }

  /** A character a slug can hold: a hyphen, or a lower-case Latin or
      Cyrillic letter or digit (never whitespace or an underscore). */
  predicate SlugChar(c: char) {
    c == '-' || (IsKept(c) && !IsRunChar(c) && !IsUpper(c))
  }

  predicate SlugShaped(r: string) {
    && (forall i :: 0 <= i < |r| ==> SlugChar(r[i]))
    && NoDoubleHyphen(r)
  }

  lemma CollapsedSlugChars(low: string)
    requires forall i :: 0 <= i < |low| ==> !IsUpper(low[i])
    ensures SlugShaped(CollapseRuns(KeepChars(low)))
  {
    var kept := KeepChars(low);
    var c := CollapseRuns(kept);
    CollapseChars(kept);
    CollapseNoDouble(kept);
    forall i | 0 <= i < |c| ensures SlugChar(c[i]) {
      if c[i] != '-' {
        assert c[i] in kept;
        var j :| 0 <= j < |kept| && kept[j] == c[i];
        assert kept[j] in low;
      }
    }
  }

  /** The final `strip()` has nothing left to strip, every character is a
      slug character and no `--` survives. */
  lemma ScraperSlugShape(name: string)
    ensures ScraperSlug(name) == CollapseRuns(KeepChars(Lower(name)))
    ensures SlugShaped(ScraperSlug(name))
  {
    var c := CollapseRuns(KeepChars(Lower(name)));
    CollapsedSlugChars(Lower(name));
    assert forall i :: 0 <= i < |c| ==> !IsSpace(c[i]) by {
      forall i | 0 <= i < |c| ensures !IsSpace(c[i]) {
        assert SlugChar(c[i]);
      }
    }
  }

  /** The characters that are not separators: what a slug spells. */
  function Letters(s: string): (r: string)
    ensures forall i :: 0 <= i < |r| ==> !IsRunChar(r[i])
  {
    if s == [] then []
    else (if IsRunChar(s[0]) then [] else [s[0]]) + Letters(s[1..])
  }

  lemma {:induction false} LettersDropRun(s: string)
    ensures Letters(DropRun(s)) == Letters(s)
  {
    if s != [] && IsRunChar(s[0]) {
      LettersDropRun(s[1..]);
    }
  }

  lemma {:induction false} LettersCollapse(s: string)
    ensures Letters(CollapseRuns(s)) == Letters(s)
    decreases |s|
  {
    if s == [] {
    } else if IsRunChar(s[0]) {
      var d := DropRun(s);
      LettersCollapse(d);
      LettersDropRun(s);
      assert ("-" + CollapseRuns(d))[1..] == CollapseRuns(d);
    } else {
      LettersCollapse(s[1..]);
      assert ([s[0]] + CollapseRuns(s[1..]))[1..] == CollapseRuns(s[1..]);
    }
  }

  /** The letters and digits a slug keeps: Latin, digits and Cyrillic. */
  function SlugLetters(s: string): (r: string)
    ensures forall i :: 0 <= i < |r| ==> IsKept(r[i]) && !IsRunChar(r[i])
  {
    if s == [] then []
    else (if IsKept(s[0]) && !IsRunChar(s[0]) then [s[0]] else []) + SlugLetters(s[1..])
  }

  lemma {:induction false} LettersKeep(s: string)
    ensures Letters(KeepChars(s)) == SlugLetters(s)
  {
    if s != [] {
      LettersKeep(s[1..]);
      if IsKept(s[0]) {
        assert ([s[0]] + KeepChars(s[1..]))[1..] == KeepChars(s[1..]);
      }
    }
  }

  /** Apart from its hyphens, the slug spells exactly the Latin letters,
      digits and Cyrillic letters of the lower-cased name, in order:
      Cyrillic is kept, not transliterated or dropped. */
  lemma ScraperSlugLetters(name: string)
    ensures Letters(ScraperSlug(name)) == SlugLetters(Lower(name))
  {
    ScraperSlugShape(name);
    LettersCollapse(KeepChars(Lower(name)));
    LettersKeep(Lower(name));
  }

  /** A name that starts with whitespace gives a slug that starts with a
      hyphen: the final `strip()` removes whitespace only, and none is left
      by then. */
  lemma LeadingSpaceGivesHyphen(name: string)
    requires name != [] && IsSpace(name[0])
    ensures ScraperSlug(name) != [] && ScraperSlug(name)[0] == '-'
  {
    var low := Lower(name);
    assert low[0] == name[0];
    assert KeepChars(low) == [low[0]] + KeepChars(low[1..]);
    ScraperSlugShape(name);
  }

  lemma {:induction false} CollapseFixed(s: string)
    requires SlugShaped(s)
    ensures CollapseRuns(s) == s
    decreases |s|
  {
    if s != [] {
      ShapedTail(s);
      CollapseFixed(s[1..]);
      CollapseHead(s);
      assert s == [s[0]] + s[1..];
    }
  }

  /** In a slug a separator is a single hyphen, so the first character
      passes through unchanged. */
  lemma CollapseHead(s: string)
    requires s != [] && SlugShaped(s)
    ensures CollapseRuns(s) == [s[0]] + CollapseRuns(s[1..])
  {
    var t := s[1..];
    assert SlugChar(s[0]);
    if IsRunChar(s[0]) {
      assert t == [] || !IsRunChar(t[0]) by {
        if t != [] { assert t[0] == s[1] && SlugChar(s[1]); }
      }
      assert DropRun(s) == DropRun(t) == t;
    }
  }

  /** A slug stays one without its first character. */
  lemma ShapedTail(s: string)
    requires s != [] && SlugShaped(s)
    ensures SlugShaped(s[1..])
  {
    var t := s[1..];
    forall i | 0 <= i < |t| ensures SlugChar(t[i]) {
      assert t[i] == s[i + 1];
    }
    forall i | 0 <= i < |t| - 1 ensures !(t[i] == '-' && t[i + 1] == '-') {
      assert t[i] == s[i + 1] && t[i + 1] == s[i + 2];
    }
  }

  /** Applying the slug function to a slug changes nothing. */
  lemma ScraperSlugIdempotent(name: string)
    ensures ScraperSlug(ScraperSlug(name)) == ScraperSlug(name)
  {
    var t := ScraperSlug(name);
    ScraperSlugShape(name);
    assert Lower(t) == t;
    assert KeepChars(t) == t;
    CollapseFixed(t);
  }

  // ---------------------------------------------------------------------
  // generate_unique_slug (lines 31-43)

  /** The products table is only read. */
  method GenerateUniqueSlug(db: Catalog, name: string) returns (slug: string)
    ensures slug == FirstFree(ScraperSlug(name), ProductSlugs(db.products))
    ensures slug !in ProductSlugs(db.products)
  {
    slug := FindFreeSlug(ScraperSlug(name), ProductSlugs(db.products));
  }

  // ---------------------------------------------------------------------
  // scrape_attributes (lines 138-190)

  /** An article cell of the price workbook, as openpyxl gives it. */
  datatype ArticleCell = Empty | IntValue(i: int) | TextValue(text: string)

  /** One `table__coll` block: the text of its `coll__name` tag (None when
      the tag is missing) and the texts of the divs of its
      `coll__container` (None when the container is missing). Texts are
      already stripped, as `get_text(strip=True)` returns them. */
  datatype Column = Column(name: Option<string>, values: Option<seq<string>>)

  /** `find_all` on a missing container raises AttributeError. */
  datatype ScrapeFailure = MissingContainer

  const ArticleMarker: string := "Артикул для заказа"

  function Zeros(n: nat): (r: string)
    ensures |r| == n && forall i :: 0 <= i < n ==> r[i] == '0'
  {
    seq(n, _ => '0')
  }

  /** Python's `str.zfill(width)`: zeros are put after a leading sign. */
  function ZFill(s: string, width: nat): (r: string)
    ensures |r| == if |s| >= width then |s| else width
    ensures |s| >= width ==> r == s
    ensures |s| < width && (s == [] || (s[0] != '+' && s[0] != '-')) ==> r == Zeros(width - |s|) + s
  {
    if |s| >= width then s
    else if s != [] && (s[0] == '+' || s[0] == '-') then [s[0]] + Zeros(width - |s|) + s[1..]
    else Zeros(width - |s|) + s
  }

  /** `str(article)` for the cell values the workbook holds. */
  function CellText(cell: ArticleCell): string {
    match cell
    case Empty => "None"
    case IntValue(i) => IntToString(i)
    case TextValue(t) => t
  }

  /** `str(article).strip().zfill(6)` */
  function ArticleCode(cell: ArticleCell): (r: string)
    ensures |r| >= 6
  {
    ZFill(Strip(CellText(cell)), 6)
  }

  predicate IsArticleColumn(col: Column) {
    col.name.Some? && Contains(col.name.value, ArticleMarker)
  }

  /** The first column whose name contains the marker: the search stops
      there, even when the article is not in it. */
  function FirstArticleColumn(cols: seq<Column>, from: nat): (r: Option<nat>)
    requires from <= |cols|
    ensures r.Some? ==> from <= r.value < |cols| && IsArticleColumn(cols[r.value])
    ensures r.Some? ==> forall j :: from <= j < r.value ==> !IsArticleColumn(cols[j])
    ensures r.None? ==> forall j :: from <= j < |cols| ==> !IsArticleColumn(cols[j])
    decreases |cols| - from
  {
    if from == |cols| then None
    else if IsArticleColumn(cols[from]) then Some(from)
    else FirstArticleColumn(cols, from + 1)
  }

  /** The first position whose zero-padded value equals the article code. */
  function FirstMatch(values: seq<string>, code: string, from: nat): (r: Option<nat>)
    requires from <= |values|
    ensures r.Some? ==> from <= r.value < |values| && ZFill(values[r.value], 6) == code
    ensures r.Some? ==> forall j :: from <= j < r.value ==> ZFill(values[j], 6) != code
    ensures r.None? ==> forall j :: from <= j < |values| ==> ZFill(values[j], 6) != code
    decreases |values| - from
  {
    if from == |values| then None
    else if ZFill(values[from], 6) == code then Some(from)
    else FirstMatch(values, code, from + 1)
  }

  /** The first loop: the article's position in the first marker column. */
  function ArticlePosition(cols: seq<Column>, code: string): Result<Option<nat>, ScrapeFailure> {
    match FirstArticleColumn(cols, 0)
    case None => Ok(None)
    case Some(k) =>
      if cols[k].values.None? then Err(MissingContainer)
      else Ok(FirstMatch(cols[k].values.value, code, 0))
  }

  /** A column the second loop reads: named and not a marker column. */
  predicate IsValueColumn(col: Column) {
    col.name.Some? && !IsArticleColumn(col)
  }

  /** A column the second loop emits an attribute for. */
  predicate Emits(col: Column, pos: nat) {
    IsValueColumn(col) && col.values.Some? && |col.values.value| > pos
  }

  function Entry(col: Column, pos: nat): Attribute
    requires Emits(col, pos)
  {
    Attribute(col.name.value, col.values.value[pos])
  }

  function Prepend(a: seq<Attribute>, r: Result<seq<Attribute>, ScrapeFailure>): Result<seq<Attribute>, ScrapeFailure> {
    match r
    case Ok(b) => Ok(a + b)
    case Err(e) => Err(e)
  }

  /** The second loop, from column `from` on. */
  function Emitted(cols: seq<Column>, pos: nat, from: nat): Result<seq<Attribute>, ScrapeFailure>
    requires from <= |cols|
    decreases |cols| - from
  {
    if from == |cols| then Ok([])
    else if !IsValueColumn(cols[from]) then Emitted(cols, pos, from + 1)
    else if cols[from].values.None? then Err(MissingContainer)
    else if Emits(cols[from], pos) then Prepend([Entry(cols[from], pos)], Emitted(cols, pos, from + 1))
    else Emitted(cols, pos, from + 1)
  }

  /** The whole of `scrape_attributes`; `table` is None when the page has
      no attributes section. */
  function ScrapeAttributesSpec(table: Option<seq<Column>>, article: ArticleCell): Result<seq<Attribute>, ScrapeFailure> {
    match table
    case None => Ok([])
    case Some(cols) =>
      match ArticlePosition(cols, ArticleCode(article))
      case Err(e) => Err(e)
      case Ok(None) => Ok([])
      case Ok(Some(pos)) => Emitted(cols, pos, 0)
  }

  /** The positions, from `from` on, of the columns that emit, in order. */
  function EmittingColumns(cols: seq<Column>, pos: nat, from: nat): (ks: seq<nat>)
    requires from <= |cols|
    ensures forall j :: 0 <= j < |ks| ==> from <= ks[j] < |cols| && Emits(cols[ks[j]], pos)
    ensures forall i, j :: 0 <= i < j < |ks| ==> ks[i] < ks[j]
    ensures forall k :: from <= k < |cols| && Emits(cols[k], pos) ==> k in ks
    decreases |cols| - from
  {
    if from == |cols| then []
    else (if Emits(cols[from], pos) then [from] else []) + EmittingColumns(cols, pos, from + 1)
  }

  /** The second loop fails exactly when a named, non-marker column has no
      container. */
  lemma {:induction false} EmittedFails(cols: seq<Column>, pos: nat, from: nat)
    requires from <= |cols|
    ensures Emitted(cols, pos, from).Err? <==>
      exists k :: from <= k < |cols| && IsValueColumn(cols[k]) && cols[k].values.None?
    decreases |cols| - from
  {
    if from < |cols| {
      EmittedFails(cols, pos, from + 1);
      if IsValueColumn(cols[from]) && cols[from].values.None? {
        assert Emitted(cols, pos, from).Err?;
      }
    }
  }

  /** `a` holds, in order, the entries of the columns at positions `ks`. */
  predicate EntriesOf(a: seq<Attribute>, cols: seq<Column>, pos: nat, ks: seq<nat>) {
    && |a| == |ks|
    && forall j :: 0 <= j < |a| ==> ks[j] < |cols| && Emits(cols[ks[j]], pos) && a[j] == Entry(cols[ks[j]], pos)
  }

  lemma EntriesOfCons(a: seq<Attribute>, cols: seq<Column>, pos: nat, ks: seq<nat>, k: nat)
    requires k < |cols| && Emits(cols[k], pos)
    requires EntriesOf(a, cols, pos, ks)
    ensures EntriesOf([Entry(cols[k], pos)] + a, cols, pos, [k] + ks)
  {
    var a', ks' := [Entry(cols[k], pos)] + a, [k] + ks;
    forall j | 1 <= j < |a'| ensures ks'[j] < |cols| && Emits(cols[ks'[j]], pos) && a'[j] == Entry(cols[ks'[j]], pos) {
      assert a'[j] == a[j - 1] && ks'[j] == ks[j - 1];
    }
  }

  /** Otherwise it emits one attribute per emitting column, in column
      order, each holding the column's name and its value at the
      article's position. */
  lemma {:induction false} EmittedByColumn(cols: seq<Column>, pos: nat, from: nat)
    requires from <= |cols|
    ensures Emitted(cols, pos, from).Ok? ==>
      EntriesOf(Emitted(cols, pos, from).value, cols, pos, EmittingColumns(cols, pos, from))
    decreases |cols| - from
  {
    if from < |cols| {
      EmittedByColumn(cols, pos, from + 1);
      var c := cols[from];
      var rest := Emitted(cols, pos, from + 1);
      var ks' := EmittingColumns(cols, pos, from + 1);
      if IsValueColumn(c) && c.values.None? {
      } else if Emits(c, pos) {
        assert Emitted(cols, pos, from) == Prepend([Entry(c, pos)], rest);
        assert EmittingColumns(cols, pos, from) == [from] + ks';
        if rest.Ok? {
          EntriesOfCons(rest.value, cols, pos, ks', from);
        }
      } else {
        assert Emitted(cols, pos, from) == rest;
        assert EmittingColumns(cols, pos, from) == ks';
      }
    }
  }

  /** Nothing is emitted when no column is a marker column. */
  lemma NoMarkerNoAttributes(cols: seq<Column>, article: ArticleCell)
    requires forall k :: 0 <= k < |cols| ==> !IsArticleColumn(cols[k])
    ensures ScrapeAttributesSpec(Some(cols), article) == Ok([])
  {
    assert FirstArticleColumn(cols, 0).None?;
  }

  /** Nothing is emitted when the article code matches no value of the
      first marker column, whatever the later marker columns hold. */
  lemma ArticleNotFoundNoAttributes(cols: seq<Column>, article: ArticleCell, k: nat)
    requires FirstArticleColumn(cols, 0) == Some(k) && cols[k].values.Some?
    requires forall j :: 0 <= j < |cols[k].values.value| ==> ZFill(cols[k].values.value[j], 6) != ArticleCode(article)
    ensures ScrapeAttributesSpec(Some(cols), article) == Ok([])
  {
  }

  /** The first loop: the marker column is searched for its first
      matching value, and the search stops at the first marker column. */
  method FindArticlePosition(cols: seq<Column>, code: string)
    returns (r: Result<Option<nat>, ScrapeFailure>)
    ensures r == ArticlePosition(cols, code)
  {
    var i := 0;
    while i < |cols|
      invariant 0 <= i <= |cols|
      invariant FirstArticleColumn(cols, i) == FirstArticleColumn(cols, 0)
      decreases |cols| - i
    {
      if IsArticleColumn(cols[i]) {
        if cols[i].values.None? {
          return Err(MissingContainer);
        }
        var values := cols[i].values.value;
        var j := 0;
        while j < |values|
          invariant 0 <= j <= |values|
          invariant FirstMatch(values, code, j) == FirstMatch(values, code, 0)
          decreases |values| - j
        {
          if ZFill(values[j], 6) == code {
            return Ok(Some(j));
          }
          j := j + 1;
        }
        return Ok(None);
      }
      i := i + 1;
    }
    r := Ok(None);
  }

  /** The second loop: one attribute per emitting column, stopping at a
      column without a container. */
  method EmitAttributes(cols: seq<Column>, pos: nat) returns (r: Result<seq<Attribute>, ScrapeFailure>)
    ensures r == Emitted(cols, pos, 0)
  {
    var attributes: seq<Attribute> := [];
    var i := 0;
    assert Prepend([], Emitted(cols, pos, 0)) == Emitted(cols, pos, 0) by {
      if Emitted(cols, pos, 0).Ok? {
        assert [] + Emitted(cols, pos, 0).value == Emitted(cols, pos, 0).value;
      }
    }
    while i < |cols|
      invariant 0 <= i <= |cols|
      invariant Emitted(cols, pos, 0) == Prepend(attributes, Emitted(cols, pos, i))
      decreases |cols| - i
    {
      var rest := Emitted(cols, pos, i + 1);
      if IsValueColumn(cols[i]) {
        if cols[i].values.None? {
          return Err(MissingContainer);
        }
        if |cols[i].values.value| > pos {
          var e := Entry(cols[i], pos);
          assert Emitted(cols, pos, i) == Prepend([e], rest);
          if rest.Ok? {
            assert attributes + ([e] + rest.value) == (attributes + [e]) + rest.value;
          }
          attributes := attributes + [e];
        } else {
          assert Emitted(cols, pos, i) == rest;
        }
      } else {
        assert Emitted(cols, pos, i) == rest;
      }
      i := i + 1;
    }
    assert attributes + [] == attributes;
    r := Ok(attributes);
  }

  /** `scrape_attributes`, with the early returns of the source. */
  method ScrapeAttributes(table: Option<seq<Column>>, article: ArticleCell)
    returns (r: Result<seq<Attribute>, ScrapeFailure>)
    ensures r == ScrapeAttributesSpec(table, article)
  {
    if table.None? {
      return Ok([]);
    }
    var position := FindArticlePosition(table.value, ArticleCode(article));
    match position
    case Err(e) => r := Err(e);
    case Ok(None) => r := Ok([]);
    case Ok(Some(pos)) => r := EmitAttributes(table.value, pos);
  }

  // ---------------------------------------------------------------------
  // extract_categories (lines 261-285)

  /** An element of the pair `extract_categories` returns: a category name,
      or something that is not a string (a list or None), on which
      `generate_slug` raises. */
  datatype Crumb = Name(text: string) | NotAName

  /** `links` is None when the page has no breadcrumb section, otherwise
      the texts of its `breadcrumbs__item` links. */
  function ExtractCategories(links: Option<seq<string>>): (r: seq<Crumb>)
    ensures |r| == 2
    ensures r[0].Name? <==> links.Some? && |links.value| >= 4
    ensures r[1].Name? <==> links.Some? && |links.value| >= 5
    ensures links.Some? && |links.value| >= 4 ==> r[0] == Name(links.value[2])
    ensures links.Some? && |links.value| >= 5 ==> r[1] == Name(links.value[3])
  {
    match links
    case None => [NotAName, NotAName]
    case Some(ls) =>
      if |ls| < 4 then [NotAName, NotAName]
      else if |ls| >= 5 then [Name(ls[2]), Name(ls[3])]
      else [Name(ls[2]), NotAName]
  }

  // ---------------------------------------------------------------------
  // save_categories_to_db (lines 287-344)

  /** The position of the last occurrence of `name`. */
  function LastNamed(names: seq<string>, name: string): (r: Option<nat>)
    ensures r.Some? ==> r.value < |names| && names[r.value] == name
    ensures r.Some? ==> forall j :: r.value < j < |names| ==> names[j] != name
    ensures r.None? ==> forall j :: 0 <= j < |names| ==> names[j] != name
  {
    if names == [] then None
    else if names[|names| - 1] == name then Some(|names| - 1)
    else
      var r := LastNamed(names[..|names| - 1], name);
      assert forall j :: 0 <= j < |names| - 1 ==> names[..|names| - 1][j] == names[j];
      r
  }

  /** `xml_categories` after the nodes `cs`, in order: stripped feed name
      to feed id, later nodes overwriting earlier ones. */
  function FeedIndex(cs: seq<FeedCategory>): map<string, int> {
    if cs == [] then map[]
    else FeedIndex(cs[..|cs| - 1])[FeedName(cs[|cs| - 1]) := cs[|cs| - 1].id]
  }

  /** A name is indexed iff some node carries it, and it maps to the id of
      the last such node. */
  lemma {:induction false} FeedIndexLastWins(cs: seq<FeedCategory>, name: string)
    ensures name in FeedIndex(cs) <==> LastNamed(FeedNames(cs), name).Some?
    ensures name in FeedIndex(cs) ==> FeedIndex(cs)[name] == cs[LastNamed(FeedNames(cs), name).value].id
  {
    if cs != [] {
      var init := cs[..|cs| - 1];
      var names := FeedNames(cs);
      assert names[|cs| - 1] == FeedName(cs[|cs| - 1]);
      if names[|cs| - 1] != name {
        FeedIndexLastWins(init, name);
        assert FeedNames(init) == names[..|cs| - 1];
        assert LastNamed(names, name) == LastNamed(FeedNames(init), name);
        if LastNamed(names, name).Some? {
          assert cs[LastNamed(names, name).value] == init[LastNamed(names, name).value];
        }
      }
    }
  }

  method BuildFeedIndex(cs: seq<FeedCategory>) returns (index: map<string, int>)
    ensures index == FeedIndex(cs)
  {
    index := map[];
    for i := 0 to |cs|
      invariant index == FeedIndex(cs[..i])
    {
      assert cs[..i + 1][..i] == cs[..i];
      index := index[FeedName(cs[i]) := cs[i].id];
    }
    assert cs[..|cs|] == cs;
  }

  /** What the loop ends with: the id resolved for the last name (None for
      an empty path), or a crash on an element that is not a name. */
  datatype Saved = Resolved(id: Option<int>) | Crashed

  /** The id SQLite's AUTOINCREMENT gives the next category row: one more
      than the larger of the recorded high-water mark and the largest id
      in the table. */
  function HighMark(cats: seq<CategoryRow>, mark: int): (r: int)
    ensures r >= mark
    ensures forall c :: c in cats ==> c.id <= r
  {
    if cats == [] then mark
    else
      var rest := HighMark(cats[1..], mark);
      assert forall c :: c in cats ==> c == cats[0] || c in cats[1..];
      if cats[0].id > rest then cats[0].id else rest
  }

  function NewCategoryId(t: Tables): int {
    HighMark(t.categories, t.categorySeq) + 1
  }

  /** One name of the path: the feed's id for it, else the id of the row
      that has it, else a new row, parented under the previous id and
      committed at once. */
  function ResolveOne(t: Tables, index: map<string, int>, name: string, parent: Option<int>): (Tables, int) {
    if name in index then (t, index[name])
    else
      match FindCategoryByName(t.categories, name)
      case Some(id) => (t, id)
      case None =>
        var id := NewCategoryId(t);
        var slug := FirstFree(ScraperSlug(name), CategorySlugs(t.categories));
        (t.(categories := t.categories + [CategoryRow(id, name, Some(slug), parent)], categorySeq := id), id)
  }

  function ResolvePath(t: Tables, index: map<string, int>, crumbs: seq<Crumb>, parent: Option<int>): (Tables, Saved)
    decreases |crumbs|
  {
    if crumbs == [] then (t, Resolved(parent))
    else
      match crumbs[0]
      case NotAName => (t, Crashed)
      case Name(name) =>
        var (t1, id) := ResolveOne(t, index, name, parent);
        ResolvePath(t1, index, crumbs[1..], Some(id))
  }

  function SaveCategoriesSpec(t: Tables, cs: seq<FeedCategory>, crumbs: seq<Crumb>): (Tables, Saved) {
    ResolvePath(t, FeedIndex(cs), crumbs, None)
  }

  /** A name the feed knows resolves to the feed's id and a name the table
      knows to its row; otherwise exactly one row is appended, carrying the
      name, the given parent, a slug no category has and an id above every
      id and the high-water mark. Products and attributes never change. */
  lemma ResolveOneFacts(t: Tables, index: map<string, int>, name: string, parent: Option<int>)
    ensures var (t2, id) := ResolveOne(t, index, name, parent);
      && t2.products == t.products && t2.attributes == t.attributes
      && (name in index ==> t2 == t && id == index[name])
      && (name !in index && (exists i :: 0 <= i < |t.categories| && t.categories[i].name == name) ==>
            t2 == t && FindCategoryByName(t.categories, name) == Some(id))
      && (name !in index && (forall i :: 0 <= i < |t.categories| ==> t.categories[i].name != name) ==>
            && |t2.categories| == |t.categories| + 1
            && t2.categories[..|t.categories|] == t.categories
            && t2.categories[|t.categories|].id == id
            && t2.categories[|t.categories|].name == name
            && t2.categories[|t.categories|].parentId == parent
            && t2.categories[|t.categories|].slug.Some?
            && t2.categories[|t.categories|].slug.value !in CategorySlugs(t.categories)
            && id !in CategoryIds(t.categories) && id > t.categorySeq && t2.categorySeq == id)
  {
    FirstFreeIsLeastFree(ScraperSlug(name), CategorySlugs(t.categories));
    var (t2, id) := ResolveOne(t, index, name, parent);
    if name !in index && FindCategoryByName(t.categories, name).None? {
      assert t2.categories[..|t.categories|] == t.categories;
    }
  }

  /** A lookup that succeeds on a table still succeeds, with the same id,
      once rows are appended. */
  lemma {:induction false} FindByNameExtended(cats: seq<CategoryRow>, more: seq<CategoryRow>, name: string)
    requires FindCategoryByName(cats, name).Some?
    ensures FindCategoryByName(cats + more, name) == FindCategoryByName(cats, name)
    decreases |cats|
  {
    if cats[0].name != name {
      FindByNameExtended(cats[1..], more, name);
      assert (cats + more)[1..] == cats[1..] + more;
    }
  }

  /** The table after a path resolution extends the table before it. */
  lemma {:induction false} ResolvePathExtends(t: Tables, index: map<string, int>, crumbs: seq<Crumb>, parent: Option<int>)
    ensures var t2 := ResolvePath(t, index, crumbs, parent).0;
      && t2.products == t.products && t2.attributes == t.attributes
      && |t.categories| <= |t2.categories| && t2.categories[..|t.categories|] == t.categories
    decreases |crumbs|
  {
    if crumbs != [] && crumbs[0].Name? {
      var (t1, id) := ResolveOne(t, index, crumbs[0].text, parent);
      ResolveOneFacts(t, index, crumbs[0].text, parent);
      ResolvePathExtends(t1, index, crumbs[1..], Some(id));
      var t2 := ResolvePath(t1, index, crumbs[1..], Some(id)).0;
      assert t2.categories[..|t.categories|] == t2.categories[..|t1.categories|][..|t.categories|];
    }
  }

  /** Resolving a name again, against any table that extends the result of
      a first resolution, changes nothing and gives the same id. */
  lemma ResolveOneAgain(t: Tables, index: map<string, int>, name: string, parent: Option<int>, u: Tables)
    requires var t1 := ResolveOne(t, index, name, parent).0;
      |t1.categories| <= |u.categories| && u.categories[..|t1.categories|] == t1.categories
    ensures ResolveOne(u, index, name, parent) == (u, ResolveOne(t, index, name, parent).1)
  {
    if name !in index {
      var t1 := ResolveOne(t, index, name, parent).0;
      var id := ResolveOne(t, index, name, parent).1;
      assert FindCategoryByName(t1.categories, name) == Some(id) by {
        if FindCategoryByName(t.categories, name).None? {
          var row := CategoryRow(id, name, Some(FirstFree(ScraperSlug(name), CategorySlugs(t.categories))), parent);
          assert t1.categories == t.categories + [row];
          FindAppended(t.categories, row);
        }
      }
      FindByNameExtended(t1.categories, u.categories[|t1.categories|..], name);
      assert t1.categories + u.categories[|t1.categories|..] == u.categories;
    }
  }

  /** Resolving the same path against any table that extends the result of
      a first resolution changes nothing and ends the same way. */
  lemma {:induction false} ResolvePathAgain(t: Tables, index: map<string, int>, crumbs: seq<Crumb>, parent: Option<int>, u: Tables)
    requires var t2 := ResolvePath(t, index, crumbs, parent).0;
      |t2.categories| <= |u.categories| && u.categories[..|t2.categories|] == t2.categories
    ensures ResolvePath(u, index, crumbs, parent) == (u, ResolvePath(t, index, crumbs, parent).1)
    decreases |crumbs|
  {
    if crumbs != [] && crumbs[0].Name? {
      var name := crumbs[0].text;
      var (t1, id) := ResolveOne(t, index, name, parent);
      ResolvePathExtends(t1, index, crumbs[1..], Some(id));
      var t2 := ResolvePath(t1, index, crumbs[1..], Some(id)).0;
      assert u.categories[..|t1.categories|] == t1.categories by {
        assert u.categories[..|t1.categories|] == u.categories[..|t2.categories|][..|t1.categories|];
      }
      ResolveOneAgain(t, index, name, parent, u);
      ResolvePathAgain(t1, index, crumbs[1..], Some(id), u);
    }
  }

  /** A row appended under a name no row has is what the lookup finds. */
  lemma {:induction false} FindAppended(cats: seq<CategoryRow>, row: CategoryRow)
    requires FindCategoryByName(cats, row.name).None?
    ensures FindCategoryByName(cats + [row], row.name) == Some(row.id)
    decreases |cats|
  {
    if cats != [] {
      assert (cats + [row])[1..] == cats[1..] + [row];
      FindAppended(cats[1..], row);
    }
  }

  /** Running `save_categories_to_db` a second time with the same names
      inserts nothing and ends the same way: with the same id, or with the
      same crash. */
  lemma SaveCategoriesIdempotent(t: Tables, cs: seq<FeedCategory>, crumbs: seq<Crumb>)
    ensures SaveCategoriesSpec(SaveCategoriesSpec(t, cs, crumbs).0, cs, crumbs) == SaveCategoriesSpec(t, cs, crumbs)
  {
    var first := SaveCategoriesSpec(t, cs, crumbs);
    ResolvePathAgain(t, FeedIndex(cs), crumbs, None, first.0);
    assert first.0.categories[..|first.0.categories|] == first.0.categories;
    assert SaveCategoriesSpec(first.0, cs, crumbs) == ResolvePath(first.0, FeedIndex(cs), crumbs, None);
    assert first == (first.0, first.1);
  }

  /** A new category row keeps the keys of the schema. */
  lemma ResolveOneSchema(t: Tables, index: map<string, int>, name: string, parent: Option<int>)
    requires Schema(t)
    ensures Schema(ResolveOne(t, index, name, parent).0)
  {
    if name !in index && FindCategoryByName(t.categories, name).None? {
      ResolveOneFacts(t, index, name, parent);
      var t2 := ResolveOne(t, index, name, parent).0;
      var row := t2.categories[|t.categories|];
      assert t2 == t.(categories := t.categories + [row], categorySeq := row.id);
      AddCategorySchema(t, row);
    }
  }

  lemma {:induction false} ResolvePathSchema(t: Tables, index: map<string, int>, crumbs: seq<Crumb>, parent: Option<int>)
    requires Schema(t)
    ensures Schema(ResolvePath(t, index, crumbs, parent).0)
    decreases |crumbs|
  {
    if crumbs != [] && crumbs[0].Name? {
      var (t1, id) := ResolveOne(t, index, crumbs[0].text, parent);
      ResolveOneSchema(t, index, crumbs[0].text, parent);
      ResolvePathSchema(t1, index, crumbs[1..], Some(id));
    }
  }

  /** Saving a path keeps the keys of the schema. */
  lemma SaveCategoriesSchema(t: Tables, cs: seq<FeedCategory>, crumbs: seq<Crumb>)
    requires Schema(t)
    ensures Schema(SaveCategoriesSpec(t, cs, crumbs).0)
  {
    ResolvePathSchema(t, FeedIndex(cs), crumbs, None);
  }

  /** Fewer than four links, or no breadcrumb section: the first element
      is not a name, so the loop raises before touching the tables. */
  lemma ShortBreadcrumbsCrash(t: Tables, cs: seq<FeedCategory>, links: Option<seq<string>>)
    requires links.None? || |links.value| < 4
    ensures SaveCategoriesSpec(t, cs, ExtractCategories(links)) == (t, Crashed)
  {
    assert ExtractCategories(links)[0] == NotAName;
  }

  /** Exactly four links: the category is resolved, committing at most the
      one row named after the third link, then the None subcategory
      raises. */
  lemma FourBreadcrumbsCrash(t: Tables, cs: seq<FeedCategory>, links: seq<string>)
    requires |links| == 4
    ensures var (t2, saved) := SaveCategoriesSpec(t, cs, ExtractCategories(Some(links)));
      && saved == Crashed
      && t2.products == t.products && t2.attributes == t.attributes
      && (t2 == t ||
          (&& |t2.categories| == |t.categories| + 1
           && t2.categories[..|t.categories|] == t.categories
           && t2.categories[|t.categories|].name == links[2]))
  {
    var crumbs := ExtractCategories(Some(links));
    var index := FeedIndex(cs);
    assert crumbs == [Name(links[2]), NotAName];
    ResolveOneFacts(t, index, links[2], None);
    var (t1, id) := ResolveOne(t, index, links[2], None);
    assert crumbs[1..] == [NotAName];
    assert ResolvePath(t1, index, crumbs[1..], Some(id)) == (t1, Crashed);
    assert SaveCategoriesSpec(t, cs, crumbs) == (t1, Crashed);
  }

  /** Five or more links: both names resolve and an id comes back. */
  lemma LongBreadcrumbsResolve(t: Tables, cs: seq<FeedCategory>, links: seq<string>)
    requires |links| >= 5
    ensures var saved := SaveCategoriesSpec(t, cs, ExtractCategories(Some(links))).1;
      saved.Resolved? && saved.id.Some?
  {
    var crumbs := ExtractCategories(Some(links));
    var index := FeedIndex(cs);
    assert crumbs == [Name(links[2]), Name(links[3])];
    var (t1, id) := ResolveOne(t, index, links[2], None);
    var (t2, id2) := ResolveOne(t1, index, links[3], Some(id));
    assert crumbs[1..] == [Name(links[3])];
    assert [Name(links[3])][1..] == [];
    assert ResolvePath(t1, index, crumbs[1..], Some(id)) == (t2, Resolved(Some(id2)));
  }

  /** One name of the path (lines 303-341): the feed's id, else the row
      that has the name, else a new row with a free slug. */
  method ResolveName(db: Catalog, index: map<string, int>, name: string, parent: Option<int>) returns (id: int)
    modifies db
    ensures (db.Snapshot(), id) == ResolveOne(old(db.Snapshot()), index, name, parent)
  {
    if name in index {
      id := index[name];
    } else {
      var found := FindCategoryByName(db.categories, name);
      if found.Some? {
        id := found.value;
      } else {
        var slug := FindFreeSlug(ScraperSlug(name), CategorySlugs(db.categories));
        id := NewCategoryId(db.Snapshot());
        db.categories := db.categories + [CategoryRow(id, name, Some(slug), parent)];
        db.categorySeq := id;
      }
    }
  }

  /** The loop of lines 301-341; a crumb that is not a name raises, leaving
      whatever was already committed. */
  method SaveCategories(db: Catalog, cs: seq<FeedCategory>, crumbs: seq<Crumb>) returns (saved: Saved)
    modifies db
    ensures (db.Snapshot(), saved) == SaveCategoriesSpec(old(db.Snapshot()), cs, crumbs)
  {
    var index := BuildFeedIndex(cs);
    var parent: Option<int> := None;
    var i := 0;
    while i < |crumbs|
      invariant 0 <= i <= |crumbs|
      invariant ResolvePath(db.Snapshot(), index, crumbs[i..], parent) == SaveCategoriesSpec(old(db.Snapshot()), cs, crumbs)
      decreases |crumbs| - i
    {
      assert crumbs[i..][1..] == crumbs[i + 1..];
      match crumbs[i]
      case NotAName =>
        return Crashed;
      case Name(name) =>
        var id := ResolveName(db, index, name, parent);
        parent := Some(id);
        i := i + 1;
    }
    saved := Resolved(parent);
  }

  // ---------------------------------------------------------------------
  // generate_unique_product_id (lines 192-223)

  /** `SELECT MAX(id) FROM products`: None on an empty table. */
  function MaxProductId(products: seq<ProductRow>): (r: Option<int>)
    ensures r.None? <==> products == []
    ensures r.Some? ==> r.value in ProductIds(products)
    ensures r.Some? ==> forall p :: p in products ==> p.id <= r.value
  {
    if products == [] then None
    else
      var last := products[|products| - 1];
      var front := products[..|products| - 1];
      assert products == front + [last];
      var m := MaxProductId(front);
      if m.None? || last.id > m.value then Some(last.id) else m
  }

  function NextProductId(products: seq<ProductRow>): int {
    match MaxProductId(products)
    case None => 1
    case Some(m) => m + 1
  }

  /** The id is 1 on an empty table, otherwise one more than an id the
      table holds; either way no product has it, and it exceeds every id. */
  lemma NextProductIdFresh(products: seq<ProductRow>)
    ensures products == [] ==> NextProductId(products) == 1
    ensures products != [] ==> NextProductId(products) - 1 in ProductIds(products)
    ensures NextProductId(products) !in ProductIds(products)
    ensures forall p :: p in products ==> p.id < NextProductId(products)
  {
  }

  /** The `while True` body runs once: `MAX(id) + 1` is never taken, so the
      existence check always passes. The table is only read. */
  method GenerateUniqueProductId(db: Catalog) returns (newId: int)
    ensures newId == NextProductId(db.products)
    ensures newId !in ProductIds(db.products)
  {
    var maxId: Option<int> := None;
    for i := 0 to |db.products|
      invariant maxId == MaxProductId(db.products[..i])
    {
      assert db.products[..i + 1][..i] == db.products[..i];
      var id := db.products[i].id;
      if maxId.None? || id > maxId.value {
        maxId := Some(id);
      }
    }
    assert db.products[..|db.products|] == db.products;
    newId := if maxId.None? then 1 else maxId.value + 1;
    NextProductIdFresh(db.products);
  }

  // ---------------------------------------------------------------------
  // insert_scraped_product (lines 225-258)

  /** The dict `scrape_product_data` returns. */
  datatype ScrapedProduct = ScrapedProduct(
    name: string,
    description: string,
    price: Option<real>,
    priceRrc: Option<real>,
    images: seq<string>,
    categoryId: Option<int>,
    attributes: seq<Attribute>)

  function ScrapedRow(data: ScrapedProduct, id: int, slug: string): ProductRow {
    ProductRow(id, data.name, Some(slug), data.price, data.priceRrc, data.description,
               JoinWith(data.images, ','), data.categoryId, true)
  }

  function AttributeRows(id: int, attrs: seq<Attribute>): (r: seq<AttributeRow>)
    ensures |r| == |attrs|
    ensures forall k :: 0 <= k < |r| ==> r[k] == AttributeRow(id, attrs[k].name, attrs[k].value)
  {
    seq(|attrs|, k requires 0 <= k < |attrs| => AttributeRow(id, attrs[k].name, attrs[k].value))
  }

  /** The tables after one committed insert. */
  function InsertSpec(t: Tables, data: ScrapedProduct): Tables {
    var id := NextProductId(t.products);
    var slug := FirstFree(ScraperSlug(data.name), ProductSlugs(t.products));
    t.(products := t.products + [ScrapedRow(data, id, slug)],
       attributes := t.attributes + AttributeRows(id, data.attributes))
  }

  /** One product row with a fresh id, a free slug, `available` set and
      the images joined by ","; one attribute row per scraped attribute,
      in order, all under the new id; categories untouched; the keys of
      the schema kept. */
  lemma InsertFacts(t: Tables, data: ScrapedProduct)
    requires Schema(t)
    ensures var t2 := InsertSpec(t, data);
      && Schema(t2)
      && t2.categories == t.categories && t2.categorySeq == t.categorySeq
      && |t2.products| == |t.products| + 1 && t2.products[..|t.products|] == t.products
      && var row := t2.products[|t.products|];
      && row.id !in ProductIds(t.products)
      && row.slug.Some? && row.slug.value !in ProductSlugs(t.products)
      && row.available && row.image == JoinWith(data.images, ',')
      && row.name == data.name && row.categoryId == data.categoryId
      && row.price == data.price && row.priceRrc == data.priceRrc && row.description == data.description
      && t2.attributes[..|t.attributes|] == t.attributes
      && |t2.attributes| == |t.attributes| + |data.attributes|
      && forall k :: 0 <= k < |data.attributes| ==>
           t2.attributes[|t.attributes| + k] == AttributeRow(row.id, data.attributes[k].name, data.attributes[k].value)
  {
    var t2 := InsertSpec(t, data);
    var n := |t.products|;
    NextProductIdFresh(t.products);
    FirstFreeIsLeastFree(ScraperSlug(data.name), ProductSlugs(t.products));
    var row := t2.products[n];
    assert t2.products[..n] == t.products;
    assert t2.attributes[..|t.attributes|] == t.attributes;
    AddProductSchema(t, row, t2.attributes);
  }

  /** The attribute loop of lines 242-247. */
  method AddAttributeRows(db: Catalog, id: int, attrs: seq<Attribute>)
    modifies db
    ensures db.attributes == old(db.attributes) + AttributeRows(id, attrs)
    ensures db.products == old(db.products)
    ensures db.categories == old(db.categories) && db.categorySeq == old(db.categorySeq)
  {
    for k := 0 to |attrs|
      invariant db.products == old(db.products)
      invariant db.categories == old(db.categories) && db.categorySeq == old(db.categorySeq)
      invariant db.attributes == old(db.attributes) + AttributeRows(id, attrs[..k])
    {
      var row := AttributeRow(id, attrs[k].name, attrs[k].value);
      assert AttributeRows(id, attrs[..k + 1]) == AttributeRows(id, attrs[..k]) + [row];
      db.attributes := db.attributes + [row];
    }
    assert attrs[..|attrs|] == attrs;
  }

  /** Lines 229-249: the product row, then the attribute rows, then one
      commit. No insert can fail: the id and the slug are fresh. */
  method InsertScrapedProduct(db: Catalog, data: ScrapedProduct)
    modifies db
    ensures db.Snapshot() == InsertSpec(old(db.Snapshot()), data)
  {
    ghost var before := db.Snapshot();
    var newId := GenerateUniqueProductId(db);
    var slug := GenerateUniqueSlug(db, data.name);
    var row := ScrapedRow(data, newId, slug);
    db.products := db.products + [row];
    AddAttributeRows(db, newId, data.attributes);
    assert db.Snapshot() == before.(products := before.products + [row],
                                     attributes := before.attributes + AttributeRows(newId, data.attributes));
  }

  // ---------------------------------------------------------------------
  // is_url_valid (lines 346-359) and the gallery URLs (lines 82-89)

  /** `status` is None when the HEAD request raised. */
  function UrlIsValid(status: Option<int>): (r: bool)
    ensures r <==> status.Some? && status.value != 404
  {
    match status
    case None => false
    case Some(code) => code != 404
  }

  const SiteRoot: string := "https://www.diamir.su"

  function AbsoluteUrl(src: string): string {
    if StartsWith(src, "http") then src else SiteRoot + src
  }

  function AbsoluteUrls(srcs: seq<string>): (r: seq<string>)
    ensures |r| == |srcs|
    ensures forall k :: 0 <= k < |r| ==> r[k] == AbsoluteUrl(srcs[k])
  {
    seq(|srcs|, k requires 0 <= k < |srcs| => AbsoluteUrl(srcs[k]))
  }

  /** The URL a gallery `src` contributes: none for a missing or empty
      one. */
  function SrcUrl(src: Option<string>): seq<string> {
    if src.Some? && src.value != [] then [AbsoluteUrl(src.value)] else []
  }

  /** The loop's list after the sources `srcs`. */
  function GalleryUrls(srcs: seq<Option<string>>): seq<string> {
    if srcs == [] then [] else GalleryUrls(srcs[..|srcs| - 1]) + SrcUrl(srcs[|srcs| - 1])
  }

  /** The URLs of the gallery's `img` sources; `gallery` is None when the
      page has no gallery, and a source is None when the tag has no
      `src`. */
  function ImageUrls(gallery: Option<seq<Option<string>>>): seq<string> {
    match gallery
    case None => []
    case Some(srcs) => GalleryUrls(srcs)
  }

  lemma {:induction false} PresentTextsSnoc(xs: seq<Option<string>>, x: Option<string>)
    ensures PresentTexts(xs + [x]) == PresentTexts(xs) + (if x.Some? && x.value != [] then [x.value] else [])
  {
    if xs != [] {
      assert (xs + [x])[1..] == xs[1..] + [x];
      PresentTextsSnoc(xs[1..], x);
    }
  }

  /** The loop's list is the non-empty sources, in order, each made
      absolute. */
  lemma {:induction false} GalleryUrlsPresent(srcs: seq<Option<string>>)
    ensures GalleryUrls(srcs) == AbsoluteUrls(PresentTexts(srcs))
  {
    if srcs != [] {
      var front, last := srcs[..|srcs| - 1], srcs[|srcs| - 1];
      assert srcs == front + [last];
      GalleryUrlsPresent(front);
      PresentTextsSnoc(front, last);
    }
  }

  /** One URL per non-empty source, in order; every URL starts with
      `http` and ends with its source, and a source that already starts
      with `http` is kept as it is. */
  lemma ImageUrlsFacts(gallery: Option<seq<Option<string>>>)
    ensures gallery.None? ==> ImageUrls(gallery) == []
    ensures gallery.Some? ==>
      var present := PresentTexts(gallery.value);
      var urls := ImageUrls(gallery);
      && |urls| == |present|
      && forall k :: 0 <= k < |urls| ==>
           && StartsWith(urls[k], "http")
           && |present[k]| <= |urls[k]| && urls[k][|urls[k]| - |present[k]|..] == present[k]
           && (StartsWith(present[k], "http") ==> urls[k] == present[k])
  {
    if gallery.Some? {
      GalleryUrlsPresent(gallery.value);
      var present := PresentTexts(gallery.value);
      var urls := ImageUrls(gallery);
      forall k | 0 <= k < |urls|
        ensures StartsWith(urls[k], "http")
        ensures |present[k]| <= |urls[k]| && urls[k][|urls[k]| - |present[k]|..] == present[k]
      {
        if !StartsWith(present[k], "http") {
          assert urls[k] == SiteRoot + present[k];
          assert urls[k][..4] == SiteRoot[..4] == "http";
        }
      }
    }
  }

  /** `"https://www.diamir.su" + src if not src.startswith("http") else src` */
  method Absolutise(src: string) returns (url: string)
    ensures url == AbsoluteUrl(src)
  {
    url := if StartsWith(src, "http") then src else SiteRoot + src;
  }

  /** The loop over the gallery's `img` tags. */
  method CollectImageUrls(gallery: Option<seq<Option<string>>>) returns (urls: seq<string>)
    ensures urls == ImageUrls(gallery)
  {
    urls := [];
    if gallery.None? {
      return;
    }
    var srcs := gallery.value;
    for i := 0 to |srcs|
      invariant urls == GalleryUrls(srcs[..i])
    {
      assert srcs[..i + 1][..i] == srcs[..i];
      var src := srcs[i];
      if src.Some? && src.value != [] {
        var url := Absolutise(src.value);
        urls := urls + [url];
      }
    }
    assert srcs[..|srcs|] == srcs;
  }
}
