/** database.py: the transliterating slug generator and the bulk load of
    the XML feed into the catalog tables. */
module Database {
  import opened Common
  import opened SlugSuffix
  import opened Store

  // ---------------------------------------------------------------------
  // generate_slug: the base slug

  /** The separators of `re.split(r'[\s\-]+', ...)`. */
  predicate IsBreak(c: char) { IsSpace(c) || c == '-' }

  predicate NoBreak(s: string) { forall i :: 0 <= i < |s| ==> !IsBreak(s[i]) }

  function DropBreaks(s: string): (r: string)
    ensures |r| <= |s|
    ensures r == [] || !IsBreak(r[0])
    ensures s != [] && IsBreak(s[0]) ==> |r| < |s|
  {
    if s != [] && IsBreak(s[0]) then DropBreaks(s[1..]) else s
  }

  function SplitFrom(s: string, word: string): (parts: seq<string>)
    requires NoBreak(word)
    ensures |parts| >= 1
    ensures forall k :: 0 <= k < |parts| ==> NoBreak(parts[k])
    decreases |s|
  {
    if s == [] then [word]
    else if IsBreak(s[0]) then [word] + SplitFrom(DropBreaks(s), "")
    else SplitFrom(s[1..], word + [s[0]])
  }

  /** Python's `re.split(r'[\s\-]+', s)`: the pieces between maximal runs of
      whitespace and hyphens, with an empty piece before a leading run and
      after a trailing one. */
  function SplitWords(s: string): (parts: seq<string>)
    ensures |parts| >= 1
    ensures forall k :: 0 <= k < |parts| ==> NoBreak(parts[k])
  {
    SplitFrom(s, "")
  }

  /** `eurolux` becomes `eurolux-ll` once per piece, unless the piece
      already says `eurolux-ll`. */
  function PatchEurolux(part: string): string {
    if Contains(part, "eurolux") && !Contains(part, "eurolux-ll") then
      ReplaceFirst(part, "eurolux", "eurolux-ll")
    else part
  }

  predicate IsSlugChar(c: char) { IsAsciiLetter(c) || IsAsciiDigit(c) || c == '-' }

  /** `re.sub(r'[^a-zA-Z0-9\-]', '', part)` */
  function KeepSlugChars(s: string): (r: string)
    ensures forall i :: 0 <= i < |r| ==> IsSlugChar(r[i]) && r[i] in s
  {
    if s == [] then []
    else (if IsSlugChar(s[0]) then [s[0]] else []) + KeepSlugChars(s[1..])
  }

  function NonEmpty(parts: seq<string>): (r: seq<string>)
    ensures forall k :: 0 <= k < |r| ==> r[k] != [] && r[k] in parts
  {
    if parts == [] then []
    else (if parts[0] != [] then [parts[0]] else []) + NonEmpty(parts[1..])
  }

  /** `product-<id>` when the id is present and non-zero, else `product`. */
  function Fallback(idSuffix: Option<int>): string {
    if idSuffix.Some? && idSuffix.value != 0 then "product-" + IntToString(idSuffix.value)
    else "product"
  }

  /** The pieces that survive the clean-up, in order. */
  function SlugParts(name: string, translit: string -> string): seq<string> {
    var parts := SplitWords(translit(Lower(name)));
    NonEmpty(seq(|parts|, i requires 0 <= i < |parts| => KeepSlugChars(PatchEurolux(parts[i]))))
  }

  /** Lines 15-40: lower-case, transliterate (the `transliterate` library is
      the parameter `translit`), split, patch, strip, drop empties, fall back,
      join with "-". */
  function BaseSlug(name: string, translit: string -> string, idSuffix: Option<int>): string {
    var parts := SlugParts(name, translit);
    if parts == [] then Fallback(idSuffix) else JoinWith(parts, '-')
  }

  /** Non-empty, only `[a-zA-Z0-9-]`, no hyphen at either end. */
  predicate WellFormedSlug(s: string) {
    && s != []
    && (forall i :: 0 <= i < |s| ==> IsSlugChar(s[i]))
    && s[0] != '-'
    && s[|s| - 1] != '-'
  }

  lemma {:induction false} KeepSlugCharsAppend(a: string, b: string)
    ensures KeepSlugChars(a + b) == KeepSlugChars(a) + KeepSlugChars(b)
  {
    if a == [] {
      assert a + b == b;
    } else {
      assert (a + b)[1..] == a[1..] + b;
      KeepSlugCharsAppend(a[1..], b);
    }
  }

  lemma KeepSlugCharsNone(s: string)
    requires forall i :: 0 <= i < |s| ==> !IsSlugChar(s[i])
    ensures KeepSlugChars(s) == []
  {
  }

  /** The patched piece `a + "eurolux-ll" + b`, stripped, with the two
      outer parts free of hyphens. */
  lemma AroundPatchWellFormed(ka: string, kb: string)
    requires forall i :: 0 <= i < |ka| ==> IsSlugChar(ka[i]) && ka[i] != '-'
    requires forall i :: 0 <= i < |kb| ==> IsSlugChar(kb[i]) && kb[i] != '-'
    ensures WellFormedSlug(ka + "eurolux-ll" + kb)
  {
    var r := ka + "eurolux-ll" + kb;
    assert forall i :: 0 <= i < |r| ==> IsSlugChar(r[i]) by {
      forall i | 0 <= i < |r| ensures IsSlugChar(r[i]) {
        if i >= |ka| + 10 { assert r[i] == kb[i - |ka| - 10]; }
      }
    }
    if kb != [] { assert r[|r| - 1] == kb[|kb| - 1]; }
  }

  lemma {:induction false} KeepAllSlugChars(s: string)
    requires forall i :: 0 <= i < |s| ==> IsSlugChar(s[i])
    ensures KeepSlugChars(s) == s
  {
    if s != [] {
      KeepAllSlugChars(s[1..]);
      assert s == [s[0]] + s[1..];
    }
  }

  lemma KeepEurolux()
    ensures KeepSlugChars("eurolux-ll") == "eurolux-ll"
  {
    KeepAllSlugChars("eurolux-ll");
  }

  lemma KeepWithoutHyphen(s: string)
    requires '-' !in s
    ensures forall i :: 0 <= i < |KeepSlugChars(s)| ==> IsSlugChar(KeepSlugChars(s)[i]) && KeepSlugChars(s)[i] != '-'
  {
  }

  lemma PatchedPieceWellFormed(part: string)
    requires NoBreak(part)
    requires Contains(part, "eurolux") && !Contains(part, "eurolux-ll")
    ensures WellFormedSlug(KeepSlugChars(PatchEurolux(part)))
  {
    var k := IndexOf(part, "eurolux").value;
    var a, b := part[..k], part[k + 7..];
    assert PatchEurolux(part) == a + "eurolux-ll" + b;
    assert '-' !in a by {
      forall i | 0 <= i < |a| ensures a[i] != '-' { assert a[i] == part[i]; }
    }
    assert '-' !in b by {
      forall i | 0 <= i < |b| ensures b[i] != '-' { assert b[i] == part[k + 7 + i]; }
    }
    KeepSlugCharsAppend(a + "eurolux-ll", b);
    KeepSlugCharsAppend(a, "eurolux-ll");
    KeepEurolux();
    KeepWithoutHyphen(a);
    KeepWithoutHyphen(b);
    AroundPatchWellFormed(KeepSlugChars(a), KeepSlugChars(b));
  }

  /** A piece without separators, patched and stripped, is empty or a
      well-formed slug. */
  lemma CleanPieceWellFormed(part: string)
    requires NoBreak(part)
    ensures var r := KeepSlugChars(PatchEurolux(part)); r == [] || WellFormedSlug(r)
  {
    if Contains(part, "eurolux") && !Contains(part, "eurolux-ll") {
      PatchedPieceWellFormed(part);
    } else {
      assert PatchEurolux(part) == part;
      assert '-' !in part;
      KeepWithoutHyphen(part);
    }
  }

  lemma {:induction false} JoinWellFormed(parts: seq<string>)
    requires |parts| >= 1
    requires forall k :: 0 <= k < |parts| ==> WellFormedSlug(parts[k])
    ensures WellFormedSlug(JoinWith(parts, '-'))
  {
    if |parts| > 1 {
      JoinWellFormed(parts[1..]);
      var tail := JoinWith(parts[1..], '-');
      var j := parts[0] + ['-'] + tail;
      assert j[|j| - 1] == tail[|tail| - 1];
      assert forall i :: 0 <= i < |j| ==> IsSlugChar(j[i]) by {
        forall i | 0 <= i < |j| ensures IsSlugChar(j[i]) {
          if i > |parts[0]| { assert j[i] == tail[i - |parts[0]| - 1]; }
        }
      }
    }
  }

  lemma {:induction false} NonEmptyKeepsWellFormed(parts: seq<string>)
    requires forall k :: 0 <= k < |parts| ==> parts[k] == [] || WellFormedSlug(parts[k])
    ensures forall k :: 0 <= k < |NonEmpty(parts)| ==> WellFormedSlug(NonEmpty(parts)[k])
  {
  }

  /** Whatever the transliteration returns, the base slug is non-empty,
      holds only `[a-zA-Z0-9-]` and neither starts nor ends with `-`. */
  lemma BaseSlugWellFormed(name: string, translit: string -> string, idSuffix: Option<int>)
    ensures WellFormedSlug(BaseSlug(name, translit, idSuffix))
  {
    var words := SplitWords(translit(Lower(name)));
    var cleaned := seq(|words|, i requires 0 <= i < |words| => KeepSlugChars(PatchEurolux(words[i])));
    forall k | 0 <= k < |cleaned| ensures cleaned[k] == [] || WellFormedSlug(cleaned[k]) {
      CleanPieceWellFormed(words[k]);
    }
    NonEmptyKeepsWellFormed(cleaned);
    var parts := NonEmpty(cleaned);
    assert parts == SlugParts(name, translit);
    if parts != [] {
      JoinWellFormed(parts);
    } else {
      var f := Fallback(idSuffix);
      if idSuffix.Some? && idSuffix.value != 0 {
        var d := IntToString(idSuffix.value);
        assert f == "product-" + d;
        assert forall i :: 0 <= i < |f| ==> IsSlugChar(f[i]) by {
          forall i | 0 <= i < |f| ensures IsSlugChar(f[i]) {
            if i >= 8 { assert f[i] == d[i - 8]; }
          }
        }
      }
    }
  }

  /** A suffixed candidate of a well-formed base is well-formed. */
  lemma CandidateWellFormed(base: string, k: nat)
    requires WellFormedSlug(base)
    ensures WellFormedSlug(Candidate(base, k))
  {
    if k != 0 {
      var c := Candidate(base, k);
      var d := NatToString(k);
      assert c == base + "-" + d;
      assert forall i :: 0 <= i < |c| ==> IsSlugChar(c[i]) by {
        forall i | 0 <= i < |c| ensures IsSlugChar(c[i]) {
          if i > |base| { assert c[i] == d[i - |base| - 1]; }
        }
      }
    }
  }

  /** Every character of a piece comes from the input. */
  lemma {:induction false} SplitFromChars(s: string, word: string)
    requires NoBreak(word)
    ensures forall k, i :: 0 <= k < |SplitFrom(s, word)| && 0 <= i < |SplitFrom(s, word)[k]| ==>
      SplitFrom(s, word)[k][i] in word + s
    decreases |s|
  {
    if s == [] {
    } else if IsBreak(s[0]) {
      var d := DropBreaks(s);
      SplitFromChars(d, "");
      assert d == s[|s| - |d|..] by { DropBreaksSuffix(s); }
      forall c | c in d ensures c in word + s {
        var j :| 0 <= j < |d| && d[j] == c;
        assert (word + s)[|word| + |s| - |d| + j] == c;
      }
    } else {
      SplitFromChars(s[1..], word + [s[0]]);
      assert word + [s[0]] + s[1..] == word + s;
    }
  }

  lemma {:induction false} DropBreaksSuffix(s: string)
    ensures DropBreaks(s) == s[|s| - |DropBreaks(s)|..]
  {
    if s != [] && IsBreak(s[0]) {
      DropBreaksSuffix(s[1..]);
    }
  }

  lemma {:induction false} NonEmptyOfEmpties(parts: seq<string>)
    requires forall k :: 0 <= k < |parts| ==> parts[k] == []
    ensures NonEmpty(parts) == []
  {
    if parts != [] {
      NonEmptyOfEmpties(parts[1..]);
    }
  }

  /** A name whose transliteration holds no ASCII letter or digit keeps
      nothing, so the slug is the fallback `product-<id>` (or `product`). */
  lemma NoLatinFallsBack(name: string, translit: string -> string, idSuffix: Option<int>)
    requires forall i :: 0 <= i < |translit(Lower(name))| ==>
      !IsAsciiLetter(translit(Lower(name))[i]) && !IsAsciiDigit(translit(Lower(name))[i])
    ensures BaseSlug(name, translit, idSuffix) == Fallback(idSuffix)
  {
    var t := translit(Lower(name));
    var words := SplitWords(t);
    SplitFromChars(t, "");
    assert "" + t == t;
    var cleaned := seq(|words|, i requires 0 <= i < |words| => KeepSlugChars(PatchEurolux(words[i])));
    forall k | 0 <= k < |cleaned| ensures cleaned[k] == [] {
      var w := words[k];
      assert forall i :: 0 <= i < |w| ==> w[i] in t;
      assert 'e' !in w;
      assert PatchEurolux(w) == w by { NotContained(w, "eurolux"); }
      KeepSlugCharsNone(w);
    }
    NonEmptyOfEmpties(cleaned);
    assert SlugParts(name, translit) == NonEmpty(cleaned);
  }

  lemma NotContained(s: string, pat: string)
    requires pat != [] && pat[0] !in s
    ensures !Contains(s, pat)
  {
  }

  // ---------------------------------------------------------------------
  // generate_slug: uniqueness

  /** The caller-owned Python set of slugs already handed out. */
  class SlugSet {
    var members: set<string>

    constructor ()
      ensures members == {}
    {
      members := {};
    }
  }

  /** generate_slug(name, existing_slugs, id_suffix, cursor). The set, when
      given, is consulted and extended; otherwise the cursor's products
      table is consulted and left alone; with neither the base is kept. */
  method GenerateSlug(name: string, translit: string -> string, existing: SlugSet?,
                      idSuffix: Option<int>, db: Catalog?)
    returns (slug: Option<string>)
    modifies existing
    ensures name == [] ==> slug == None
    ensures name == [] && existing != null ==> existing.members == old(existing.members)
    ensures name != [] ==> slug.Some? && WellFormedSlug(slug.value)
    ensures name != [] && existing != null ==>
      && slug.value == FirstFree(BaseSlug(name, translit, idSuffix), old(existing.members))
      && slug.value !in old(existing.members)
      && existing.members == old(existing.members) + {slug.value}
    ensures name != [] && existing == null && db != null ==>
      && slug.value == FirstFree(BaseSlug(name, translit, idSuffix), ProductSlugs(db.products))
      && slug.value !in ProductSlugs(db.products)
    ensures name != [] && existing == null && db == null ==>
      slug.value == BaseSlug(name, translit, idSuffix)
  {
    if name == [] {
      return None;
    }
    var base := BaseSlug(name, translit, idSuffix);
    BaseSlugWellFormed(name, translit, idSuffix);
    var s := base;
    if existing != null {
      s := FindFreeSlug(base, existing.members);
      existing.members := existing.members + {s};
    } else if db != null {
      s := FindFreeSlug(base, ProductSlugs(db.products));
    }
    CandidateWellFormed(base, FreeIndex(base, if existing != null then old(existing.members) else if db != null then ProductSlugs(db.products) else {}, 0));
    slug := Some(s);
  }
}
