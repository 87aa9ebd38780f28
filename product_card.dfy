/** Product.js: the URLs of the two pictures a product card shows, and the
    price it prints. */
module ProductCard {
  import opened Common

  /** The `images` prop: an array whose entries may be null, or anything
      else. */
  datatype Images = ImageArray(items: seq<Option<string>>) | NotAnArray

  const Placeholder: string := "/placeholder.jpg"

  /** `s.replace(/\/+$/, "")`: the longest prefix not ending in "/" whose
      remainder is all "/". */
  function TrimTrailingSlashes(s: string): (r: string)
    ensures |r| <= |s| && r == s[..|r|]
    ensures r == [] || r[|r| - 1] != '/'
    ensures forall i :: |r| <= i < |s| ==> s[i] == '/'
  {
    if s != [] && s[|s| - 1] == '/' then TrimTrailingSlashes(s[..|s| - 1]) else s
  }

  /** `s.replace(/^\/+/, "")`: the longest suffix not starting with "/"
      whose removed part is all "/". */
  function TrimLeadingSlashes(s: string): (r: string)
    ensures |r| <= |s| && r == s[|s| - |r|..]
    ensures r == [] || r[0] != '/'
    ensures forall i :: 0 <= i < |s| - |r| ==> s[i] == '/'
  {
    if s != [] && s[0] == '/' then TrimLeadingSlashes(s[1..]) else s
  }

  /** `buildImageUrl(path)` with `REACT_APP_API_URL` as `base`; a missing
      base or path counts as "". */
  function BuildImageUrl(base: Option<string>, path: Option<string>): (r: string)
    ensures var b, p := TrimTrailingSlashes(base.GetOr("")), TrimLeadingSlashes(path.GetOr(""));
      && r == b + "/" + p
      && (b == [] || b[|b| - 1] != '/')
      && (p == [] || p[0] != '/')
  {
    TrimTrailingSlashes(base.GetOr("")) + "/" + TrimLeadingSlashes(path.GetOr(""))
  }

  /** Exactly one "/" joins the parts: every slash at the end of the base
      and at the start of the path is dropped, nothing else is. */
  lemma BuildImageUrlJoin(base: string, path: string)
    requires base == [] || base[|base| - 1] != '/'
    requires path == [] || path[0] != '/'
    ensures BuildImageUrl(Some(base), Some(path)) == base + "/" + path
    ensures BuildImageUrl(Some(base + "///"), Some("//" + path)) == base + "/" + path
  {
    var b := TrimTrailingSlashes(base + "///");
    assert b == base by {
      assert (base + "///")[..|base| + 2] == base + "//";
      assert (base + "//")[..|base| + 1] == base + "/";
      assert (base + "/")[..|base|] == base;
    }
    var p := TrimLeadingSlashes("//" + path);
    assert p == path by {
      assert ("//" + path)[1..] == "/" + path;
      assert ("/" + path)[1..] == path;
    }
  }

  /** A null path gives a URL ending in "/"; a missing base one starting
      with "/". */
  lemma BuildImageUrlDefaults(base: Option<string>, path: Option<string>)
    ensures path.None? ==> var r := BuildImageUrl(base, path); r[|r| - 1] == '/'
    ensures base.None? ==> BuildImageUrl(base, path)[0] == '/'
  {
    if path.None? {
      var b := TrimTrailingSlashes(base.GetOr(""));
      assert |TrimLeadingSlashes("")| == 0;
      assert BuildImageUrl(base, path) == b + "/";
    }
    if base.None? {
      var p := TrimLeadingSlashes(path.GetOr(""));
      assert |TrimTrailingSlashes("")| == 0;
      assert BuildImageUrl(base, path) == "/" + p;
    }
  }

  /** `validImages`: anything but an array counts as no images. */
  function ValidImages(images: Images): (r: seq<Option<string>>)
    ensures images.NotAnArray? ==> r == []
  {
    if images.ImageArray? then images.items else []
  }

  /** `firstImage`: the placeholder when there are no images. */
  function FirstImage(base: Option<string>, images: Images): (r: string)
    ensures ValidImages(images) == [] ==> r == Placeholder
    ensures ValidImages(images) != [] ==> r == BuildImageUrl(base, ValidImages(images)[0])
  {
    var valid := ValidImages(images);
    if |valid| > 0 then BuildImageUrl(base, valid[0]) else Placeholder
  }

  /** `secondImage`: null unless there are at least two images. */
  function SecondImage(base: Option<string>, images: Images): (r: Option<string>)
    ensures r.Some? <==> |ValidImages(images)| >= 2
    ensures r.Some? ==> r.value == BuildImageUrl(base, ValidImages(images)[1])
  {
    var valid := ValidImages(images);
    if |valid| > 1 then Some(BuildImageUrl(base, valid[1])) else None
  }

  /** With images present the first image is the placeholder only when the
      base is empty (or only slashes) and the first path is the
      placeholder's own name. */
  lemma FirstImagePlaceholder(base: Option<string>, images: Images)
    requires ValidImages(images) != []
    ensures FirstImage(base, images) == Placeholder <==>
      TrimTrailingSlashes(base.GetOr("")) == [] &&
      TrimLeadingSlashes(ValidImages(images)[0].GetOr("")) == "placeholder.jpg"
  {
    JoinIsPlaceholder(TrimTrailingSlashes(base.GetOr("")), TrimLeadingSlashes(ValidImages(images)[0].GetOr("")));
  }

  /** The placeholder has its only "/" in front. */
  lemma JoinIsPlaceholder(b: string, p: string)
    ensures b + "/" + p == Placeholder <==> b == [] && p == "placeholder.jpg"
  {
    var u := b + "/" + p;
    if u == Placeholder {
      assert u[|b|] == '/';
      assert forall k :: 0 < k < |Placeholder| ==> Placeholder[k] != '/';
      assert |b| == 0;
      assert p == u[1..];
    }
  }

  /** The picture shown: the second image while hovered once it has
      loaded, else the first. It is never null. */
  function ShownImage(hovered: bool, secondLoaded: bool, base: Option<string>, images: Images): (r: string)
    ensures |ValidImages(images)| < 2 || !hovered || !secondLoaded ==> r == FirstImage(base, images)
    ensures |ValidImages(images)| >= 2 && hovered && secondLoaded ==> r == SecondImage(base, images).value
  {
    var second := SecondImage(base, images);
    if hovered && |ValidImages(images)| > 1 && secondLoaded then second.value else FirstImage(base, images)
  }

  /** `Math.ceil(price)` */
  function RoundedPrice(price: real): (r: int)
    ensures r as real - 1.0 < price <= r as real
  {
    -((-price).Floor)
  }
}
