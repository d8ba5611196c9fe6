/**
 * The variant catalog of the product spotlight and the pure look-ups the
 * widget performs on it (assets/product-spotlight.js, "UTILITIES").
 */
module Variants {
  import opened Options
  import opened Sequences

  /**
   * One purchasable color/size combination, as embedded in the page.
   * Prices are whole minor units (cents); the `*Money` fields are the
   * storefront's pre-formatted texts and are only ever displayed.
   */
  datatype Variant = Variant(
    color: string,
    size: string,
    available: bool,
    qty: int,
    price: int,
    compareAtPrice: int,
    priceMoney: string,
    compareAtPriceMoney: string,
    imageUrl: string,
    thumbUrl: string,
    id: nat)

  /** The characters `String.prototype.trim` removes: ECMAScript WhiteSpace and LineTerminator. */
  predicate IsWhitespace(c: char) {
    c == '\t' || c == '\n' || c == '\U{000B}' || c == '\U{000C}' || c == '\r' || c == ' '
    || c == '\U{00A0}' || c == '\U{1680}' || ('\U{2000}' <= c <= '\U{200A}')
    || c == '\U{2028}' || c == '\U{2029}' || c == '\U{202F}' || c == '\U{205F}'
    || c == '\U{3000}' || c == '\U{FEFF}'
  }

  /** `s.trimStart()`: drops the leading whitespace. */
  function TrimStart(s: string): (r: string)
    ensures |r| <= |s| && r == s[|s| - |r|..]
    ensures r == [] || !IsWhitespace(r[0])
    ensures forall i :: 0 <= i < |s| - |r| ==> IsWhitespace(s[i])
  {
    if s != [] && IsWhitespace(s[0]) then
      var r := TrimStart(s[1..]);
      assert forall i :: 1 <= i < |s| ==> s[i] == s[1..][i - 1];
      r
    else s
  }

  /** `s.trimEnd()`: drops the trailing whitespace. */
  function TrimEnd(s: string): (r: string)
    ensures |r| <= |s| && r == s[..|r|]
    ensures r == [] || !IsWhitespace(r[|r| - 1])
    ensures forall i :: |r| <= i < |s| ==> IsWhitespace(s[i])
  {
    if s != [] && IsWhitespace(s[|s| - 1]) then
      var r := TrimEnd(s[..|s| - 1]);
      assert forall i :: 0 <= i < |s| - 1 ==> s[i] == s[..|s| - 1][i];
      r
    else s
  }

  /** `s.trim()`: empty exactly when every character of `s` is whitespace. */
  function Trim(s: string): (r: string)
    ensures r == [] <==> forall i :: 0 <= i < |s| ==> IsWhitespace(s[i])
  {
    TrimBlank(s);
    TrimEnd(TrimStart(s))
  }

  lemma TrimBlank(s: string)
    ensures TrimEnd(TrimStart(s)) == [] <==> forall i :: 0 <= i < |s| ==> IsWhitespace(s[i])
  {
    var t := TrimStart(s);
    if TrimEnd(t) != [] {
      assert TrimEnd(t)[0] == t[0] == s[|s| - |t|];
    }
  }

  /** Some character is not whitespace. */
  predicate NonBlank(s: string) {
    exists i :: 0 <= i < |s| && !IsWhitespace(s[i])
  }

  /** NonBlank is the image test `v.imageUrl && v.imageUrl.trim() !== ''`. */
  lemma NonBlankIsTrimTest(s: string)
    ensures NonBlank(s) <==> s != "" && Trim(s) != ""
  {
  }

  /** The variants of `color` that carry an image, in catalog order (the first filter of getColorVariants). */
  function WithImage(catalog: seq<Variant>, color: string): (r: seq<Variant>)
    ensures forall i :: 0 <= i < |r| ==> r[i].color == color && NonBlank(r[i].imageUrl)
    ensures forall v :: v in catalog && v.color == color && NonBlank(v.imageUrl) ==> v in r
    ensures Subseq(r, catalog)
  {
    if catalog == [] then []
    else if catalog[0].color == color && NonBlank(catalog[0].imageUrl)
    then [catalog[0]] + WithImage(catalog[1..], color)
    else WithImage(catalog[1..], color)
  }

  function ImageOf(v: Variant): string {
    v.imageUrl
  }

  /** getColorVariants: the thumbnails of `color`, one per distinct image URL. */
  function ColorVariants(catalog: seq<Variant>, color: string): (r: seq<Variant>)
    ensures forall i :: 0 <= i < |r| ==> r[i].color == color && NonBlank(r[i].imageUrl)
    ensures forall i, j :: 0 <= i < j < |r| ==> r[i].imageUrl != r[j].imageUrl
  {
    DedupBy(WithImage(catalog, color), ImageOf, {})
  }

  /** getColorVariantsAll: every variant of `color`, in catalog order. */
  function ColorVariantsAll(catalog: seq<Variant>, color: string): (r: seq<Variant>)
    ensures forall i :: 0 <= i < |r| ==> r[i].color == color
    ensures forall v :: v in catalog && v.color == color ==> v in r
    ensures Subseq(r, catalog)
  {
    if catalog == [] then []
    else if catalog[0].color == color then [catalog[0]] + ColorVariantsAll(catalog[1..], color)
    else ColorVariantsAll(catalog[1..], color)
  }

  /** ColorVariantsAll keeps each variant of the color as often as the catalog holds it, and no other. */
  lemma {:induction false} ColorVariantsAllExact(catalog: seq<Variant>, color: string)
    ensures forall v :: multiset(ColorVariantsAll(catalog, color))[v]
                        == (if v.color == color then multiset(catalog)[v] else 0)
  {
    if catalog != [] {
      assert catalog == [catalog[0]] + catalog[1..];
      ColorVariantsAllExact(catalog[1..], color);
    }
  }

  /** WithImage keeps each imaged variant of the color as often as the catalog holds it, and no other. */
  lemma {:induction false} WithImageExact(catalog: seq<Variant>, color: string)
    ensures forall v :: multiset(WithImage(catalog, color))[v]
                        == (if v.color == color && NonBlank(v.imageUrl) then multiset(catalog)[v] else 0)
  {
    if catalog != [] {
      assert catalog == [catalog[0]] + catalog[1..];
      WithImageExact(catalog[1..], color);
    }
  }

  /** `variants.map(v => v.size)` */
  function SizesOf(variants: seq<Variant>): (r: seq<string>)
    ensures |r| == |variants|
    ensures forall i :: 0 <= i < |r| ==> r[i] == variants[i].size
  {
    if variants == [] then [] else [variants[0].size] + SizesOf(variants[1..])
  }

  function Itself(s: string): string {
    s
  }

  /** getUniqueSizes: `[...new Set(variants.map(v => v.size))]`. */
  function UniqueSizes(variants: seq<Variant>): (r: seq<string>)
    ensures forall i :: 0 <= i < |r| ==> exists v :: v in variants && v.size == r[i]
    ensures forall i, j :: 0 <= i < j < |r| ==> r[i] != r[j]
  {
    var r := DedupBy(SizesOf(variants), Itself, {});
    assert forall i :: 0 <= i < |r| ==> Itself(r[i]) == r[i];
    r
  }

  /** `v.color === color && v.size === size`; a `null` size matches no variant. */
  predicate IsVariantFor(v: Variant, color: string, size: Option<string>) {
    v.color == color && size == Some(v.size)
  }

  /** findVariant: the first catalog variant with this color and size. */
  function FindVariant(catalog: seq<Variant>, color: string, size: Option<string>): (r: Option<Variant>)
    ensures r.None? <==> forall v :: v in catalog ==> !IsVariantFor(v, color, size)
    ensures r.Some? ==> exists i :: (0 <= i < |catalog| && catalog[i] == r.value
      && IsVariantFor(r.value, color, size)
      && forall j :: 0 <= j < i ==> !IsVariantFor(catalog[j], color, size))
  {
    if catalog == [] then None
    else if IsVariantFor(catalog[0], color, size) then Some(catalog[0])
    else
      var r := FindVariant(catalog[1..], color, size);
      assert forall j :: 1 <= j < |catalog| ==> catalog[j] == catalog[1..][j - 1];
      r
  }

  /** findVariantBySize: the first of `variants` with this size. */
  function FindVariantBySize(variants: seq<Variant>, size: string): (r: Option<Variant>)
    ensures r.None? <==> forall v :: v in variants ==> v.size != size
    ensures r.Some? ==> exists i :: (0 <= i < |variants| && variants[i] == r.value
      && r.value.size == size
      && forall j :: 0 <= j < i ==> variants[j].size != size)
  {
    if variants == [] then None
    else if variants[0].size == size then Some(variants[0])
    else
      var r := FindVariantBySize(variants[1..], size);
      assert forall j :: 1 <= j < |variants| ==> variants[j] == variants[1..][j - 1];
      r
  }

  /** isVariantAvailable: the variant exists, is marked available and has stock. */
  predicate IsVariantAvailable(v: Option<Variant>) {
    v.Some? && v.value.available && v.value.qty > 0
  }

  // ---- Properties of the look-ups ----

  /** The thumbnails keep catalog order. */
  lemma ColorVariantsOrder(catalog: seq<Variant>, color: string)
    ensures Subseq(ColorVariants(catalog, color), catalog)
  {
    var filtered := WithImage(catalog, color);
    DedupBySubseq(filtered, ImageOf, {});
    SubseqTrans(ColorVariants(catalog, color), filtered, catalog);
  }

  /** Every image URL of the color appears among the thumbnails. */
  lemma ColorVariantsCover(catalog: seq<Variant>, color: string, v: Variant)
    requires v in catalog && v.color == color && NonBlank(v.imageUrl)
    ensures exists k :: 0 <= k < |ColorVariants(catalog, color)| && ColorVariants(catalog, color)[k].imageUrl == v.imageUrl
  {
    var filtered := WithImage(catalog, color);
    var r := DedupBy(filtered, ImageOf, {});
    DedupByCovers(filtered, ImageOf, {});
    assert v in filtered;
    var i :| 0 <= i < |filtered| && filtered[i] == v;
    assert ImageOf(filtered[i]) in KeySet(filtered, ImageOf);
    assert ImageOf(v) in KeySet(r, ImageOf);
    var k :| 0 <= k < |r| && ImageOf(r[k]) == ImageOf(v);
    assert r == ColorVariants(catalog, color);
  }

  /** There is one thumbnail per distinct image URL of the color. */
  lemma ColorVariantsCount(catalog: seq<Variant>, color: string)
    ensures |ColorVariants(catalog, color)| == |KeySet(WithImage(catalog, color), ImageOf)|
  {
    DedupByCount(WithImage(catalog, color), ImageOf, {});
  }

  /**
   * Each thumbnail is the first image-bearing variant of the color with its
   * image URL, and the thumbnails follow the order of those first occurrences.
   */
  lemma ColorVariantsFirstOccurrence(catalog: seq<Variant>, color: string)
    ensures var filtered := WithImage(catalog, color);
      forall v :: v in ColorVariants(catalog, color) ==>
        FirstIndex(filtered, ImageOf, v.imageUrl) < |filtered|
        && filtered[FirstIndex(filtered, ImageOf, v.imageUrl)] == v
    ensures var filtered := WithImage(catalog, color);
      var r := ColorVariants(catalog, color);
      forall i, j :: 0 <= i < j < |r| ==>
        FirstIndex(filtered, ImageOf, r[i].imageUrl) < FirstIndex(filtered, ImageOf, r[j].imageUrl)
  {
    var filtered := WithImage(catalog, color);
    DedupByFirst(filtered, ImageOf, {});
    DedupByOrder(filtered, ImageOf, {});
  }

  /** Every size of the input appears in getUniqueSizes. */
  lemma UniqueSizesCover(variants: seq<Variant>)
    ensures forall v :: v in variants ==> v.size in UniqueSizes(variants)
  {
    var sizes := SizesOf(variants);
    var r := UniqueSizes(variants);
    assert r == DedupBy(sizes, Itself, {});
    DedupByCovers(sizes, Itself, {});
    forall v | v in variants ensures v.size in r {
      var i :| 0 <= i < |variants| && variants[i] == v;
      assert Itself(sizes[i]) in KeySet(sizes, Itself);
      assert Itself(sizes[i]) in KeySet(r, Itself);
      var k :| 0 <= k < |r| && Itself(r[k]) == Itself(sizes[i]);
    }
  }

  /** getUniqueSizes lists the sizes in the order in which they first occur. */
  lemma UniqueSizesOrder(variants: seq<Variant>)
    ensures var sizes := SizesOf(variants);
      var r := UniqueSizes(variants);
      forall i, j :: 0 <= i < j < |r| ==>
        FirstIndex(sizes, Itself, r[i]) < FirstIndex(sizes, Itself, r[j])
  {
    DedupByOrder(SizesOf(variants), Itself, {});
  }

  /**
   * The size buttons look up `findVariantBySize` among the color's variants;
   * that is the catalog's first variant of that color and size.
   */
  lemma {:induction false} FindBySizeIsFindVariant(catalog: seq<Variant>, color: string, size: string)
    ensures FindVariantBySize(ColorVariantsAll(catalog, color), size) == FindVariant(catalog, color, Some(size))
  {
    if catalog != [] {
      FindBySizeIsFindVariant(catalog[1..], color, size);
    }
  }

  /** The first variant of a color is what findVariant returns for its own color and size. */
  lemma {:induction false} FirstOfColorIsFound(catalog: seq<Variant>, color: string)
    requires ColorVariantsAll(catalog, color) != []
    ensures FindVariant(catalog, color, Some(ColorVariantsAll(catalog, color)[0].size))
      == Some(ColorVariantsAll(catalog, color)[0])
  {
    if catalog[0].color != color {
      FirstOfColorIsFound(catalog[1..], color);
    }
  }

  /** findVariant(color, null) finds nothing. */
  lemma {:induction false} FindVariantNullSize(catalog: seq<Variant>, color: string)
    ensures FindVariant(catalog, color, None) == None
  {
    if catalog != [] {
      FindVariantNullSize(catalog[1..], color);
    }
  }

  /**
   * A size button looks only at the FIRST variant of its color and size: a
   * later in-stock duplicate of the same pair does not enable it.
   */
  lemma FirstVariantDecidesSizeButton()
    ensures var soldOut := Variant("Red", "M", false, 0, 100, 100, "$1.00", "$1.00", "a.jpg", "a-t.jpg", 1);
      var inStock := Variant("Red", "M", true, 5, 100, 100, "$1.00", "$1.00", "a.jpg", "a-t.jpg", 2);
      var catalog := [soldOut, inStock];
      IsVariantAvailable(Some(inStock)) && inStock in catalog
      && !IsVariantAvailable(FindVariantBySize(ColorVariantsAll(catalog, "Red"), "M"))
  {
    var soldOut := Variant("Red", "M", false, 0, 100, 100, "$1.00", "$1.00", "a.jpg", "a-t.jpg", 1);
    var inStock := Variant("Red", "M", true, 5, 100, 100, "$1.00", "$1.00", "a.jpg", "a-t.jpg", 2);
    assert ColorVariantsAll([soldOut, inStock], "Red") == [soldOut, inStock];
  }
}
