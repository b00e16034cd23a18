/**
 * `build_product_url`: turns what the user typed into a product page address.
 * The input is stripped; an address already under the shop's product path is
 * kept as typed, a bare SKU (two or three letters and three to five digits) is
 * lower-cased and put under that path, and anything else is refused.
 */
module ProductUrl {
  import opened Wrappers
  import opened Text

  const ProductPrefix := "https://alamodeonline.com/products/"

  predicate IsAsciiLetter(c: char) { IsUpper(c) || IsLower(c) }

  predicate IsAsciiDigit(c: char) { '0' <= c <= '9' }

  /** `s` is `n` ASCII letters followed by three to five ASCII digits. */
  predicate SkuSplit(s: string, n: nat) {
    n <= |s| && 3 <= |s| - n <= 5
    && (forall i | 0 <= i < n :: IsAsciiLetter(s[i]))
    && (forall i | n <= i < |s| :: IsAsciiDigit(s[i]))
  }

  /** The whole-string pattern `[A-Za-z]{2,3}[0-9]{3,5}`. */
  predicate IsSku(s: string) {
    SkuSplit(s, 2) || SkuSplit(s, 3)
  }

  /**
   * A SKU has five to eight characters: two letters, then a letter or a digit,
   * and at least its last three are digits. The split between letters and
   * digits is unique, and a SKU has no surrounding whitespace.
   */
  lemma SkuShape(s: string)
    requires IsSku(s)
    ensures 5 <= |s| <= 8
    ensures IsAsciiLetter(s[0]) && IsAsciiLetter(s[1])
    ensures forall i | |s| - 3 <= i < |s| :: IsAsciiDigit(s[i])
    ensures !(SkuSplit(s, 2) && SkuSplit(s, 3))
    ensures Trimmed(s)
  {
    assert IsAsciiDigit(s[|s| - 1]);
    if SkuSplit(s, 2) {
      assert IsAsciiDigit(s[2]);
    }
  }

  function BuildProductUrl(input: string): (r: Option<string>)
    ensures r.None? <==> !IsPrefix(ProductPrefix, Lower(Strip(input))) && !IsSku(Strip(input))
    ensures IsPrefix(ProductPrefix, Lower(Strip(input))) ==> r == Some(Strip(input))
    ensures !IsPrefix(ProductPrefix, Lower(Strip(input))) && IsSku(Strip(input)) ==>
              r == Some(ProductPrefix + Lower(Strip(input)))
  {
    var s := Strip(input);
    if IsPrefix(ProductPrefix, Lower(s)) then Some(s)
    else if IsSku(s) then Some(ProductPrefix + Lower(s))
    else None
  }

  lemma ProductPrefixIsLower()
    ensures NoCapitals(ProductPrefix) && Lower(ProductPrefix) == ProductPrefix
  {
  }

  /** Lower-casing a SKU gives a SKU in small letters, still ending in a digit. */
  lemma LowerSku(s: string)
    requires IsSku(s)
    ensures IsSku(Lower(s)) && NoCapitals(Lower(s)) && IsAsciiDigit(Lower(s)[|s| - 1])
  {
    var n := if SkuSplit(s, 2) then 2 else 3;
    assert SkuSplit(Lower(s), n);
  }

  /** The address built from a SKU: the product path, then the SKU in small letters. */
  lemma SkuUrl(s: string)
    requires IsSku(s)
    ensures var u := ProductPrefix + Lower(s);
            IsPrefix(ProductPrefix, Lower(u)) && u != [] && Trimmed(u)
            && u[|ProductPrefix|..] == Lower(s)
  {
    var u := ProductPrefix + Lower(s);
    LowerSku(s);
    ProductPrefixIsLower();
    LowerConcat(ProductPrefix, Lower(s));
    LowerOfNoCapitals(Lower(s));
    assert Lower(u) == u;
    assert u[|ProductPrefix|..] == Lower(s);
    assert u[|u| - 1] == Lower(s)[|s| - 1];
  }

  /**
   * Every address the function gives back is under the product path (ignoring
   * case) and has no surrounding whitespace; in the SKU case what follows the
   * path is the SKU in small letters.
   */
  lemma BuildProductUrlResult(input: string)
    ensures BuildProductUrl(input).Some? ==>
              var u := BuildProductUrl(input).value;
              IsPrefix(ProductPrefix, Lower(u)) && u != [] && Trimmed(u)
    ensures BuildProductUrl(input).Some? && !IsPrefix(ProductPrefix, Lower(Strip(input))) ==>
              var u := BuildProductUrl(input).value;
              IsSku(u[|ProductPrefix|..]) && NoCapitals(u[|ProductPrefix|..])
  {
    var s := Strip(input);
    if !IsPrefix(ProductPrefix, Lower(s)) && IsSku(s) {
      SkuUrl(s);
      LowerSku(s);
    } else if IsPrefix(ProductPrefix, Lower(s)) {
      assert |s| >= |ProductPrefix|;
    }
  }

  /** Feeding a result back in returns it unchanged, through the first branch. */
  lemma BuildProductUrlIdempotent(input: string)
    requires BuildProductUrl(input).Some?
    ensures var u := BuildProductUrl(input).value;
            Strip(u) == u && IsPrefix(ProductPrefix, Lower(u)) && BuildProductUrl(u) == Some(u)
  {
    BuildProductUrlResult(input);
    StripTrimmed(BuildProductUrl(input).value);
  }
}
