/**
 * app/utils/product_utils.py: the barcode a catalog product gets from its
 * name, and the two lookups by id that the handlers share.
 *
 * SHA-256 (FIPS 180-4, section 6.2) is not computed here: the hash is a
 * parameter `sha` that maps the normalised name (its UTF-8 encoding) to a
 * 64-character lower-case hexadecimal digest, as `hexdigest()` returns it.
 */
module ProductUtils {
  import opened Wrappers
  import opened Text
  import opened Entities
  import opened Store

  predicate IsLowerHex(s: string) {
    forall i :: 0 <= i < |s| ==> ('0' <= s[i] <= '9') || ('a' <= s[i] <= 'f')
  }

  /** What `hashlib.sha256(...).hexdigest()` returns. */
  type Digest = s: string | |s| == 64 && IsLowerHex(s)
    witness Zeros(64)

  function Zeros(n: nat): (r: string)
    ensures |r| == n && IsLowerHex(r)
  {
    if n == 0 then "" else "0" + Zeros(n - 1)
  }

  /** `product_name.strip().lower()` */
  function Normalize(name: string): string {
    Lower(Strip(name))
  }

  /** `generate_product_barcode`: `<first 3 chars>-<first 8 hex digits of the hash>-20`. */
  function Barcode(name: string, sha: string -> Digest): (r: string)
    ensures 12 <= |r| <= 15
  {
    var normalized := Normalize(name);
    Take(normalized, 3) + "-" + sha(normalized)[..8] + "-20"
  }

  /** Reads a barcode back into its prefix and hash part. */
  function ParseBarcode(code: string): (r: Option<(string, string)>)
    ensures r.Some? ==> |r.value.0| <= 3 && |r.value.1| == 8
  {
    var n := |code|;
    if 12 <= n <= 15 && code[n - 3..] == "-20" && code[n - 12] == '-' then
      Some((code[..n - 12], code[n - 11..n - 3]))
    else
      None
  }

  /**
   * The barcode is made of the first min(3, len) characters of the
   * normalised name and the first 8 hex digits of its hash, and can be read
   * back into them.
   */
  lemma BarcodeParts(name: string, sha: string -> Digest)
    ensures ParseBarcode(Barcode(name, sha)) ==
      Some((Take(Normalize(name), 3), sha(Normalize(name))[..8]))
    ensures IsLowerHex(ParseBarcode(Barcode(name, sha)).value.1)
  {
    var normalized := Normalize(name);
    var prefix := Take(normalized, 3);
    var code := Barcode(name, sha);
    var n := |code|;
    assert code == prefix + "-" + sha(normalized)[..8] + "-20";
    assert code[n - 3..] == "-20";
    assert code[n - 12] == '-';
    assert code[..n - 12] == prefix;
    assert code[n - 11..n - 3] == sha(normalized)[..8];
  }

  /** The warehouse's fallback to "N/A" for an empty barcode never applies. */
  lemma BarcodeNeverEmpty(name: string, sha: string -> Digest)
    ensures Barcode(name, sha) != ""
  {
  }

  /** Names that differ only in letter case get the same barcode. */
  lemma BarcodeIgnoresCase(a: string, b: string, sha: string -> Digest)
    requires Lower(a) == Lower(b)
    ensures Barcode(a, sha) == Barcode(b, sha)
  {
    LowerStrip(a);
    LowerStrip(b);
  }

  /** Whitespace around a name does not change its barcode. */
  lemma BarcodeIgnoresPadding(pre: string, name: string, post: string, sha: string -> Digest)
    requires AllSpace(pre) && AllSpace(post)
    ensures Barcode(pre + name + post, sha) == Barcode(name, sha)
  {
    StripPadding(pre, name, post);
  }

  /** `check_existing_product`: the first catalog product with this id. */
  function FindProduct(products: seq<CatalogProduct>, id: Id): (r: Option<nat>)
    ensures r.Some? ==> r.value < |products| && products[r.value].id == id
    ensures r.Some? ==> forall i :: 0 <= i < r.value ==> products[i].id != id
    ensures r.None? <==> forall i :: 0 <= i < |products| ==> products[i].id != id
  {
    FirstIndex(products, (p: CatalogProduct) => p.id == id)
  }

  /** `check_user_product_exists`: the first inventory row of this user for this product. */
  function FindUserProduct(rows: seq<InventoryRow>, user: Option<Id>, productId: Id): (r: Option<nat>)
    ensures r.Some? ==>
      r.value < |rows| && Some(rows[r.value].userId) == user && rows[r.value].productId == productId
    ensures r.Some? ==> forall i :: 0 <= i < r.value ==> Some(rows[i].userId) != user || rows[i].productId != productId
    ensures r.None? <==> forall i :: 0 <= i < |rows| ==> Some(rows[i].userId) != user || rows[i].productId != productId
  {
    if rows == [] then None
    else if Some(rows[0].userId) == user && rows[0].productId == productId then Some(0)
    else match FindUserProduct(rows[1..], user, productId)
      case None => None
      case Some(k) => Some(k + 1)
  }
}
