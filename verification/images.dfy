/** `getImageUrl`, defined identically in the cart page and the product
    card except for the placeholder size. */
module Images {
  import opened Wrappers
  import opened Text

  /** Origin of the backend serving uploaded files. */
  const BackendOrigin: string := "http://localhost:8000"

  const CartPlaceholder: string := "/api/placeholder/80/80"
  const CardPlaceholder: string := "/api/placeholder/300/300"

  /** A missing or empty path gives the placeholder, an absolute URL is
      kept, and a server path is prefixed with the backend origin. */
  function ImageUrl(path: Option<string>, placeholder: string): (r: string)
    ensures path.None? || path.value == "" ==> r == placeholder
    ensures path.Some? && path.value != "" && StartsWith(path.value, "http") ==> r == path.value
    ensures path.Some? && path.value != "" && !StartsWith(path.value, "http") ==>
      StartsWith(r, BackendOrigin) && r[|BackendOrigin|..] == path.value
  {
    if path.None? || path.value == "" then placeholder
    else if StartsWith(path.value, "http") then path.value
    else BackendOrigin + path.value
  }

  /** The cart page's variant (80x80 placeholder). */
  function CartImageUrl(path: Option<string>): (r: string)
    ensures path.None? || path.value == "" ==> r == CartPlaceholder
    ensures path.Some? && path.value != "" ==> r == ImageUrl(path, CardPlaceholder)
  {
    ImageUrl(path, CartPlaceholder)
  }

  /** The product card's variant (300x300 placeholder). */
  function CardImageUrl(path: Option<string>): (r: string)
    ensures path.None? || path.value == "" ==> r == CardPlaceholder
    ensures path.Some? && path.value != "" ==> r == CartImageUrl(path)
  {
    ImageUrl(path, CardPlaceholder)
  }

  /** Resolving a resolved, non-empty path again changes nothing: the
      result is always an `http` URL. */
  lemma ResolveIdempotent(path: string, placeholder: string)
    requires path != ""
    ensures ImageUrl(Some(ImageUrl(Some(path), placeholder)), placeholder) == ImageUrl(Some(path), placeholder)
  {
    var r := ImageUrl(Some(path), placeholder);
    if !StartsWith(path, "http") {
      assert r[..4] == BackendOrigin[..4];
    }
  }
}
