/** The admin product table: image selection checks, the payload sent on
    save, the active toggle, the search box and the low-stock marker. */
module AdminProducts {
  import opened Wrappers
  import opened Text
  import opened Seqs
  import opened Records
  import AdminApi

  /** A file picked in the form: its MIME type and size in bytes. */
  datatype ImageFile = ImageFile(mime: string, size: nat)

  const AllowedTypes: seq<string> := ["image/jpeg", "image/jpg", "image/png", "image/gif", "image/webp"]
  const MaxImageBytes: nat := 5 * 1024 * 1024
  const BadType: string := "Please select a valid image file (JPEG, PNG, GIF, WebP)"
  const TooLarge: string := "File size must be less than 5MB"

  /** The selected file and the error banner. */
  datatype Selection = Selection(file: Option<ImageFile>, error: Option<string>)

  /** `handleImageChange`: no file changes nothing; a wrong type is
      reported before the size is looked at; an oversized file is
      reported; only a passing file is selected. */
  function HandleImageChange(s: Selection, picked: Option<ImageFile>): (r: Selection)
    ensures picked.None? ==> r == s
    ensures picked.Some? && picked.value.mime !in AllowedTypes ==> r == s.(error := Some(BadType))
    ensures picked.Some? && picked.value.mime in AllowedTypes && picked.value.size > MaxImageBytes ==>
      r == s.(error := Some(TooLarge))
    ensures picked.Some? && picked.value.mime in AllowedTypes && picked.value.size <= MaxImageBytes ==>
      r == s.(file := picked)
  {
    match picked
    case None => s
    case Some(f) =>
      if f.mime !in AllowedTypes then s.(error := Some(BadType))
      else if f.size > MaxImageBytes then s.(error := Some(TooLarge))
      else s.(file := Some(f))
  }

  /** A file is selected iff its type is allowed and it is at most 5 MB;
      exactly 5 MB passes. */
  lemma SelectedIffValid(s: Selection, f: ImageFile)
    ensures HandleImageChange(s, Some(f)).file == Some(f) || HandleImageChange(s, Some(f)).file == s.file
    ensures s.file != Some(f) ==>
      (HandleImageChange(s, Some(f)).file == Some(f) <==> f.mime in AllowedTypes && f.size <= MaxImageBytes)
    ensures HandleImageChange(s, Some(ImageFile("image/png", 5 * 1024 * 1024))).file ==
      Some(ImageFile("image/png", 5 * 1024 * 1024))
  {
  }

  /** The form fields, with price and quantity already parsed. */
  datatype ProductForm = ProductForm(
    name: string, description: string, price: int, quantity: int, category: string, sku: string)

  /** The body of the save request. */
  datatype ProductPayload = ProductPayload(
    name: string, description: string, price: int, quantity: int,
    category: Option<string>, sku: Option<string>, image: Option<string>)

  /** `imageUrl`: the URL of the new upload when a file was chosen, else
      the product's current image when editing, else nothing; an empty
      URL is sent as null. */
  function ImageFor(uploaded: Option<string>, editing: Option<Product>): (r: Option<string>)
    ensures uploaded.Some? && uploaded.value != "" ==> r == uploaded
    ensures uploaded.None? && editing.Some? && editing.value.image.Some? && editing.value.image.value != "" ==>
      r == editing.value.image
    ensures uploaded.None? && (editing.None? || editing.value.image.None? || editing.value.image.value == "") ==>
      r.None?
    ensures r.Some? ==> r.value != ""
  {
    var url :=
      if uploaded.Some? then uploaded.value
      else if editing.Some? && editing.value.image.Some? && editing.value.image.value != "" then editing.value.image.value
      else "";
    OrNull(url)
  }

  /** `productData` */
  function Payload(form: ProductForm, uploaded: Option<string>, editing: Option<Product>): (r: ProductPayload)
    ensures r.category.None? <==> form.category == ""
    ensures r.sku.None? <==> form.sku == ""
    ensures r.category.Some? ==> r.category.value == form.category
    ensures r.sku.Some? ==> r.sku.value == form.sku
    ensures r.image == ImageFor(uploaded, editing)
    ensures (r.name, r.description, r.price, r.quantity) == (form.name, form.description, form.price, form.quantity)
  {
    ProductPayload(form.name, form.description, form.price, form.quantity,
                   OrNull(form.category), OrNull(form.sku), ImageFor(uploaded, editing))
  }

  /** The patch the backend receives for a saved payload: every field is
      sent, `is_active` is not. */
  function PayloadPatch(p: ProductPayload): AdminApi.ProductPatch {
    AdminApi.ProductPatch(Some(p.name), Some(p.description), Some(p.price), Some(p.quantity),
                          Some(p.image), Some(p.category), Some(p.sku), None)
  }

  /** Editing a product without choosing a new file keeps its image and
      its active flag. */
  lemma EditKeepsImage(products: map<int, Product>, id: int, form: ProductForm)
    requires id in products
    ensures var r := AdminApi.UpdateProduct(products, id, PayloadPatch(Payload(form, None, Some(products[id]))));
      r.Ok? && r.value[id].isActive == products[id].isActive &&
      (products[id].image.Some? && products[id].image.value != "" ==> r.value[id].image == products[id].image)
  {
  }

  /** `toggleProductStatus`: the product record with `is_active` flipped. */
  function Toggle(p: Product): (r: Product)
    ensures r.isActive == !p.isActive
    ensures r.(isActive := p.isActive) == p
  {
    p.(isActive := !p.isActive)
  }

  /** `{...product, is_active: !product.is_active}` as a patch. */
  function FullPatch(p: Product): AdminApi.ProductPatch {
    AdminApi.ProductPatch(Some(p.name), Some(p.description), Some(p.price), Some(p.quantity),
                          Some(p.image), Some(p.category), Some(p.sku), Some(p.isActive))
  }

  /** Toggling through the backend flips `is_active` and nothing else, and
      toggling twice restores the table. */
  lemma ToggleThroughBackend(products: map<int, Product>, id: int)
    requires id in products
    ensures var r := AdminApi.UpdateProduct(products, id, FullPatch(Toggle(products[id])));
      r == Ok(products[id := Toggle(products[id])])
    ensures var once := AdminApi.UpdateProduct(products, id, FullPatch(Toggle(products[id]))).value;
      AdminApi.UpdateProduct(once, id, FullPatch(Toggle(once[id]))) == Ok(products)
  {
    var once := products[id := Toggle(products[id])];
    assert once[id := Toggle(once[id])] == products;
  }

  /** The admin search box: name, or a non-empty category, or a non-empty
      SKU contains the term, ignoring case. */
  predicate AdminMatches(p: Product, term: string) {
    || ContainsIgnoreCase(p.name, term)
    || (p.category.Some? && p.category.value != "" && ContainsIgnoreCase(p.category.value, term))
    || (p.sku.Some? && p.sku.value != "" && ContainsIgnoreCase(p.sku.value, term))
  }

  /** `filteredProducts` of the admin table. */
  function AdminFilter(products: seq<Product>, term: string): (r: seq<Product>)
    ensures forall p :: p in r <==> p in products && AdminMatches(p, term)
    ensures |r| <= |products|
  {
    Filter(products, p => AdminMatches(p, term))
  }

  /** An empty term keeps every product; a product without category and
      SKU is found only by its name. */
  lemma AdminFilterLaws(products: seq<Product>, p: Product, term: string)
    ensures AdminFilter(products, "") == products
    ensures p.category.None? && p.sku.None? ==> (AdminMatches(p, term) <==> ContainsIgnoreCase(p.name, term))
  {
    forall i | 0 <= i < |products|
      ensures AdminMatches(products[i], "")
    {
      ContainsEmpty(LowerStr(products[i].name));
    }
    FilterAll(products, p => AdminMatches(p, ""));
  }

  /** The `(Low Stock)` marker in the quantity column. */
  function LowStockMarker(p: Product): (shown: bool)
    ensures shown <==> p.quantity < 10
  {
    IsLowStock(p.quantity)
  }

  /** The marker and the backend's `low_stock` list filter use the same
      threshold, and the marker ignores `is_active` as that filter does. */
  lemma MarkerMatchesBackendFilter(p: Product)
    ensures LowStockMarker(p) <==> AdminApi.ProductMatches(p, None, None, true)
    ensures LowStockMarker(p) == LowStockMarker(Toggle(p))
  {
  }
}
