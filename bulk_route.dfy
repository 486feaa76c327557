/** `app/api/products/bulk/route.ts`: a vendor adds many products in one request. */
module BulkRoute {
  import opened Wrappers
  import opened Store
  import opened Auth
  import opened ApiHelpers
  import opened Http

  /**
   * One parsed row of the request's `products` array. `categories` is `None` when that
   * field is not an array; `category` is a single fallback name.
   */
  datatype BulkRow = BulkRow(
    name: string, image: string,
    whatsappLink: Option<string>, instagramLink: Option<string>,
    categories: Option<seq<string>>, category: Option<string>)

  const DefaultCategory := "Uncategorized"
  const NotAnArray := "Products array is required"

  /** A row's categories: its array when it has one, else its non-empty `category`, else `Uncategorized`. */
  function RowCategories(row: BulkRow): (cats: seq<string>)
    ensures row.categories.Some? ==> cats == row.categories.value
    ensures row.categories.None? ==> |cats| == 1
    ensures row.categories.None? && row.category.Some? && row.category.value != "" ==> cats == [row.category.value]
    ensures row.categories.None? && (row.category.None? || row.category.value == "") ==> cats == [DefaultCategory]
  {
    if row.categories.Some? then row.categories.value
    else if row.category.Some? && row.category.value != "" then [row.category.value]
    else [DefaultCategory]
  }

  /** The store input built from a row: the vendor id always comes from the caller, never from the row. */
  function ToNewProduct(row: BulkRow, vendorId: string): (p: NewProduct)
    ensures p.vendorId == vendorId && p.categories == RowCategories(row)
    ensures p.name == row.name && p.image == row.image
    ensures p.whatsappLink == row.whatsappLink && p.instagramLink == row.instagramLink
  {
    NewProduct(vendorId, row.name, row.image, row.whatsappLink, row.instagramLink, RowCategories(row))
  }

  /**
   * POST: anyone but an authenticated vendor gets 403; a `products` field that is not a
   * non-empty array gets 400; otherwise every row becomes one product, in order, all
   * added by one `createMany`, and they are returned with 201. No row is rejected.
   */
  method Post(db: Db, crypto: Crypto, req: Request, rows: Option<seq<BulkRow>>, ids: seq<string>, now: string)
    returns (res: Response)
    requires db.Valid()
    requires rows.Some? ==> |ids| == |rows.value|
    requires forall i, j :: 0 <= i < j < |ids| ==> ids[i] != ids[j]
    requires forall i, k :: 0 <= i < |ids| && 0 <= k < |db.products| ==> db.products[k].id != ids[i]
    modifies db
    ensures db.Valid() && db.users == old(db.users)
    ensures var caller := UserFromRequest(req, crypto);
      && (caller.None? || caller.value.role != Vendor ==> res == Forbidden && db.products == old(db.products))
      && (caller.Some? && caller.value.role == Vendor && (rows.None? || rows.value == []) ==>
            res == BadRequest(NotAnArray) && db.products == old(db.products))
      && (caller.Some? && caller.value.role == Vendor && rows.Some? && rows.value != [] ==>
            res.ProductsCreated? && |res.products| == |rows.value|
            && db.products == old(db.products) + res.products
            && forall i :: 0 <= i < |rows.value| ==>
                 res.products[i] == Stamp(ToNewProduct(rows.value[i], caller.value.id), ids[i], now, now))
  {
    var user := UserFromRequest(req, crypto);
    if user.None? || user.value.role != Vendor {
      return Forbidden;
    }
    if rows.None? || |rows.value| == 0 {
      return BadRequest(NotAnArray);
    }
    var input := seq(|rows.value|, i requires 0 <= i < |rows.value| => ToNewProduct(rows.value[i], user.value.id));
    var created := db.ProductsCreateMany(input, ids, now);
    res := ProductsCreated(created);
  }
}
