/** `app/api/products/route.ts`: listing products (GET) and adding one (POST). */
module ProductsRoute {
  import opened Wrappers
  import opened Store
  import opened Auth
  import opened ApiHelpers
  import opened Http

  /** The parsed POST body; `categories` is `None` when the field is missing or not an array. */
  datatype ProductBody = ProductBody(
    name: Option<string>, image: Option<string>,
    whatsappLink: Option<string>, instagramLink: Option<string>,
    categories: Option<seq<string>>)

  /** The POST validation: a name, an image and a non-empty array of categories. */
  predicate WellFormed(body: ProductBody) {
    Present(body.name) && Present(body.image) && body.categories.Some? && |body.categories.value| > 0
  }

  const MissingFields := "Name, image, and at least one category are required"

  /**
   * GET: no caller is 401; a vendor sees exactly their own products, whatever the
   * `category` parameter; a customer sees one category when the parameter is non-empty,
   * and everything otherwise. The store is only read.
   */
  method Get(db: Db, crypto: Crypto, req: Request, category: Option<string>) returns (res: Response)
    ensures var caller := UserFromRequest(req, crypto);
      && (caller.None? ==> res == Unauthorized)
      && (caller.Some? && caller.value.role == Vendor ==> res == ProductList(ByVendor(db.products, caller.value.id)))
      && (caller.Some? && caller.value.role == Customer ==>
            res == ProductList(if Present(category) then ByCategory(db.products, category.value) else db.products))
    ensures res.ProductList? ==> forall p :: p in res.products ==> p in db.products
  {
    var user := UserFromRequest(req, crypto);
    if user.None? {
      return Unauthorized;
    }
    if user.value.role == Vendor {
      res := ProductList(ByVendor(db.products, user.value.id));
    } else {
      var products := if Present(category) then ByCategory(db.products, category.value) else db.products;
      res := ProductList(products);
    }
  }

  /**
   * POST: anyone but an authenticated vendor gets 403 (not 401); a body without a name,
   * an image or at least one category gets 400; otherwise the product is stored under
   * the caller's id and returned with 201.
   */
  method Post(db: Db, crypto: Crypto, req: Request, body: ProductBody, id: string, createdAt: string, updatedAt: string)
    returns (res: Response)
    requires db.Valid()
    requires forall k :: 0 <= k < |db.products| ==> db.products[k].id != id
    modifies db
    ensures db.Valid() && db.users == old(db.users)
    ensures var caller := UserFromRequest(req, crypto);
      && (caller.None? || caller.value.role != Vendor ==> res == Forbidden && db.products == old(db.products))
      && (caller.Some? && caller.value.role == Vendor && !WellFormed(body) ==>
            res == BadRequest(MissingFields) && db.products == old(db.products))
      && (caller.Some? && caller.value.role == Vendor && WellFormed(body) ==>
            var p := Stamp(NewProduct(caller.value.id, body.name.value, body.image.value,
                                      body.whatsappLink, body.instagramLink, body.categories.value), id, createdAt, updatedAt);
            res == ProductCreated(p) && db.products == old(db.products) + [p])
    ensures res.ProductCreated? ==>
      (res.product.vendorId == UserFromRequest(req, crypto).value.id && |res.product.categories| > 0)
  {
    var user := UserFromRequest(req, crypto);
    if user.None? || user.value.role != Vendor {
      return Forbidden;
    }
    if !WellFormed(body) {
      return BadRequest(MissingFields);
    }
    var product := db.ProductsCreate(
      NewProduct(user.value.id, body.name.value, body.image.value, body.whatsappLink, body.instagramLink, body.categories.value),
      id, createdAt, updatedAt);
    res := ProductCreated(product);
  }

  /**
   * A product a vendor adds with a category is found afterwards by a customer filtering
   * on that category, and by the vendor's own listing.
   */
  lemma CreatedProductIsListed(before: seq<Product>, p: Product, category: string)
    requires category in p.categories
    ensures p in ByCategory(before + [p], category)
    ensures p in ByVendor(before + [p], p.vendorId)
  {
    assert p in before + [p];
  }
}
