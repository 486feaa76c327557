/** `app/api/categories/route.ts`: the category names in use, for any signed-in caller. */
module CategoriesRoute {
  import opened Store
  import opened Auth
  import opened ApiHelpers
  import opened Http
  import opened LexOrder

  /**
   * GET: no caller is 401; a caller of either role gets the names some product lists,
   * each once, in sorted order. The store is only read.
   */
  method Get(db: Db, crypto: Crypto, req: Request) returns (res: Response)
    ensures UserFromRequest(req, crypto).None? ==> res == Unauthorized
    ensures UserFromRequest(req, crypto).Some? ==>
      res.CategoryList? && StrictlySorted(res.categories)
      && forall c :: c in res.categories <==> c in CategoriesInUse(db.products)
  {
    var user := UserFromRequest(req, crypto);
    if user.None? {
      return Unauthorized;
    }
    var categories := db.ProductsGetCategories();
    res := CategoryList(categories);
  }
}
