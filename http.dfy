/** The JSON responses the route handlers return, with their HTTP status codes. */
module Http {
  import opened Store
  import opened Auth

  datatype Response =
    | Unauthorized                                  // { error: 'Unauthorized' }
    | Forbidden                                     // { error: 'Forbidden' }
    | BadRequest(error: string)
    | ServerError(error: string)
    | ProductList(products: seq<Product>)           // { products }
    | CategoryList(categories: seq<string>)         // { categories }
    | ProductCreated(product: Product)              // { product }
    | ProductsCreated(products: seq<Product>)       // { products }
    | Registered(user: AuthUser, token: string)     // { user, token }

  function Status(r: Response): (code: int)
    ensures 200 <= code < 600
    ensures code == 401 <==> r.Unauthorized?
    ensures code == 403 <==> r.Forbidden?
    ensures code == 201 <==> r.ProductCreated? || r.ProductsCreated?
    ensures code == 400 <==> r.BadRequest?
    ensures code == 500 <==> r.ServerError?
    ensures code == 200 <==> r.ProductList? || r.CategoryList? || r.Registered?
  {
    match r
    case Unauthorized => 401
    case Forbidden => 403
    case BadRequest(_) => 400
    case ServerError(_) => 500
    case ProductList(_) => 200
    case CategoryList(_) => 200
    case ProductCreated(_) => 201
    case ProductsCreated(_) => 201
    case Registered(_, _) => 200
  }
}
