/**
 * The in-memory store of `lib/db.ts`: two module-level arrays, `users` and `products`,
 * held here by one `Db` object whose methods change them in place. Identifiers and
 * timestamps, which the source takes from the clock and the random generator, are
 * supplied by the caller.
 */
module Store {
  import opened Wrappers
  import opened JsArray
  import opened LexOrder

  datatype Role = Vendor | Customer

  /** A stored account; `password` holds the bcrypt hash, never the plaintext. */
  datatype User = User(id: string, email: string, password: string, role: Role, name: string, createdAt: string)

  /** What `users.create` is given: a user without `id` and `createdAt`. */
  datatype NewUser = NewUser(email: string, password: string, role: Role, name: string)

  /** `Partial<User>`: every field may be supplied, the id and creation time included. */
  datatype UserPatch = UserPatch(
    id: Option<string>, email: Option<string>, password: Option<string>,
    role: Option<Role>, name: Option<string>, createdAt: Option<string>)

  datatype Product = Product(
    id: string, vendorId: string, name: string, image: string,
    whatsappLink: Option<string>, instagramLink: Option<string>,
    categories: seq<string>, createdAt: string, updatedAt: string)

  /** What `products.create` is given: a product without `id`, `createdAt` and `updatedAt`. */
  datatype NewProduct = NewProduct(
    vendorId: string, name: string, image: string,
    whatsappLink: Option<string>, instagramLink: Option<string>, categories: seq<string>)

  /** `Partial<Omit<Product, 'id' | 'createdAt'>>`; `updatedAt` is always overwritten, so it is not listed. */
  datatype ProductPatch = ProductPatch(
    vendorId: Option<string>, name: Option<string>, image: Option<string>,
    whatsappLink: Option<string>, instagramLink: Option<string>, categories: Option<seq<string>>)

  function UserHasId(id: string): User -> bool {
    (u: User) => u.id == id
  }

  function UserHasEmail(email: string): User -> bool {
    (u: User) => u.email == email
  }

  function ProductHasId(id: string): Product -> bool {
    (p: Product) => p.id == id
  }

  function FromVendor(vendorId: string): Product -> bool {
    (p: Product) => p.vendorId == vendorId
  }

  function InCategory(category: string): Product -> bool {
    (p: Product) => category in p.categories
  }

  /** `users.getById`: the first user with exactly this id. */
  function UserById(users: seq<User>, id: string): (r: Option<User>)
    ensures r.None? <==> forall k :: 0 <= k < |users| ==> users[k].id != id
    ensures r.Some? ==> exists i :: IsFirst(users, UserHasId(id), i) && users[i] == r.value
  {
    Find(users, UserHasId(id))
  }

  /** `users.getByEmail`: the first user with exactly this email (case-sensitive). */
  function UserByEmail(users: seq<User>, email: string): (r: Option<User>)
    ensures r.None? <==> forall k :: 0 <= k < |users| ==> users[k].email != email
    ensures r.Some? ==> exists i :: IsFirst(users, UserHasEmail(email), i) && users[i] == r.value
  {
    Find(users, UserHasEmail(email))
  }

  /** `products.getById`: the first product with exactly this id. */
  function ProductById(products: seq<Product>, id: string): (r: Option<Product>)
    ensures r.None? <==> forall k :: 0 <= k < |products| ==> products[k].id != id
    ensures r.Some? ==> exists i :: IsFirst(products, ProductHasId(id), i) && products[i] == r.value
  {
    Find(products, ProductHasId(id))
  }

  /** `products.getByVendorId`: the products of one vendor, in store order. */
  function ByVendor(products: seq<Product>, vendorId: string): (r: seq<Product>)
    ensures forall p :: p in r <==> p in products && p.vendorId == vendorId
    ensures forall p :: multiset(r)[p] == if p.vendorId == vendorId then multiset(products)[p] else 0
  {
    forall p ensures p in Filter(products, FromVendor(vendorId)) <==> p in products && p.vendorId == vendorId {
      FilterMembership(products, FromVendor(vendorId), p);
    }
    forall p ensures multiset(Filter(products, FromVendor(vendorId)))[p]
                     == if p.vendorId == vendorId then multiset(products)[p] else 0 {
      FilterCount(products, FromVendor(vendorId), p);
    }
    Filter(products, FromVendor(vendorId))
  }

  /** `products.getByCategory`: the products listing this exact category name, in store order. */
  function ByCategory(products: seq<Product>, category: string): (r: seq<Product>)
    ensures forall p :: p in r <==> p in products && category in p.categories
    ensures forall p :: multiset(r)[p] == if category in p.categories then multiset(products)[p] else 0
  {
    forall p ensures p in Filter(products, InCategory(category)) <==> p in products && category in p.categories {
      FilterMembership(products, InCategory(category), p);
    }
    forall p ensures multiset(Filter(products, InCategory(category)))[p]
                     == if category in p.categories then multiset(products)[p] else 0 {
      FilterCount(products, InCategory(category), p);
    }
    Filter(products, InCategory(category))
  }

  /** The listings keep store order: listing a concatenation concatenates the listings. */
  lemma ListingsKeepOrder(a: seq<Product>, b: seq<Product>, vendorId: string, category: string)
    ensures ByVendor(a + b, vendorId) == ByVendor(a, vendorId) + ByVendor(b, vendorId)
    ensures ByCategory(a + b, category) == ByCategory(a, category) + ByCategory(b, category)
  {
    FilterAppend(a, b, FromVendor(vendorId));
    FilterAppend(a, b, InCategory(category));
  }

  /** The set of category names some product lists. */
  function CategoriesInUse(products: seq<Product>): (r: set<string>)
    ensures forall p, c :: p in products && c in p.categories ==> c in r
  {
    if products == [] then {}
    else
      var last := products[|products| - 1];
      var init := products[..|products| - 1];
      assert products == init + [last];
      CategoriesInUse(init) + set c | c in last.categories
  }

  /** A name is in use exactly when some product lists it. */
  lemma {:induction false} CategoriesInUseExactly(products: seq<Product>, c: string)
    ensures c in CategoriesInUse(products) <==> exists k :: 0 <= k < |products| && c in products[k].categories
  {
    if products != [] {
      var init := products[..|products| - 1];
      CategoriesInUseExactly(init, c);
      if c in CategoriesInUse(init) {
        var k :| 0 <= k < |init| && c in init[k].categories;
        assert products[k] == init[k];
      }
      if exists k :: 0 <= k < |products| && c in products[k].categories {
        var k :| 0 <= k < |products| && c in products[k].categories;
        if k < |init| {
          assert init[k] == products[k];
        }
      }
    }
  }

  /** Adding one product adds exactly its category names to the names in use. */
  lemma CategoriesAfterAppend(products: seq<Product>, p: Product)
    ensures CategoriesInUse(products + [p]) == CategoriesInUse(products) + set c | c in p.categories
  {
    assert (products + [p])[..|products|] == products;
  }

  /**
   * The product `products.create` builds from its input: every input field is kept, and
   * the id and the two timestamps are the ones supplied.
   */
  function Stamp(p: NewProduct, id: string, createdAt: string, updatedAt: string): (r: Product)
    ensures r.id == id && r.createdAt == createdAt && r.updatedAt == updatedAt
    ensures NewProduct(r.vendorId, r.name, r.image, r.whatsappLink, r.instagramLink, r.categories) == p
  {
    Product(id, p.vendorId, p.name, p.image, p.whatsappLink, p.instagramLink, p.categories, createdAt, updatedAt)
  }

  /** `{ ...product, ...updates, updatedAt: now }`. */
  function Merge(p: Product, u: ProductPatch, now: string): (r: Product)
    ensures r.id == p.id && r.createdAt == p.createdAt && r.updatedAt == now
    ensures r.vendorId == (if u.vendorId.Some? then u.vendorId.value else p.vendorId)
    ensures r.name == (if u.name.Some? then u.name.value else p.name)
    ensures r.image == (if u.image.Some? then u.image.value else p.image)
    ensures r.whatsappLink == (if u.whatsappLink.Some? then u.whatsappLink else p.whatsappLink)
    ensures r.instagramLink == (if u.instagramLink.Some? then u.instagramLink else p.instagramLink)
    ensures r.categories == (if u.categories.Some? then u.categories.value else p.categories)
  {
    Product(
      p.id,
      if u.vendorId.Some? then u.vendorId.value else p.vendorId,
      if u.name.Some? then u.name.value else p.name,
      if u.image.Some? then u.image.value else p.image,
      if u.whatsappLink.Some? then u.whatsappLink else p.whatsappLink,
      if u.instagramLink.Some? then u.instagramLink else p.instagramLink,
      if u.categories.Some? then u.categories.value else p.categories,
      p.createdAt,
      now)
  }

  const NoProductChanges := ProductPatch(None, None, None, None, None, None)

  /** An empty patch only refreshes `updatedAt`; applying a patch twice is applying it once. */
  lemma MergeLaws(p: Product, u: ProductPatch, now: string, later: string)
    ensures Merge(p, NoProductChanges, now) == p.(updatedAt := now)
    ensures Merge(Merge(p, u, now), u, later) == Merge(p, u, later)
  {
  }

  /** `{ ...user, ...updates }`. */
  function MergeUser(u: User, patch: UserPatch): (r: User)
    ensures r.id == (if patch.id.Some? then patch.id.value else u.id)
    ensures r.email == (if patch.email.Some? then patch.email.value else u.email)
    ensures r.password == (if patch.password.Some? then patch.password.value else u.password)
    ensures r.role == (if patch.role.Some? then patch.role.value else u.role)
    ensures r.name == (if patch.name.Some? then patch.name.value else u.name)
    ensures r.createdAt == (if patch.createdAt.Some? then patch.createdAt.value else u.createdAt)
    ensures patch == UserPatch(None, None, None, None, None, None) ==> r == u
  {
    User(
      if patch.id.Some? then patch.id.value else u.id,
      if patch.email.Some? then patch.email.value else u.email,
      if patch.password.Some? then patch.password.value else u.password,
      if patch.role.Some? then patch.role.value else u.role,
      if patch.name.Some? then patch.name.value else u.name,
      if patch.createdAt.Some? then patch.createdAt.value else u.createdAt)
  }

  /** Applying the same user patch twice is applying it once. */
  lemma MergeUserIdempotent(u: User, patch: UserPatch)
    ensures MergeUser(MergeUser(u, patch), patch) == MergeUser(u, patch)
  {
  }

  /** No two products share an id. */
  predicate DistinctIds(products: seq<Product>) {
    forall i, j :: 0 <= i < j < |products| ==> products[i].id != products[j].id
  }

  /** Removing the record at `i` from a store with distinct ids leaves no record with its id. */
  lemma RemovedIdIsGone(products: seq<Product>, i: nat)
    requires DistinctIds(products) && i < |products|
    ensures var rest := products[..i] + products[i + 1..];
      DistinctIds(rest) && ProductById(rest, products[i].id).None? && |rest| == |products| - 1
  {
    var rest := products[..i] + products[i + 1..];
    forall k | 0 <= k < |rest| ensures rest[k].id != products[i].id {
      if k < i { assert rest[k] == products[k]; } else { assert rest[k] == products[k + 1]; }
    }
    forall a, b | 0 <= a < b < |rest| ensures rest[a].id != rest[b].id {
      var a' := if a < i then a else a + 1;
      var b' := if b < i then b else b + 1;
      assert rest[a] == products[a'] && rest[b] == products[b'];
    }
  }

  class Db {
    var users: seq<User>
    var products: seq<Product>

    /** Product ids are unique: the clock-and-random ids of the source are modelled as fresh. */
    ghost predicate Valid()
      reads this
    {
      DistinctIds(products)
    }

    constructor ()
      ensures Valid() && users == [] && products == []
    {
      users := [];
      products := [];
    }

    /** `seedData`: loads the sample records, but only while there are no users. */
    method Seed(seedUsers: seq<User>, seedProducts: seq<Product>)
      requires Valid()
      requires users == [] ==> DistinctIds(products + seedProducts)
      modifies this
      ensures Valid()
      ensures old(users) != [] ==> users == old(users) && products == old(products)
      ensures old(users) == [] ==> users == seedUsers && products == old(products) + seedProducts
    {
      if |users| > 0 {
        return;
      }
      users := users + seedUsers;
      products := products + seedProducts;
    }

    /** `users.create`: appends one user; there is no duplicate check at this level. */
    method UsersCreate(u: NewUser, id: string, now: string) returns (r: User)
      requires Valid()
      modifies this
      ensures Valid()
      ensures r == User(id, u.email, u.password, u.role, u.name, now)
      ensures users == old(users) + [r] && products == old(products)
    {
      r := User(id, u.email, u.password, u.role, u.name, now);
      users := users + [r];
    }

    /** `users.update`: merges the patch into the first user with this id, if there is one. */
    method UsersUpdate(id: string, patch: UserPatch) returns (r: Option<User>)
      requires Valid()
      modifies this
      ensures Valid()
      ensures products == old(products)
      ensures r.None? <==> UserById(old(users), id).None?
      ensures r.None? ==> users == old(users)
      ensures r.Some? ==>
        var i := FindIndex(old(users), UserHasId(id));
        0 <= i < |old(users)| && r.value == MergeUser(old(users)[i], patch)
        && users == old(users)[i := r.value]
    {
      var index := FindIndex(users, UserHasId(id));
      if index == -1 {
        return None;
      }
      users := users[index := MergeUser(users[index], patch)];
      r := Some(users[index]);
    }

    /**
     * `products.create`: appends one product with a fresh id. The clock is read twice, once
     * for `createdAt` and once for `updatedAt`, so the two may differ.
     */
    method ProductsCreate(p: NewProduct, id: string, createdAt: string, updatedAt: string) returns (r: Product)
      requires Valid()
      requires forall k :: 0 <= k < |products| ==> products[k].id != id
      modifies this
      ensures Valid()
      ensures r == Stamp(p, id, createdAt, updatedAt)
      ensures products == old(products) + [r] && users == old(users)
    {
      r := Stamp(p, id, createdAt, updatedAt);
      products := products + [r];
    }

    /** `products.createMany`: one product per input, in input order, all stamped with one `now`. */
    method ProductsCreateMany(ps: seq<NewProduct>, ids: seq<string>, now: string) returns (r: seq<Product>)
      requires Valid()
      requires |ids| == |ps|
      requires forall i, j :: 0 <= i < j < |ids| ==> ids[i] != ids[j]
      requires forall i, k :: 0 <= i < |ids| && 0 <= k < |products| ==> products[k].id != ids[i]
      modifies this
      ensures Valid()
      ensures |r| == |ps|
      ensures forall i :: 0 <= i < |ps| ==> r[i] == Stamp(ps[i], ids[i], now, now)
      ensures products == old(products) + r && users == old(users)
    {
      r := seq(|ps|, i requires 0 <= i < |ps| => Stamp(ps[i], ids[i], now, now));
      products := products + r;
    }

    /** `products.update`: replaces the first product with this id by its merge with the patch. */
    method ProductsUpdate(id: string, patch: ProductPatch, now: string) returns (r: Option<Product>)
      requires Valid()
      modifies this
      ensures Valid() && users == old(users)
      ensures r.None? <==> ProductById(old(products), id).None?
      ensures r.None? ==> products == old(products)
      ensures r.Some? ==>
        var i := FindIndex(old(products), ProductHasId(id));
        0 <= i < |old(products)| && r.value == Merge(old(products)[i], patch, now)
        && products == old(products)[i := r.value]
    {
      var index := FindIndex(products, ProductHasId(id));
      if index == -1 {
        return None;
      }
      products := products[index := Merge(products[index], patch, now)];
      r := Some(products[index]);
    }

    /** `products.delete`: splices out the first product with this id. */
    method ProductsDelete(id: string) returns (ok: bool)
      requires Valid()
      modifies this
      ensures Valid() && users == old(users)
      ensures ok <==> ProductById(old(products), id).Some?
      ensures !ok ==> products == old(products)
      ensures ok ==>
        var i := FindIndex(old(products), ProductHasId(id));
        0 <= i < |old(products)| && products == old(products)[..i] + old(products)[i + 1..]
        && ProductById(products, id).None?
    {
      var index := FindIndex(products, ProductHasId(id));
      if index == -1 {
        return false;
      }
      RemovedIdIsGone(products, index);
      products := products[..index] + products[index + 1..];
      ok := true;
    }

    /**
     * `products.getCategories`: every category name of every product collected into
     * an insertion-ordered set, then sorted.
     */
    method ProductsGetCategories() returns (r: seq<string>)
      ensures StrictlySorted(r)
      ensures forall c :: c in r <==> c in CategoriesInUse(products)
    {
      var seen: seq<string> := [];
      for i := 0 to |products|
        invariant NoDuplicates(seen)
        invariant forall c :: c in seen <==> c in CategoriesInUse(products[..i])
      {
        var cats := products[i].categories;
        assert products[..i + 1] == products[..i] + [products[i]];
        CategoriesAfterAppend(products[..i], products[i]);
        for j := 0 to |cats|
          invariant NoDuplicates(seen)
          invariant forall c :: c in seen <==> c in CategoriesInUse(products[..i]) || c in cats[..j]
        {
          assert cats[..j + 1] == cats[..j] + [cats[j]];
          if cats[j] !in seen {
            seen := seen + [cats[j]];
          }
        }
        assert cats[..|cats|] == cats;
      }
      assert products[..|products|] == products;
      SortDistinct(seen);
      r := SortStrings(seen);
    }
  }
}
