# shop-link, modelled in Dafny

shop-link is a small marketplace. Vendors list products with an image, a name, category
tags and WhatsApp or Instagram contact links. Customers browse the products by category
and are sent to the vendor's chat or profile. This project models the core of that
system:

- the in-memory store (`lib/db.ts`): users, products, and their lookups, listings,
  updates, deletion and the sorted category list;
- authentication (`lib/auth.ts`, `lib/api-helpers.ts`): credential checks, registration,
  and reading the caller's token from a request;
- the API routes for products, bulk upload, registration and categories, each as a
  method that takes the store and the request and returns a response;
- the vendor page's bulk-text parser and its product form (`app/vendor/page.tsx`);
- the customer page's contact links (`app/customer/page.tsx`).

The store is a class `Store.Db` whose two sequences the methods update in place. Lookups
and listings are functions over those sequences. Password hashing, token signing and
verification, and URL encoding are foreign code. They enter as function values (`Auth.Crypto`
and an `encode` parameter). Record ids and timestamps come from the clock and a random
generator, so they enter as parameters. Product ids are required to be fresh, and
`Store.Db.Valid` keeps them distinct.

JavaScript string behaviour is written out:
- `split` cuts at leftmost, non-overlapping occurrences;
- `trim` drops the ECMAScript white-space and line-terminator characters;
- `replace('@', '')` removes only the first `@`;
- `sort()` orders strings lexicographically by character.

Two behaviours of the code worth noting:
- `products.update` accepts any field of a product except `id` and `createdAt`. The model
  keeps that, so a patch may change `vendorId` (`Store.Merge`).
- Registering an email that already exists answers 500 with the message "User already
  exists". The `catch` in `app/api/auth/register/route.ts` turns the thrown error into
  that response (`RegisterRoute.Post`).

Modules: `Wrappers`, `Text`, `LexOrder`, `JsArray` (library behaviour the source relies on),
`Store`, `Auth`, `ApiHelpers`, `Http`, `ProductsRoute`, `BulkRoute`, `RegisterRoute`,
`CategoriesRoute`, `VendorPage`, `CustomerPage`.

## Model

| member | source | states |
|---|---|---|
| Store.UserById | lib/db.ts:271-273 | no result iff no user has the id; otherwise the first user with that id |
| Store.UserByEmail | lib/db.ts:274-276 | no result iff no user has the email; otherwise the first user with that exact email |
| Store.ProductById | lib/db.ts:295-297 | no result iff no product has the id; otherwise the first product with that id |
| Store.ByVendor | lib/db.ts:298-300 | a product is listed iff it is in the store and belongs to the vendor, each as often as in the store |
| Store.ByCategory | lib/db.ts:301-303 | a product is listed iff it is in the store and lists the exact category name, each as often as in the store |
| Store.ListingsKeepOrder | lib/db.ts:298-303 | both listings keep store order: the listing of a concatenation is the concatenation of the listings |
| Store.CategoriesInUse | lib/db.ts:337-343 | every category of every product is in the set |
| Store.CategoriesInUseExactly | lib/db.ts:337-343 | a name is in the set iff some product lists it |
| Store.CategoriesAfterAppend | lib/db.ts:304-313 | creating a product adds exactly its category names to the names in use |
| Store.Merge | lib/db.ts:325-330 | the merged product keeps its id and creation time, takes `updatedAt` from the clock, and takes each patched field from the patch and the others from the product |
| Store.MergeLaws | lib/db.ts:325-330 | an empty patch only refreshes `updatedAt`; applying a patch twice equals applying it once |
| Store.MergeUser | lib/db.ts:286-291 | each field the patch supplies, the id included, replaces the user's; every other field is kept; an empty patch leaves the user unchanged |
| Store.MergeUserIdempotent | lib/db.ts:286-291 | applying the same user patch twice equals applying it once |
| Store.Stamp | lib/db.ts:305-310 | the new product carries every input field unchanged, plus the given id, `createdAt` and `updatedAt` |
| Store.RemovedIdIsGone | lib/db.ts:331-336 | splicing out a product from a store with distinct ids keeps ids distinct, and its id is no longer found |
| Store.Db.constructor | lib/db.ts:48-49 | the store starts empty and valid |
| Store.Db.Seed | lib/db.ts:52-53 | seeding loads the sample data only while there are no users; otherwise nothing changes |
| Store.Db.UsersCreate | lib/db.ts:277-285 | appends exactly the new user, stamped with the id and time; products unchanged |
| Store.Db.UsersUpdate | lib/db.ts:286-291 | none iff no user has the id; otherwise the first such user is replaced by its merge with the patch, and nothing else changes |
| Store.Db.ProductsCreate | lib/db.ts:304-313 | appends exactly the product stamped with the fresh id and the two clock readings, which may differ; ids stay distinct; users unchanged |
| Store.Db.ProductsCreateMany | lib/db.ts:314-324 | appends one stamped product per input, in input order, with one shared timestamp; ids stay distinct |
| Store.Db.ProductsUpdate | lib/db.ts:325-330 | none iff no product has the id; otherwise only that product changes, to its merge with the patch |
| Store.Db.ProductsDelete | lib/db.ts:331-336 | true iff the id was present; the first such product is spliced out and the id is then absent |
| Store.Db.ProductsGetCategories | lib/db.ts:337-343 | the result is strictly sorted (sorted, no duplicates) and holds exactly the category names in use |
| LexOrder.BelowTotal | lib/db.ts:342 | the string order used by `sort()` is total |
| LexOrder.BelowAntisymmetric | lib/db.ts:342 | the string order is antisymmetric |
| LexOrder.BelowTransitive | lib/db.ts:342 | the string order is transitive |
| LexOrder.SortStrings | lib/db.ts:342 | the result is sorted and a permutation of the input |
| LexOrder.SortDistinct | lib/db.ts:342 | sorting a duplicate-free list gives a strictly sorted permutation of it |
| LexOrder.StrictlySortedUnique | lib/db.ts:342 | two strictly sorted lists with the same elements are equal, so the category list is determined by the set in use |
| JsArray.FilterMembership | lib/db.ts:298-303 | `filter` keeps exactly the elements that pass the test |
| JsArray.FilterAppend | lib/db.ts:298-303 | `filter` distributes over concatenation, so order is kept |
| JsArray.FindIndex | lib/db.ts:287 | -1 iff no element passes the test; otherwise the first index whose element passes |
| JsArray.Find | lib/db.ts:271-276 | none iff no element passes the test; otherwise the element at the first passing index |
| JsArray.Filter | lib/db.ts:298-303 | the result is no longer than the input and every element of it passes the test |
| JsArray.FilterCount | lib/db.ts:298-303 | a passing element is kept exactly as often as it occurs; a failing one never |
| JsArray.FindAppend | lib/db.ts:274-276 | `find` returns the first match, so elements appended after one do not change it |
| Auth.VerifyToken | lib/auth.ts:26-32 | none iff the token library rejects the token; otherwise its decoded claims |
| Auth.Claims | lib/auth.ts:40-45 | the claims are the user's id, email, role and name, and carry no password |
| Auth.AuthenticateUser | lib/auth.ts:34-46 | no user for the email gives none; a wrong password gives none; a password that checks against the first such user's hash gives exactly that user's claims |
| Auth.CreateUser | lib/auth.ts:48-73 | an existing email fails and changes nothing; otherwise the user is appended with the hashed password and their claims are returned |
| Auth.LoginAfterRegister | lib/auth.ts:34-73 | a freshly registered user can log in with the password they registered with |
| Auth.LoginUnaffectedByLaterUsers | lib/auth.ts:34-46 | users registered later do not change who an existing email logs in as |
| ApiHelpers.TokenFromRequest | lib/api-helpers.ts:4-13 | a `Bearer ` header gives the rest of the header; otherwise the `token` cookie |
| ApiHelpers.UserFromRequest | lib/api-helpers.ts:15-19 | no token or an empty token gives no caller; otherwise the verified claims |
| ApiHelpers.BearerHeaderRoundTrip | lib/api-helpers.ts:4-13 | a token sent as `Bearer <token>` is read back as that token, whatever the cookie |
| ApiHelpers.EmptyBearerIsAnonymous | lib/api-helpers.ts:4-19 | a bare `Bearer ` header makes the request anonymous, even with a cookie |
| Http.Status | app/api/products/route.ts:5-63 | 200 iff a listing or a registration, 201 iff something was created, 400 iff a bad request, 401 iff unauthorized, 403 iff forbidden, 500 iff a server error |
| ProductsRoute.Get | app/api/products/route.ts:5-29 | 401 without a caller; a vendor gets their own products; a customer gets a category's products or all of them; every listed product is in the store |
| ProductsRoute.Post | app/api/products/route.ts:31-63 | non-vendors get 403 and nothing changes; a missing name, image or category list gives 400 and nothing changes; otherwise exactly one stamped product is appended for the caller |
| ProductsRoute.CreatedProductIsListed | app/api/products/route.ts:5-63 | a product created by a vendor appears in that vendor's listing and in the listing of each of its categories |
| BulkRoute.RowCategories | app/api/products/bulk/route.ts:27 | a row's category list, else its single category, else `Uncategorized`, each case stated |
| BulkRoute.ToNewProduct | app/api/products/bulk/route.ts:21-28 | the vendor id is the caller's, whatever the row holds; name, image and both contact links are the row's; categories follow RowCategories |
| BulkRoute.Post | app/api/products/bulk/route.ts:5-39 | 403 for non-vendors; 400 for a missing or empty array; otherwise one product per row, in order, owned by the caller, appended to the store |
| RegisterRoute.ParseRole | app/api/auth/register/route.ts:15-20 | only `vendor` and `customer` are accepted, each mapped to its role |
| RegisterRoute.Post | app/api/auth/register/route.ts:4-32 | missing fields give 400; a bad role gives 400; an existing email gives 500 "User already exists"; otherwise the user is appended and signed in; products never change |
| CategoriesRoute.Get | app/api/categories/route.ts:5-20 | 401 without a caller; otherwise a strictly sorted list holding exactly the names in use |
| VendorPage.NonBlankIsTrimTruthy | app/vendor/page.tsx:174 | a line is kept iff its trimmed text is non-empty |
| VendorPage.NonBlankHasVisible | app/vendor/page.tsx:174 | a line is kept iff it has a non-white-space character |
| VendorPage.TrimAll | app/vendor/page.tsx:176 | one field per part, in order; field k is the trim of part k |
| VendorPage.OptionalField | app/vendor/page.tsx:180-181 | a link is absent iff its field is missing or empty |
| VendorPage.CategoriesField | app/vendor/page.tsx:182 | an empty field gives `["Uncategorized"]`; otherwise the field's `\|`-separated parts, each trimmed, in order |
| VendorPage.ParseLine | app/vendor/page.tsx:175-183 | name, image and links are trimmed; links present only when non-empty; at least one category; `Uncategorized` when the fifth field is missing or empty |
| VendorPage.ParseLines | app/vendor/page.tsx:175-184 | one row per line, in order, row k being the parse of line k |
| VendorPage.ParseBulk | app/vendor/page.tsx:174-184 | every row of the parsed text has at least one category |
| VendorPage.PaddedFieldsIgnored | app/vendor/page.tsx:176 | white space typed around any field of a line does not change the parsed row |
| VendorPage.ParseBulkLines | app/vendor/page.tsx:174-184 | parsing two blocks joined by a newline is parsing each and concatenating |
| VendorPage.ParseBulkOneLine | app/vendor/page.tsx:174-184 | a single line gives one row when it is not blank and no row otherwise |
| VendorPage.ExtraFieldsIgnored | app/vendor/page.tsx:176-182 | fields after the fifth do not change a parsed row |
| VendorPage.ParseFormatLine | app/vendor/page.tsx:175-183 | parsing the formatted text of a well-formed row gives that row back |
| VendorPage.ParseFormatBulk | app/vendor/page.tsx:174-184 | parsing the formatted text of a list of well-formed rows gives the list back |
| VendorPage.UploadKeepsCategories | app/vendor/page.tsx:182 | the server keeps the categories the page parsed for each row, and there is at least one; the product it stores carries the caller's vendor id and the row's parsed name, image, categories and both links |
| VendorPage.Without | app/vendor/page.tsx:415 | the name is gone, every other name keeps its count and membership |
| VendorPage.WithoutKeepsOrder | app/vendor/page.tsx:437-441 | removing a chip keeps the order of the remaining names |
| VendorPage.Toggle | app/vendor/page.tsx:405-417 | checking appends the name; unchecking removes every copy |
| VendorPage.Click | app/vendor/page.tsx:405-417 | a click on a checkbox makes the name present iff it was absent |
| VendorPage.ClickTwice | app/vendor/page.tsx:405-417 | two clicks on an unchecked name restore the list |
| VendorPage.OrAbsent | app/vendor/page.tsx:153-154 | an empty link is sent as absent, any other as it is |
| VendorPage.Submit | app/vendor/page.tsx:136-155 | nothing is sent iff no category is chosen; the payload carries the form, with empty links absent |
| VendorPage.SubmitMeetsServerCheck | app/vendor/page.tsx:136-155 | what the form sends with a name and image passes the server's field check |
| VendorPage.OrEmpty | app/vendor/page.tsx:223-224 | an absent link shows as `''`, a present one as it is |
| VendorPage.EditForm | app/vendor/page.tsx:218-227 | name and image copied; a present link is copied; missing links become empty; categories copied, missing ones become empty |
| VendorPage.EditThenSubmit | app/vendor/page.tsx:218-227 | saving an unchanged edit sends the listing back (empty links absent); without categories nothing is sent |
| CustomerPage.PhoneNumber | app/customer/page.tsx:111-119 | the number is all digits and no longer than the link; with `wa.me/`, the digits after the first `wa.me/` up to a `?`; else with the send form, the digits after the first `phone=` up to a `&`; else all digits of the link |
| CustomerPage.WaMeLinkPhone | app/customer/page.tsx:113-114 | `https://wa.me/<number>`, with or without a `?` query, yields the digits of the number, whatever separators it is written with; an all-digit number is yielded exactly |
| CustomerPage.SendLinkPhone | app/customer/page.tsx:115-116 | `https://api.whatsapp.com/send?phone=<number>`, with or without `&` parameters, yields the digits of the number, whatever separators it is written with; an all-digit number is yielded exactly |
| CustomerPage.BareNumberPhone | app/customer/page.tsx:117-118 | a link with no `w` and no `a` (so neither marker) yields all of its digits; a link made only of digits is its own number |
| CustomerPage.SeparatedNumberPhone | app/customer/page.tsx:117-118 | a worked example of BareNumberPhone: the link `+234 801-234-5678` yields `2348012345678` |
| CustomerPage.WhatsAppUrl | app/customer/page.tsx:121-126 | a number gives a `wa.me` chat with the encoded message; no number gives the link as it is |
| CustomerPage.WhatsAppUrlKeepsPhone | app/customer/page.tsx:111-126 | the chat URL leads to the same number as the vendor's link |
| CustomerPage.WhatsAppUrlIdempotent | app/customer/page.tsx:111-126 | building the chat URL again from its own result changes nothing |
| CustomerPage.InstagramUrl | app/customer/page.tsx:127-133 | the URL starts with `http`; links starting with `http` are kept; handles go under `https://instagram.com/` |
| CustomerPage.InstagramHandleUrl | app/customer/page.tsx:129-132 | for a name with no `@` and no slash at either end, any slashes around it and an optional leading `@` are dropped: the URL is `https://instagram.com/name` (without the `@`, only when the text does not start with `http`) |
| CustomerPage.InstagramFirstAtRemoved | app/customer/page.tsx:129-132 | for a handle `a@b` whose part `a` has no `@`, the URL is `https://instagram.com/` followed by `a` and `b` joined, with slashes stripped from both ends: only the first `@` goes, wherever it stands |
| CustomerPage.InstagramNoAt | app/customer/page.tsx:129-132 | a handle without `@` only has the slashes at its ends stripped |
| CustomerPage.InstagramUrlIdempotent | app/customer/page.tsx:127-133 | building the profile URL again from its own result changes nothing |
| CustomerPage.LinkFor | app/customer/page.tsx:107 | the chosen platform's link when it is present and non-empty, otherwise none |
| CustomerPage.Greeting | app/customer/page.tsx:109 | the message names the product between the fixed greeting and the fixed question |
| CustomerPage.ContactUrl | app/customer/page.tsx:106-135 | no URL iff the platform's link is absent or empty; WhatsApp gives the chat URL built from the link and the encoded greeting, which keeps the link's number; Instagram gives the profile URL of the link, which starts with `http` |
| Text.JoinSplit | app/vendor/page.tsx:174-176 | joining the pieces of a split with the separator gives the text back |
| Text.SplitJoin | app/vendor/page.tsx:174-182 | splitting a join of parts that do not contain the separator gives the parts back |
| Text.TrimByShape | app/vendor/page.tsx:176 | the trimmed text sits in the original with only dropped characters around it, and is empty iff every character is dropped |
| Text.TrimEmpty | app/vendor/page.tsx:174 | the trimmed text is empty iff every character is white space |
| Text.TrimByIdempotent | app/vendor/page.tsx:176 | trimming twice is trimming once |
| Text.IndexOf | app/customer/page.tsx:113-116 | the first position where the pattern occurs, or none when it occurs nowhere |
| Text.Split | app/vendor/page.tsx:174-182 | a split always has at least one piece; JoinSplit and SplitFirst pin the pieces |
| Text.SplitFirst | app/customer/page.tsx:114-116 | the first piece ends at the first occurrence of the separator, and the rest is the split of what follows it |
| Text.FirstPiece | app/customer/page.tsx:114-116 | `split(p)[0]` is the text before the first occurrence of `p`, or all of it |
| Text.SecondPiece | app/customer/page.tsx:114-116 | `split(p)[1]` is the text after the first occurrence of `p`, up to the next one |
| Text.Trim | app/vendor/page.tsx:174-182 | the result has no white space at either end |
| Text.TrimByAround | app/customer/page.tsx:131 | stripping text padded on both sides with dropped characters gives the middle back |
| Text.Digits | app/customer/page.tsx:114-118 | the result is all digits and no longer than the input |
| Text.DigitsAppend | app/customer/page.tsx:114-118 | the digit filter distributes over concatenation, so the digits keep their order |
| Text.RemoveFirstChar | app/customer/page.tsx:131 | without the character, the text is unchanged; with it, exactly one occurrence is removed |
| Text.RemoveFirstCharAfter | app/customer/page.tsx:131 | the occurrence removed is the first one, and everything else stays in place |
| Text.DigitsOfDigits | app/customer/page.tsx:114-118 | removing non-digits from a string of digits changes nothing |

## Left out

- Password hashing, token signing and verification, and `encodeURIComponent` are foreign libraries. They are opaque function values, so `Verify(Sign(u))` is not assumed.
- Auth.Crypto: bcrypt salts each hash, so hashing the same password twice gives different hashes. The model's `hash` is a deterministic function, so it does not capture that.
- Ids and timestamps are parameters. A user id is the bare `Date.now()` timestamp (lib/db.ts:280); a product id is the timestamp plus a random suffix (lib/db.ts:307). Product ids are required to be fresh. User ids carry no freshness invariant, because `users.update` can change an id.
- JSON parsing of request bodies and the catch-all 500 responses for malformed bodies are left out. Bodies arrive already decoded into `Option` fields.
- The routes under `app/api/products/[id]`, the debug routes, `app/api/categories/list`, the middleware and the React rendering are not part of this model. Neither are local storage, `fetch` and `window.open`; the pages' pure logic is modelled instead.
- Store.Db.Seed: the sample users and products are parameters, not the literal seed records.
- LexOrder.Below: compares characters by code point. JavaScript's `sort()` compares UTF-16 code units, and the two orders differ only for characters outside the Basic Multilingual Plane.
- Store.MergeUser, Store.Merge: a patch key that is present but holds `undefined` is treated like an absent key.
- BulkRoute.Post: row names and images are strings. The source passes non-string values through unchecked.
- Concurrent requests against the shared store are not modelled; each route runs to completion.
- CustomerPage.SendLinkPhone: stated only when the parameters after the number hold no `wa.me/`, because the page looks for `wa.me/` first.
- CustomerPage.SendLinkPhone: also stated only for numbers without `w`, `p` or `&`. Any of these could start a `wa.me/` or a `phone=`, or end the number early.
- CustomerPage.WaMeLinkPhone: stated for numbers without `w` or `?`. Either could start a second `wa.me/` or end the number early.
- CustomerPage.BareNumberPhone: stated for links without `w` or `a`, the first characters of the two markers. Every link is covered by PhoneNumber's own ensures; the two lemmas above work out the `https://` forms.
- VendorPage.ParseFormatBulk: the round trip is stated for rows that the text format can express. No field of such a row holds a comma or a newline or has white space at either end, no category holds a `|`, and the row has at least one category, none of them empty.
- VendorPage.ExtraFieldsIgnored: stated for lines that already have five fields. With fewer, an extra field becomes a missing one.
