# ProductService, modelled in Dafny

A catalog service that keeps product documents in a document store. It has five jobs:

- It adds a product after checking that the product supplies every attribute its category requires.
- It deletes, reads and edits products by id.
- It returns a product's available quantity.
- It lists all products.
- It answers searches. A search optionally filters by keyword, categories, a price range, board sizes and brands. It sorts by a whitelisted field and returns one page of results.

The model has three layers:

- **Store.** The document store is the `products` field of the class `Service.ProductService`, a map from document id to `Catalog.Product`. The category lookup is the `categories` field, a map from lower-case category name to `Catalog.Category`.
- **Write and read paths.** These are methods of that class.
- **Search.** It is pure up to the point where the criteria list is built:
  - `Search` holds the sort-field whitelist, the direction check, and the reference meaning `Matches` of a query.
  - `Text` holds the comma split with empty segments dropped, ASCII case handling, and string order.
  - `Search.BuildCriteria` mirrors the successive appends to `criteriaList`.
- **Paging.** `Paging.ExecutePaged` is the result of the store's aggregation, not the pipeline itself. It filters, sorts by the pageable's key and then by ascending id, skips `page * size` documents, takes `size`, and counts every match. `Paging.Pageable` is the page request: page number, page size and sort order.

`Dto` holds the edit record of `updateProduct` and its validity constraints. `Scenarios` restates the service's unit tests as verified client methods.

Every method of the class is proved against its specification:

- **Success and error.** Each method's `ensures` states the new store and the result, for the success case and for every error case. Each error carries the source's HTTP status and message.
- **Search.** `SearchProducts` promises its page equals `ExecutePaged` over any listing of the store. This holds whatever order the store scans its documents in. It follows from `Paging.SortedUnique`: with the id tie-breaker, the sorted listing is unique.
- **Pages.** `Paging.AllPagesCoverMatches` shows that paging through the results visits every match exactly once, in order.

The store's id generation is a parameter. `AddProduct` takes a `freshId` that is not yet in the store. A body that already carries an id is saved under that id, replacing the document in place, as Spring Data's `save` does.

## Model

| member | source | states |
|---|---|---|
| Service.ProductService.constructor | src/main/java/com/example/productservice/service/ProductService.java:36-40 | The service starts with the given collection, whose documents are each stored under their own id, and the given category lookup. |
| Service.ProductService.AddProduct | src/main/java/com/example/productservice/service/ProductService.java:42-53 | Success happens exactly when the lower-cased category name is known and the product's attribute keys cover the category's required attributes. The product is then saved under its own id or a fresh one, with the lower-cased category name, and that id is returned. An unknown category is NOT_FOUND "Category name not found"; a missing attribute is BAD_REQUEST "Missing required attributes for category: " plus the category's name. In both error cases the store is unchanged. A new document adds exactly one key and leaves every earlier document as it was. |
| Service.ProductService.GetAllProducts | src/main/java/com/example/productservice/service/ProductService.java:59-65 | The list holds every stored document exactly once and nothing else. |
| Service.ProductService.DeleteProduct | src/main/java/com/example/productservice/service/ProductService.java:67-71 | The id is removed from the store. If it was not there (delete count 0), the result is NOT_FOUND "Cannot delete product with id: <id> as id does not exist" and the store is unchanged. |
| Service.ProductService.SearchProducts | src/main/java/com/example/productservice/service/ProductService.java:77-137 | An unknown sort field is BAD_REQUEST with the sortBy message. Otherwise a direction other than asc/desc (any letter case) is BAD_REQUEST "Direction must only be 'asc' or 'desc'". Otherwise the result is the page and count of `ExecutePaged` under `Matches` of the parsed query, sorted by the pageable's order and paged by its page number and size. For every listing of the store the result is the same page. |
| Service.ProductService.GetProductById | src/main/java/com/example/productservice/service/ProductService.java:167-174 | Returns the stored document, or NOT_FOUND "id does not exist" when the id is absent. The store is untouched. |
| Service.ProductService.UpdateProduct | src/main/java/com/example/productservice/service/ProductService.java:176-187 | On a stored id, the document is replaced by the edited one under the same id and every other document stays. An absent id is NOT_FOUND "Product not found" and the store is unchanged. |
| Service.ProductService.GetAvailableQuantity | src/main/java/com/example/productservice/service/ProductService.java:200-208 | Returns the stored document's quantity, or NOT_FOUND with the quantity message when the id is absent. The store is untouched. |
| Service.EnumerationOfSingle | src/main/java/com/example/productservice/service/ProductService.java:59-61 | A store holding one document is listed as exactly that document. |
| Dto.ApplyEdit | src/main/java/com/example/productservice/service/ProductService.java:182-185 | Name, price, quantity and description come from the edit. Every other field, id included, is the old one. |
| Dto.IsValidIff | src/main/java/com/example/productservice/dto/ProductEditDTO.java:9-19 | An edit is valid exactly when its name and description each contain a character above space, and its price and quantity are not negative. |
| Text.NotBlankIff | src/main/java/com/example/productservice/dto/ProductEditDTO.java:9-10 | `@NotBlank` (trim, then non-empty) holds exactly when some character is above space. |
| Text.TrimStart | src/main/java/com/example/productservice/dto/ProductEditDTO.java:9-10 | The result is a suffix, every dropped character is at most space, and the first kept character is above space. |
| Text.TrimEnd | src/main/java/com/example/productservice/dto/ProductEditDTO.java:9-10 | The result is a prefix, every dropped character is at most space, and the last kept character is above space. |
| Text.ToLower | src/main/java/com/example/productservice/service/ProductService.java:44 | Same length, and every character is lower-cased one for one. |
| Text.ToLowerIdempotent | src/main/java/com/example/productservice/service/ProductService.java:44-45 | Lower-casing an already lower-cased name changes nothing. |
| Text.EqualsIgnoreCaseOfLower | src/main/java/com/example/productservice/service/ProductService.java:82 | A string equals its lower-cased form ignoring case. |
| Text.Segments | src/main/java/com/example/productservice/service/ProductService.java:86 | `split(",")` gives at least one segment, and no segment contains a comma. |
| Text.JoinSegments | src/main/java/com/example/productservice/service/ProductService.java:86 | Re-joining the segments with commas gives the input back, so splitting loses nothing. |
| Text.SegmentsOfJoin | src/main/java/com/example/productservice/service/ProductService.java:86 | Splitting a comma-join of comma-free parts gives the parts back. |
| Text.DropEmpty | src/main/java/com/example/productservice/service/ProductService.java:87 | No empty string is left, and a value is kept exactly when it was in the input and non-empty; that order and number are kept is `Text.DropEmptyAppend`. |
| Text.DropEmptyAppend | src/main/java/com/example/productservice/service/ProductService.java:87 | Filtering a concatenation gives the filtered parts concatenated, so the kept values keep their order and number. |
| Text.DropEmptyKeeps | src/main/java/com/example/productservice/service/ProductService.java:87 | A list without empty strings passes through unchanged, order included. |
| Text.SplitNonEmpty | src/main/java/com/example/productservice/service/ProductService.java:86-96 | Every value is non-empty and comma-free; which values, in which order, is `Text.SplitNonEmptyCommaJoin` and `Text.SplitNonEmptyOfJoin`. |
| Text.JoinAppend | src/main/java/com/example/productservice/service/ProductService.java:86 | Joining two non-empty segment lists puts exactly one comma between their joins. |
| Text.SegmentsCommaJoin | src/main/java/com/example/productservice/service/ProductService.java:86 | The segments of `a + "," + b` are the segments of `a` followed by those of `b`. |
| Text.SplitNonEmptyCommaJoin | src/main/java/com/example/productservice/service/ProductService.java:86-96 | The non-empty values of `a + "," + b` are those of `a` followed by those of `b`, in order, whatever empty segments either contains. |
| Text.SplitNonEmptyExample | src/main/java/com/example/productservice/service/ProductService.java:86-88 | "a,,b" gives exactly ["a", "b"]. |
| Text.SplitNonEmptyOfJoin | src/main/java/com/example/productservice/service/ProductService.java:86-96 | Non-empty comma-free values round-trip through a comma-separated parameter in their original order. |
| Text.SplitNonEmptyIsEmptyIff | src/main/java/com/example/productservice/service/ProductService.java:86-96 | The list is empty, so its filter is off, exactly when the parameter is empty or commas only. |
| Text.ContainsIff | src/main/java/com/example/productservice/service/ProductService.java:103-106 | The substring test holds exactly when the pattern occurs at some position. |
| Text.LexIrreflexive | src/main/java/com/example/productservice/service/ProductService.java:141 | No string sorts before itself. |
| Text.LexTransitive | src/main/java/com/example/productservice/service/ProductService.java:141 | String order is transitive. |
| Text.LexTotal | src/main/java/com/example/productservice/service/ProductService.java:141 | Of two different strings, one sorts before the other. |
| Text.LexAsymmetric | src/main/java/com/example/productservice/service/ProductService.java:141 | String order is asymmetric. |
| Search.SortFieldOf | src/main/java/com/example/productservice/service/ProductService.java:162-165 | A resolved sort field is the one whose document field name is exactly `sortBy`. |
| Search.SortFieldWhitelist | src/main/java/com/example/productservice/service/ProductService.java:162-165 | The whitelist accepts exactly the five names that resolve to a sort field, "createdAt" included, and each field's own name resolves to it. |
| Search.DirectionOf | src/main/java/com/example/productservice/service/ProductService.java:82 | An accepted direction is descending exactly when its lower-cased form is "desc", and ascending exactly when it is "asc". |
| Search.DirectionCaseInsensitive | src/main/java/com/example/productservice/service/ProductService.java:82-84 | The direction check accepts a string exactly when it accepts its lower-cased form, that is exactly when the lower-cased form is "asc" or "desc". |
| Search.DirectionExamples | src/main/java/com/example/productservice/service/ProductService.java:82-84 | "DESC" and "Asc" pass with the right direction; "ascending" and "" fail. |
| Search.QueryOf | src/main/java/com/example/productservice/service/ProductService.java:86-96 | The category, board-size and brand lists of the parsed query contain no empty values. |
| Search.NoFilterMatchesAll | src/main/java/com/example/productservice/service/ProductService.java:130-133 | With no filter switched on, every product matches. |
| Search.AllHoldAppend | src/main/java/com/example/productservice/service/ProductService.java:132 | The conjunction of a list with one more criterion holds exactly when the list's conjunction and the new criterion both hold. |
| Search.BuildCriteria | src/main/java/com/example/productservice/service/ProductService.java:99-133 | The built criteria select a product exactly when `Matches` does: the keyword disjunction over name, brand, category name, description and tags, category/board-size/brand membership, and inclusive price bounds, each only when active. The result is the match-all criteria exactly when no filter is active. |
| Paging.BeforeAsymmetric | src/main/java/com/example/productservice/service/ProductService.java:141 | The page order (requested key, then ascending id) is asymmetric. |
| Paging.BeforeTransitive | src/main/java/com/example/productservice/service/ProductService.java:141 | The page order is transitive. |
| Paging.BeforeTrichotomy | src/main/java/com/example/productservice/service/ProductService.java:141 | Any two documents are ordered one way or the other, unless they have the same key and the same id. |
| Paging.Insert | src/main/java/com/example/productservice/service/ProductService.java:146 | Inserting into a sorted list gives a sorted list with exactly one more occurrence of the new document and nothing else changed (multiset). |
| Paging.SortBy | src/main/java/com/example/productservice/service/ProductService.java:141-146 | The `$sort` stage gives a sorted permutation of its input (multiset equality). |
| Paging.SortByIds | src/main/java/com/example/productservice/service/ProductService.java:146 | Sorting keeps the ids distinct. |
| Paging.SortedUnique | src/main/java/com/example/productservice/service/ProductService.java:141 | Two sorted lists with distinct ids and the same documents are equal, because the id tie-breaker fixes the order. |
| Paging.Filter | src/main/java/com/example/productservice/service/ProductService.java:143 | The `$match` stage keeps exactly the documents the criteria select. |
| Paging.FilterIds | src/main/java/com/example/productservice/service/ProductService.java:143 | Filtering keeps ids distinct. |
| Paging.FilterExtensional | src/main/java/com/example/productservice/service/ProductService.java:143 | Criteria that agree on every document select the same list. |
| Paging.Slice | src/main/java/com/example/productservice/service/ProductService.java:147-148 | `$skip offset` then `$limit size` gives min(size, max(0, length − offset)) documents, each the one at offset + i. |
| Paging.ExecutePaged | src/main/java/com/example/productservice/service/ProductService.java:139-160 | totalCount is the number of all matches, and the page has min(size, max(0, totalCount − page·size)) documents. |
| Paging.PageMatches | src/main/java/com/example/productservice/service/ProductService.java:143-148 | Every document on the page is a stored document that the criteria select. |
| Paging.PageSorted | src/main/java/com/example/productservice/service/ProductService.java:141-148 | The page is in page order, with distinct ids. |
| Paging.ExecutePagedIndependent | src/main/java/com/example/productservice/service/ProductService.java:139-160 | The result depends only on which documents are stored, not on the order the store scans them in. |
| Paging.ExecutePagedExtensional | src/main/java/com/example/productservice/service/ProductService.java:134 | Criteria that select the same documents give the same result. |
| Paging.PagesUpToPrefix | src/main/java/com/example/productservice/service/ProductService.java:147-148 | The first n pages, joined, are the first n·size documents of the sorted matches. |
| Paging.AllPagesCoverMatches | src/main/java/com/example/productservice/service/ProductService.java:139-160 | Once n pages reach totalCount, the joined pages are the whole sorted list of matches: their length is totalCount and no document appears twice. |
| Paging.SlicesPrefix | src/main/java/com/example/productservice/service/ProductService.java:147-148 | Consecutive slices of `size` documents, joined, give a prefix of the list. |
| Scenarios.AddProductScenario | src/test/java/com/example/productservice/service/ProductServiceTest.java:51-72 | Adding the fixture product to "TestCategory" returns the store's id "productId". The stored document carries that id and the category name "testcategory", and it is the only document listed. |
| Scenarios.MissingAttributesScenario | src/test/java/com/example/productservice/service/ProductServiceTest.java:87-106 | Without the "brand" attribute the add is BAD_REQUEST "Missing required attributes for category: TestCategory", and nothing is saved. |
| Scenarios.CategoryNotFoundScenario | src/test/java/com/example/productservice/service/ProductServiceTest.java:74-85 | An unknown category is NOT_FOUND "Category name not found", and nothing is saved. |
| Scenarios.DeleteProductScenario | src/test/java/com/example/productservice/service/ProductServiceTest.java:174-195 | Deleting a stored id succeeds and the id is then gone. Deleting "nonExistentId" is NOT_FOUND with the id in the message. |
| Scenarios.ValidProduct | src/test/java/com/example/productservice/service/ProductServiceTest.java:210-226 | The fixture product has no id yet and carries the attribute keys "brand" and "price". |

## Left out

- Store failures are not modelled. A `DataAccessException` becomes "Some database error …" with INTERNAL_SERVER_ERROR at ProductService.java:54-55, 62-63, 72-73, 171-172, 188-189 and 205-206; a map cannot fail.
- The store's id generation is not modelled. It is the `freshId` parameter of `AddProduct`, required to be unused.
- The aggregation pipeline itself is not modelled: `$match`, `$facet`, `$project` and `arrayElementAt`. Neither is its atomic single-snapshot read, nor concurrency in general. Only the result is modelled.
- The debugging `System.out.println` at ProductService.java:140 is not modelled. It is output only.
- Search.KeywordHit: the keyword is matched as a case-insensitive literal substring. It is not a regular expression as in `regex(keyword, "i")`, because regex semantics belong to the store's engine.
- Text.ToLower: lower-casing and `equalsIgnoreCase` are ASCII-only. Locale and Unicode case mapping are not modelled.
- Paging.KeyOf: strings are ordered by character code. The store's own collation is not modelled.
- Paging.Before: the `_id` tie-breaker compares ids as strings by character code. The store compares `_id` as BSON values, and an id stored as an ObjectId (a generated one, or any 24-hex-digit string) sorts after every string-typed id; the model does not distinguish the two kinds.
- `price` is a real number, not a Java `double`. NaN, infinities and rounding are not modelled; only comparisons are made on it. `averageRating` is not modelled, because no core logic reads it.
- Sorting by `createdAt` gives the same empty key to every document, so the order falls back to the id. No `createdAt` field is set anywhere in the core, and the source of the Product entity is not part of this model, so whether it has such a field is unknown.
- Strings are never null in the model. An absent keyword, minPrice or maxPrice is `None`.
- `Result.totalCount` is a Java `int`, but the model counts with an unbounded `nat`. Overflow would need more than 2^31 matches.
- The `PageImpl` wrapper and its page metadata are not modelled. `SearchProducts` returns the page's documents and the total count.
- Java's `split` drops trailing empty segments; the model keeps them. Every empty segment is filtered out right afterwards, so the result is the same.
- Service.ProductService.AddProduct: the source sets the lower-cased category name on the caller's own `Product` object before the attribute test (ProductService.java:46), so the caller sees the change even on the BAD_REQUEST path, and `save` (ProductService.java:53) writes the generated id into that same object. The model treats the product as a value and changes only the stored copy; the argument is never changed. The one caller, ProductController.java:44-45, discards the object afterwards.
- Service.ProductService.SearchProducts: the pageable's sort is one order over the five whitelisted fields. A Spring `Sort` may be unsorted, hold several orders or name any property; the model does not capture those. The service never checks that the pageable's sort agrees with `sortBy` and `sortDirection`; the two agree in practice only because ProductController.java:78 builds the pageable from them.
- Service.ProductService.GetAllProducts: the store's find-all order is unspecified. The contract promises each document exactly once, in some order.
- CategoryService is not part of this model. Its lookup is the `categories` map, and its NOT_FOUND message is the one the service's tests use.
- The controller is not modelled.
  - Routing and the parameter defaults (ProductController.java:64-75) are not modelled. Of the controller, the model keeps two facts: the list parameters default to "", and `size` is positive (as `PageRequest.of` also demands), which is `SearchProducts`' `requires pageable.size >= 1`. The pageable's sort is a parameter of `SearchProducts`; the controller fills it from `sortBy` and `sortDirection`.
  - It calls `Sort.Direction.fromString` (ProductController.java:78) before the service runs. An invalid direction therefore fails there first. The model checks the direction only inside the service, as the service does.
  - Its `@Valid` check of the edit record is not modelled. `UpdateProduct` accepts any edit, as the service does; `Dto.IsValid` states the constraints.
- SecurityConfig is not modelled. It holds authentication and CORS configuration, with no logic of its own.
- The BAD_REQUEST message for an unknown sort field lists four options, but the check also accepts "createdAt". The model keeps both as written.
