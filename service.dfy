/** `ProductService`: the product collection as a map from id to document, the
    category lookup as a map from lower-case name to category, and the service's
    operations over them. */
module Service {
  import opened Wrappers
  import opened Text
  import opened Catalog
  import opened Dto
  import opened Search
  import opened Paging

  /** `docs` lists the stored documents: each one once, and nothing else. */
  ghost predicate IsEnumeration(docs: seq<Product>, products: map<string, Product>) {
    && DistinctIds(docs)
    && (forall p :: p in docs <==> p in products.Values)
  }

  lemma FirstTwoIds(docs: seq<Product>)
    ensures DistinctIds(docs) && |docs| >= 2 ==> IdKey(docs[0]) != IdKey(docs[1])
  {
  }

  /** A collection holding one document is listed as exactly that document. */
  lemma {:induction false} EnumerationOfSingle(docs: seq<Product>, id: string, doc: Product)
    requires doc.id == Some(id)
    requires IsEnumeration(docs, map[id := doc])
    ensures docs == [doc]
  {
    var m := map[id := doc];
    assert id in m && m[id] == doc;
    assert doc in m.Values;
    forall i | 0 <= i < |docs| ensures docs[i] == doc {
      assert docs[i] in docs;
    }
    FirstTwoIds(docs);
  }

  /** The NOT_FOUND message of the category lookup. */
  const CategoryNotFoundMessage: string := "Category name not found"

  function MissingAttributesMessage(c: Category): string {
    "Missing required attributes for category: " + c.name
  }

  function DeleteNotFoundMessage(id: string): string {
    "Cannot delete product with id: " + id + " as id does not exist"
  }

  const ProductIdNotFoundMessage: string := "id does not exist"

  const UpdateNotFoundMessage: string := "Product not found"

  function QuantityNotFoundMessage(productId: string): string {
    "Cannot get quantity as product id: " + productId + "does not exist"
  }

  class ProductService {
    /** The product collection: document id to document. */
    var products: map<string, Product>
    /** `CategoryService.getCategoryByName`: lower-case name to category. */
    const categories: map<string, Category>

    /** Every document is stored under its own id. */
    ghost predicate Valid()
      reads this
    {
      forall id :: id in products ==> products[id].id == Some(id)
    }

    /** Wires the service to a collection that may already hold documents and
        to the category lookup. */
    constructor (initial: map<string, Product>, categories: map<string, Category>)
      requires forall id :: id in initial ==> initial[id].id == Some(id)
      ensures Valid() && products == initial && this.categories == categories
    {
      this.categories := categories;
      products := initial;
    }

    /** `addProduct`: look the category up by its lower-cased name, file the product
        under that name, require every attribute the category demands, and save.
        A product without an id gets `freshId` from the store; one that carries an
        id replaces the document with that id. Nothing is saved on failure. */
    method AddProduct(product: Product, categoryName: string, freshId: string) returns (r: Result<string>)
      requires Valid()
      requires freshId !in products
      modifies this
      ensures Valid()
      ensures var name := ToLower(categoryName);
        name !in categories ==>
          r == Err(Error(NotFound, CategoryNotFoundMessage)) && products == old(products)
      ensures var name := ToLower(categoryName);
        name in categories && !HasRequiredAttributes(product, categories[name]) ==>
          r == Err(Error(BadRequest, MissingAttributesMessage(categories[name]))) && products == old(products)
      ensures var name := ToLower(categoryName);
        name in categories && HasRequiredAttributes(product, categories[name]) ==>
          var id := if product.id.Some? then product.id.value else freshId;
          r == Ok(id) && products == old(products)[id := product.(id := Some(id), categoryName := name)]
      ensures r.Ok? <==> ToLower(categoryName) in categories
                         && HasRequiredAttributes(product, categories[ToLower(categoryName)])
      ensures r.Ok? && product.id.None? ==>
        && r.value !in old(products)
        && products.Keys == old(products).Keys + {r.value}
        && forall id :: id in old(products) ==> products[id] == old(products)[id]
    {
      var lowerCaseCategoryName := ToLower(categoryName);
      if lowerCaseCategoryName !in categories {
        return Err(Error(NotFound, CategoryNotFoundMessage));
      }
      var category := categories[lowerCaseCategoryName];
      var filed := product.(categoryName := lowerCaseCategoryName);
      if !(category.requiredAttributes <= filed.attributes.Keys) {
        return Err(Error(BadRequest, MissingAttributesMessage(category)));
      }
      var id := if filed.id.Some? then filed.id.value else freshId;
      products := products[id := filed.(id := Some(id))];
      r := Ok(id);
    }

    /** `getAllProducts`: the store's find-all, a walk over the collection's keys. */
    method GetAllProducts() returns (all: seq<Product>)
      requires Valid()
      ensures IsEnumeration(all, products)
    {
      all := [];
      var remaining := products.Keys;
      ghost var visited: set<string> := {};
      while remaining != {}
        invariant remaining + visited == products.Keys && remaining !! visited
        invariant forall i :: 0 <= i < |all| ==> IdKey(all[i]) in visited && products[IdKey(all[i])] == all[i]
        invariant forall id :: id in visited ==> products[id] in all
        invariant DistinctIds(all)
        decreases remaining
      {
        var id :| id in remaining;
        var doc := products[id];
        assert IdKey(doc) == id;
        all := all + [doc];
        remaining := remaining - {id};
        visited := visited + {id};
      }
      forall p ensures p in all <==> p in products.Values {
        if p in products.Values {
          var id :| id in products && products[id] == p;
        }
      }
    }

    /** `deleteProduct`: remove the document; a delete count of 0 is NOT_FOUND. */
    method DeleteProduct(id: string) returns (r: Outcome)
      requires Valid()
      modifies this
      ensures Valid()
      ensures products == old(products) - {id}
      ensures id in old(products) ==> r == Pass
      ensures id !in old(products) ==> r == Fail(Error(NotFound, DeleteNotFoundMessage(id))) && products == old(products)
    {
      var deletedCount := if id in products then 1 else 0;
      products := products - {id};
      if deletedCount == 0 {
        r := Fail(Error(NotFound, DeleteNotFoundMessage(id)));
      } else {
        r := Pass;
      }
    }

    /** `searchProducts`: reject an unknown sort field, then a direction other than
        asc/desc in any letter case; otherwise split the list parameters, build
        the criteria, and page through the matches in the pageable's order. The
        page is the one any scan order of the collection would give. */
    method SearchProducts(keyword: Option<string>, category: string, minPrice: Option<real>,
                          maxPrice: Option<real>, sortBy: string, sortDirection: string,
                          boardSize: string, brand: string, pageable: Pageable)
      returns (r: Result<PagedResult>)
      requires Valid()
      requires pageable.size >= 1
      ensures !IsValidSortByField(sortBy) ==> r == Err(Error(BadRequest, InvalidSortByMessage(sortBy)))
      ensures IsValidSortByField(sortBy) && !IsValidDirection(sortDirection) ==>
        r == Err(Error(BadRequest, InvalidDirectionMessage))
      ensures IsValidSortByField(sortBy) && IsValidDirection(sortDirection) ==>
        && r.Ok?
        && forall docs :: IsEnumeration(docs, products) ==>
             r.value == ExecutePaged(docs,
                                     p => Matches(QueryOf(keyword, category, minPrice, maxPrice, boardSize, brand), p),
                                     pageable.sort, pageable.page, pageable.size)
    {
      if !IsValidSortByField(sortBy) {
        return Err(Error(BadRequest, InvalidSortByMessage(sortBy)));
      }
      if !IsValidDirection(sortDirection) {
        return Err(Error(BadRequest, InvalidDirectionMessage));
      }
      var q := QueryOf(keyword, category, minPrice, maxPrice, boardSize, brand);
      var matchCriteria := BuildCriteria(q);
      // the store sorts by the pageable's order, not by sortBy and sortDirection
      var order := pageable.sort;
      var page, size := pageable.page, pageable.size;
      // the aggregation's $match stage scans the whole collection
      var docs := GetAllProducts();
      var result := ExecutePaged(docs, p => Satisfies(matchCriteria, p), order, page, size);
      ExecutePagedExtensional(docs, p => Satisfies(matchCriteria, p), p => Matches(q, p), order, page, size);
      forall other | IsEnumeration(other, products)
        ensures result == ExecutePaged(other, p => Matches(q, p), order, page, size)
      {
        ExecutePagedIndependent(docs, other, p => Matches(q, p), order, page, size);
      }
      r := Ok(result);
    }

    /** `getProductById`: the stored document, or NOT_FOUND. */
    method GetProductById(id: string) returns (r: Result<Product>)
      ensures id in products ==> r == Ok(products[id])
      ensures id !in products ==> r == Err(Error(NotFound, ProductIdNotFoundMessage))
    {
      if id in products {
        r := Ok(products[id]);
      } else {
        r := Err(Error(NotFound, ProductIdNotFoundMessage));
      }
    }

    /** `updateProduct`: overwrite name, price, quantity and description of the
        stored document and save it back under its id; NOT_FOUND otherwise. */
    method UpdateProduct(id: string, productData: ProductEditDto) returns (r: Outcome)
      requires Valid()
      modifies this
      ensures Valid()
      ensures id in old(products) ==>
        r == Pass && products == old(products)[id := ApplyEdit(old(products)[id], productData)]
      ensures id !in old(products) ==>
        r == Fail(Error(NotFound, UpdateNotFoundMessage)) && products == old(products)
    {
      if id !in products {
        return Fail(Error(NotFound, UpdateNotFoundMessage));
      }
      var product := ApplyEdit(products[id], productData);
      // save: upsert under the document's own id
      products := products[product.id.value := product];
      r := Pass;
    }

    /** `getAvailableQuantity`: the stored document's quantity, or NOT_FOUND. */
    method GetAvailableQuantity(productId: string) returns (r: Result<Int32>)
      ensures productId in products ==> r == Ok(products[productId].availableQuantity)
      ensures productId !in products ==> r == Err(Error(NotFound, QuantityNotFoundMessage(productId)))
    {
      if productId !in products {
        return Err(Error(NotFound, QuantityNotFoundMessage(productId)));
      }
      var product := products[productId];
      r := Ok(product.availableQuantity);
    }
  }
}
