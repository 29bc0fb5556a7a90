/** The service's unit tests restated as verified client methods of `ProductService`:
    a category "TestCategory" requiring the attribute keys "brand" and "price". */
module Scenarios {
  import opened Wrappers
  import opened Text
  import opened Catalog
  import opened Service

  /** The product every test starts from; it carries no id yet. */
  function ValidProduct(): (p: Product)
    ensures p.id.None? && p.attributes.Keys == {"brand", "price"}
  {
    Product(None, "ValidProductName", "ValidBrand", 20.0, 10, "Product description",
            "TestCategory", ["image1.jpg", "image2.jpg"], {"tag1", "tag2"}, "Large",
            map["brand" := "ValidBrand", "price" := "20.0"])
  }

  function TestCategory(): Category {
    Category("TestCategory", {"brand", "price"})
  }

  lemma LowerTestCategory()
    ensures ToLower("TestCategory") == "testcategory"
  {
    var s, t := "TestCategory", "testcategory";
    forall i | 0 <= i < |s| ensures LowerChar(s[i]) == t[i] {
    }
    LowerAll(s, t);
  }

  /** Adding the valid product returns the id the store assigned; the stored
      document carries that id and the lower-cased category name, and it is the
      only document listed. */
  method AddProductScenario() returns (added: Result<string>, fetched: Result<Product>, all: seq<Product>)
    ensures added == Ok("productId")
    ensures fetched.Ok? && fetched.value.id == Some("productId")
            && fetched.value.categoryName == "testcategory"
    ensures |all| == 1 && all[0].name == "ValidProductName"
  {
    LowerTestCategory();
    var svc := new ProductService(map[], map["testcategory" := TestCategory()]);
    added := svc.AddProduct(ValidProduct(), "TestCategory", "productId");
    fetched := svc.GetProductById("productId");
    assert svc.products == map["productId" := svc.products["productId"]];
    all := svc.GetAllProducts();
    EnumerationOfSingle(all, "productId", svc.products["productId"]);
  }

  /** Dropping "brand" from the attributes is a BAD_REQUEST naming the category,
      and nothing is saved. */
  method MissingAttributesScenario() returns (missing: Result<string>, fetched: Result<Product>)
    ensures missing == Err(Error(BadRequest, "Missing required attributes for category: " + TestCategory().name))
    ensures fetched == Err(Error(NotFound, "id does not exist"))
  {
    LowerTestCategory();
    var svc := new ProductService(map[], map["testcategory" := TestCategory()]);
    var noBrand := ValidProduct().(attributes := map["price" := "20.0"]);
    assert "brand" !in noBrand.attributes.Keys;
    missing := svc.AddProduct(noBrand, "TestCategory", "productId");
    fetched := svc.GetProductById("productId");
  }

  /** A category the lookup does not know is NOT_FOUND, and nothing is saved. */
  method CategoryNotFoundScenario() returns (unknown: Result<string>, fetched: Result<Product>)
    ensures unknown == Err(Error(NotFound, "Category name not found"))
    ensures fetched == Err(Error(NotFound, "id does not exist"))
  {
    LowerTestCategory();
    var svc := new ProductService(map[], map[]);
    unknown := svc.AddProduct(ValidProduct(), "TestCategory", "productId");
    fetched := svc.GetProductById("productId");
  }

  /** Deleting a stored id succeeds and removes it; deleting an unknown id is
      NOT_FOUND with the id in the message. */
  method DeleteProductScenario() returns (deleted: Outcome, afterDelete: Result<Product>, notFound: Outcome)
    ensures deleted == Pass
    ensures afterDelete == Err(Error(NotFound, "id does not exist"))
    ensures notFound == Fail(Error(NotFound, "Cannot delete product with id: " + "nonExistentId" + " as id does not exist"))
  {
    LowerTestCategory();
    var svc := new ProductService(map[], map["testcategory" := TestCategory()]);
    var p := ValidProduct();
    assert HasRequiredAttributes(p, TestCategory());
    var id := svc.AddProduct(p, "TestCategory", "testId");
    assert "testId" in svc.products;
    deleted := svc.DeleteProduct("testId");
    assert "testId" !in svc.products;
    afterDelete := svc.GetProductById("testId");
    assert "nonExistentId" !in svc.products;
    notFound := svc.DeleteProduct("nonExistentId");
  }
}
