/** The two stored entities: a product document and the category record that
    says which attribute keys a product of that category must carry. */
module Catalog {
  import opened Wrappers

  /** Java's 32-bit `int` / `Integer`. */
  newtype Int32 = x: int | -0x8000_0000 <= x < 0x8000_0000

  /** A product document. `id` is `None` until the store assigns one; the store's
      documents always carry `Some(key)`. `price` is a Java `double`, kept here
      as a real number: only comparisons are made on it. */
  datatype Product = Product(
    id: Option<string>,
    name: string,
    brand: string,
    price: real,
    availableQuantity: Int32,
    description: string,
    categoryName: string,
    images: seq<string>,
    tags: set<string>,
    boardSize: string,
    attributes: map<string, string>)

  /** A category: its name and the attribute keys its products must supply. */
  datatype Category = Category(name: string, requiredAttributes: set<string>)

  /** `productAttributes.keySet().containsAll(requiredAttributes)`. */
  predicate HasRequiredAttributes(p: Product, c: Category) {
    c.requiredAttributes <= p.attributes.Keys
  }

  /** The key a document is stored under: its id, or "" for a document without one. */
  function IdKey(p: Product): string {
    p.id.GetOr("")
  }
}
