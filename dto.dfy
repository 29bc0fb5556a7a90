/** `ProductEditDTO`: the four fields an edit may change, and the declarative
    constraints the request-body validation enforces on them. */
module Dto {
  import opened Text
  import opened Catalog

  datatype ProductEditDto = ProductEditDto(
    name: string,
    price: real,
    availableQuantity: Int32,
    description: string)

  /** `@NotBlank name`, `@Min(0) price`, `@Min(0) availableQuantity`, `@NotBlank description`. */
  predicate IsValid(e: ProductEditDto) {
    && NotBlank(e.name)
    && e.price >= 0.0
    && e.availableQuantity >= 0
    && NotBlank(e.description)
  }

  /** What each constraint means character by character: a valid edit has a name
      and a description each holding a character above space, and a price and a
      quantity that are not negative. */
  lemma IsValidIff(e: ProductEditDto)
    ensures IsValid(e) <==>
      && (exists i :: 0 <= i < |e.name| && !IsTrimmed(e.name[i]))
      && e.price >= 0.0
      && e.availableQuantity >= 0
      && (exists i :: 0 <= i < |e.description| && !IsTrimmed(e.description[i]))
  {
    NotBlankIff(e.name);
    NotBlankIff(e.description);
  }

  /** The record after the four setters of an edit: name, price, quantity and
      description come from the edit, and every other field is the old one. */
  function ApplyEdit(p: Product, e: ProductEditDto): (q: Product)
    ensures q.name == e.name && q.price == e.price
    ensures q.availableQuantity == e.availableQuantity && q.description == e.description
    ensures q.(name := p.name, price := p.price,
               availableQuantity := p.availableQuantity, description := p.description) == p
  {
    p.(name := e.name, price := e.price,
       availableQuantity := e.availableQuantity, description := e.description)
  }
}
