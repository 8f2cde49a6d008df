/**
 * The Product entity: an immutable record that cannot be built with a blank
 * name or a non-positive price, and its discount calculation.
 */
module Entity {
  import opened Results
  import opened Errors
  import opened Text

  /** A `Date`, as the milliseconds since the epoch that it holds. */
  type Timestamp = int

  /** Every field of the source class is `readonly`; a datatype value never changes. */
  datatype Product = Product(
    id: string,
    name: string,
    price: real,
    description: string,
    createdAt: Timestamp,
    updatedAt: Timestamp)
  {
    /** What the constructor guarantees of every Product that exists. */
    predicate Valid()
    {
      !AllWhitespace(name) && price > 0.0
    }

    /**
     * `calculateDiscountedPrice`: both bounds of [0, 100] are accepted; the
     * discount taken off is `percentage` percent of the price.
     */
    function CalculateDiscountedPrice(percentage: real): (r: Result<real, Error>)
      ensures r.Err? <==> percentage < 0.0 || percentage > 100.0
      ensures r.Err? ==> r.error == DiscountOutOfRange
      ensures r.Ok? ==> price - r.value == price * percentage / 100.0
    {
      if percentage < 0.0 || percentage > 100.0 then Err(DiscountOutOfRange)
      else Ok(price * (1.0 - percentage / 100.0))
    }
  }

  /**
   * `new Product(...)`: the name is checked first, then the price; on success
   * every field holds its argument unchanged.
   */
  function NewProduct(
    id: string, name: string, price: real, description: string,
    createdAt: Timestamp, updatedAt: Timestamp): (r: Result<Product, Error>)
    ensures AllWhitespace(name) ==> r == Err(EmptyName)
    ensures !AllWhitespace(name) && price <= 0.0 ==> r == Err(NonPositivePrice)
    ensures r.Ok? <==> !AllWhitespace(name) && price > 0.0
    ensures r.Ok? ==> r.value.Valid()
    ensures r.Ok? ==> && r.value.id == id && r.value.name == name && r.value.price == price
                      && r.value.description == description
                      && r.value.createdAt == createdAt && r.value.updatedAt == updatedAt
  {
    if IsBlank(name) then Err(EmptyName)
    else if price <= 0.0 then Err(NonPositivePrice)
    else Ok(Product(id, name, price, description, createdAt, updatedAt))
  }

  /** For a valid product the discounted price lies between 0 and the full price. */
  lemma DiscountedPriceWithinPrice(p: Product, percentage: real)
    requires p.Valid() && 0.0 <= percentage <= 100.0
    ensures var r := p.CalculateDiscountedPrice(percentage);
            r.Ok? && 0.0 <= r.value <= p.price
  {
    var f := 1.0 - percentage / 100.0;
    assert 0.0 <= f <= 1.0;
    assert p.price * f <= p.price * 1.0;
  }

  /** No discount keeps the price; a full discount makes it zero. */
  lemma DiscountedPriceAtBounds(p: Product)
    ensures p.CalculateDiscountedPrice(0.0) == Ok(p.price)
    ensures p.CalculateDiscountedPrice(100.0) == Ok(0.0)
  {
  }

  /** A larger percentage never gives a higher price. */
  lemma DiscountedPriceMonotone(p: Product, a: real, b: real)
    requires p.Valid() && 0.0 <= a <= b <= 100.0
    ensures p.CalculateDiscountedPrice(b).value <= p.CalculateDiscountedPrice(a).value
  {
    var fa, fb := 1.0 - a / 100.0, 1.0 - b / 100.0;
    ScaleMonotone(p.price, fb, fa);
  }

  lemma ScaleMonotone(x: real, a: real, b: real)
    requires x > 0.0 && a <= b
    ensures x * a <= x * b
  {
    assert x * b - x * a == x * (b - a);
  }
}
