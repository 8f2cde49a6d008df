/**
 * The product use cases: lookups with their two failures, listing, and
 * creation that validates through the entity before it saves. The fresh id
 * (`crypto.randomUUID()`) and the current time (`new Date()`) are inputs.
 */
module UseCases {
  import opened Results
  import opened Errors
  import opened Text
  import opened Entity
  import opened Repository

  /** The command the controller builds from the request body. */
  datatype CreateProduct = CreateProduct(name: string, price: real, description: string)

  predicate IsLowerHex(c: char)
  {
    '0' <= c <= '9' || 'a' <= c <= 'f'
  }

  /**
   * The shape of what `crypto.randomUUID()` returns: a version 4 UUID in its
   * 36-character textual form (section 4 of RFC 9562), lower-case hex digits
   * in groups of 8-4-4-4-12, the version digit 4 and a variant digit of 8-b.
   */
  predicate IsUuid(s: string)
  {
    && |s| == 36
    && (forall i :: 0 <= i < |s| ==>
          if i == 8 || i == 13 || i == 18 || i == 23 then s[i] == '-' else IsLowerHex(s[i]))
    && s[14] == '4'
    && s[19] in "89ab"
  }

  /** A generated id always passes the id check of getProductById. */
  lemma UuidIsNotBlank(s: string)
    requires IsUuid(s)
    ensures !AllWhitespace(s)
  {
    assert IsLowerHex(s[0]);
  }

  /** What `getProductById(id)` yields against a store holding `products`. */
  function GetProductByIdIn(products: map<string, Product>, id: string): (r: Result<Product, Error>)
    ensures AllWhitespace(id) ==> r == Err(EmptyId)
    ensures !AllWhitespace(id) && id !in products ==> r == Err(NotFound)
    ensures !AllWhitespace(id) && id in products ==> r == Ok(products[id])
  {
    if IsBlank(id) then Err(EmptyId)
    else if id !in products then Err(NotFound)
    else Ok(products[id])
  }

  /**
   * What `createProduct(command)` yields, and the store's entries after it,
   * when the fresh id is `id` and the clock reads `now`.
   */
  function CreateProductIn(products: map<string, Product>, command: CreateProduct,
                           id: string, now: Timestamp): (r: (Result<Product, Error>, map<string, Product>))
    ensures AllWhitespace(command.name) ==> r.0 == Err(EmptyName)
    ensures !AllWhitespace(command.name) && command.price <= 0.0 ==> r.0 == Err(NonPositivePrice)
    ensures r.0.Ok? <==> !AllWhitespace(command.name) && command.price > 0.0
    ensures r.0.Ok? ==> r.0.value == Product(id, command.name, command.price, command.description, now, now)
    ensures r.0.Err? ==> r.1 == products
    ensures r.0.Ok? ==> r.1 == products[id := r.0.value]
  {
    var created := NewProduct(id, command.name, command.price, command.description, now, now);
    if created.Err? then (created, products) else (created, products[id := created.value])
  }

  /** Round trip: a product just created is found again under the id it was given. */
  lemma CreateThenGet(products: map<string, Product>, command: CreateProduct, id: string, now: Timestamp)
    requires IsUuid(id)
    ensures var (r, after) := CreateProductIn(products, command, id, now);
            r.Ok? ==> GetProductByIdIn(after, r.value.id) == r
  {
    UuidIsNotBlank(id);
  }

  /** Creating under an id not yet stored adds exactly one entry and keeps all others. */
  lemma CreateWithFreshIdAddsOne(products: map<string, Product>, command: CreateProduct, id: string, now: Timestamp)
    requires id !in products
    ensures var (r, after) := CreateProductIn(products, command, id, now);
            r.Ok? ==> && |after| == |products| + 1
                      && forall k :: k in products ==> k in after && after[k] == products[k]
  {
  }

  /** Creating under an id already stored replaces that entry and nothing else. */
  lemma CreateWithTakenIdReplaces(products: map<string, Product>, command: CreateProduct, id: string, now: Timestamp)
    requires id in products
    ensures var (r, after) := CreateProductIn(products, command, id, now);
            r.Ok? ==> && |after| == |products| && after[id] == r.value
                      && forall k :: k in products && k != id ==> after[k] == products[k]
  {
  }

  /** A blank id is rejected whatever the store holds. */
  lemma BlankIdIgnoresStore(products: map<string, Product>, others: map<string, Product>, id: string)
    requires AllWhitespace(id)
    ensures GetProductByIdIn(products, id) == GetProductByIdIn(others, id) == Err(EmptyId)
  {
  }

  class ProductService {
    /** The injected repository; only the in-memory implementation exists. */
    const repository: ProductStore

    constructor (repository: ProductStore)
      ensures this.repository == repository
    {
      this.repository := repository;
    }

    /**
     * `getProductById`: a blank id fails before the repository is asked; a
     * missing entry fails with the message the controller maps to 404.
     */
    method GetProductById(id: string) returns (r: Result<Product, Error>)
      requires repository.Valid()
      ensures r == GetProductByIdIn(repository.products, id)
      ensures r.Ok? ==> r.value.id == id && r.value.Valid()
    {
      if IsBlank(id) {
        return Err(EmptyId);
      }
      var found := repository.FindById(id);
      if found.None? {
        return Err(NotFound);
      }
      return Ok(found.value);
    }

    /** `getAllProducts`: the repository's `findAll` list, unfiltered and in its order. */
    method GetAllProducts() returns (all: seq<Product>)
      requires repository.Valid()
      ensures |all| == |repository.keys| == |repository.products|
      ensures forall i :: 0 <= i < |all| ==> all[i] == repository.products[repository.keys[i]]
    {
      all := repository.FindAll();
    }

    /**
     * `createProduct`: build the entity (which validates) and only then save
     * it, so a rejected command leaves the store as it was.
     */
    method CreateProduct(command: CreateProduct, id: string, now: Timestamp) returns (r: Result<Product, Error>)
      requires repository.Valid()
      modifies repository
      ensures repository.Valid()
      ensures (r, repository.products) == CreateProductIn(old(repository.products), command, id, now)
      ensures repository.keys ==
                if r.Ok? && id !in old(repository.products) then old(repository.keys) + [id]
                else old(repository.keys)
    {
      var created := NewProduct(id, command.name, command.price, command.description, now, now);
      if created.Err? {
        return created;
      }
      repository.Save(created.value);
      r := created;
    }
  }
}
