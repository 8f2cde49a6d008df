/**
 * The in-memory product store: a `Map<string, Product>` keyed by product id,
 * updated in place. A JavaScript Map remembers the order in which its keys
 * were first inserted and `values()` follows it; `keys` keeps that order.
 */
module Repository {
  import opened Results
  import opened Text
  import opened Entity

  /** No key occurs twice. */
  ghost predicate Distinct(keys: seq<string>)
  {
    forall i, j :: 0 <= i < j < |keys| ==> keys[i] != keys[j]
  }

  /** A duplicate-free sequence has as many distinct elements as entries. */
  lemma {:induction false} DistinctCount(keys: seq<string>)
    requires Distinct(keys)
    ensures |set k | k in keys| == |keys|
  {
    if keys != [] {
      var rest := keys[1..];
      assert Distinct(rest) by {
        forall i, j | 0 <= i < j < |rest| ensures rest[i] != rest[j] {
          assert rest[i] == keys[i + 1] && rest[j] == keys[j + 1];
        }
      }
      DistinctCount(rest);
      assert keys[0] !in rest by {
        forall i | 0 <= i < |rest| ensures rest[i] != keys[0] {
          assert rest[i] == keys[i + 1];
        }
      }
      assert (set k | k in keys) == {keys[0]} + (set k | k in rest) by {
        assert keys == [keys[0]] + rest;
      }
    }
  }

  /**
   * The store's invariant: every entry is stored under its own id and is a
   * valid product; the insertion order lists each key exactly once.
   */
  ghost predicate WellFormed(keys: seq<string>, products: map<string, Product>)
  {
    && Distinct(keys)
    && (forall k :: k in products <==> k in keys)
    && (forall k :: k in products ==> products[k].id == k && products[k].Valid())
  }

  /** Inserting two valid products into an empty Map yields a well-formed store. */
  lemma TwoInsertionsWellFormed(p1: Product, p2: Product)
    requires p1.Valid() && p2.Valid()
    ensures WellFormed(if p1.id == p2.id then [p1.id] else [p1.id, p2.id],
                       map[p1.id := p1][p2.id := p2])
  {
  }

  /**
   * The two `new Product(...)` calls of the seeding constructor never throw
   * and yield exactly the records they describe. This is what justifies the
   * constructor building the demo products directly instead of going through
   * `NewProduct`.
   */
  lemma SeedConstructionSucceeds(id: string, createdAt: Timestamp, updatedAt: Timestamp)
    ensures NewProduct(id, "Product 1", 100.0, "Description for product 1", createdAt, updatedAt)
            == Ok(Product(id, "Product 1", 100.0, "Description for product 1", createdAt, updatedAt))
    ensures NewProduct(id, "Product 2", 200.0, "Description for product 2", createdAt, updatedAt)
            == Ok(Product(id, "Product 2", 200.0, "Description for product 2", createdAt, updatedAt))
  {
    assert !IsWhitespace("Product 1"[0]) && !IsWhitespace("Product 2"[0]);
  }

  class ProductStore {
    /** The Map's entries. */
    var products: map<string, Product>
    /** The Map's keys in insertion order. */
    var keys: seq<string>

    /** The store's invariant, over its fields. */
    ghost predicate Valid()
      reads this
    {
      WellFormed(keys, products)
    }

    /** The store holds exactly as many entries as its key order lists. */
    lemma SizeIsKeyCount()
      requires Valid()
      ensures |products| == |keys|
    {
      DistinctCount(keys);
      assert products.Keys == set k | k in keys;
    }

    /**
     * The seeding constructor: 'Product 1' (price 100) then 'Product 2'
     * (price 200), under two generated ids; the dates are the four
     * `new Date()` values the source reads.
     */
    constructor (id1: string, id2: string,
                 created1: Timestamp, updated1: Timestamp,
                 created2: Timestamp, updated2: Timestamp)
      ensures Valid()
      ensures products == map[id1 := Product(id1, "Product 1", 100.0, "Description for product 1", created1, updated1)]
                            [id2 := Product(id2, "Product 2", 200.0, "Description for product 2", created2, updated2)]
      ensures keys == if id1 == id2 then [id1] else [id1, id2]
      ensures id1 != id2 ==> |products| == 2
    {
      var p1 := Product(id1, "Product 1", 100.0, "Description for product 1", created1, updated1);
      var p2 := Product(id2, "Product 2", 200.0, "Description for product 2", created2, updated2);
      assert !IsWhitespace(p1.name[0]) && !IsWhitespace(p2.name[0]);
      TwoInsertionsWellFormed(p1, p2);
      products := map[id1 := p1][id2 := p2];
      keys := if id1 == id2 then [id1] else [id1, id2];
    }

    /** `findById`: the entry stored under `id`, or nothing when there is none. */
    method FindById(id: string) returns (r: Option<Product>)
      requires Valid()
      ensures r.Some? <==> id in products
      ensures r.Some? ==> r.value == products[id] && r.value.id == id
    {
      if id in products {
        r := Some(products[id]);
      } else {
        r := None;
      }
    }

    /**
     * `findAll` (`Array.from(products.values())`): one element per key, in
     * insertion order, so every stored product appears exactly once.
     */
    method FindAll() returns (all: seq<Product>)
      requires Valid()
      ensures |all| == |keys| == |products|
      ensures forall i :: 0 <= i < |all| ==> all[i] == products[keys[i]]
      ensures forall i :: 0 <= i < |all| ==> all[i].id in products && products[all[i].id] == all[i]
      ensures forall k :: k in products ==> products[k] in all
    {
      SizeIsKeyCount();
      all := [];
      for n := 0 to |keys|
        invariant |all| == n
        invariant forall i :: 0 <= i < n ==> all[i] == products[keys[i]]
      {
        all := all + [products[keys[n]]];
      }
      forall k | k in products ensures products[k] in all {
        var i :| 0 <= i < |keys| && keys[i] == k;
        assert all[i] == products[k];
      }
    }

    /**
     * `save`: an upsert by id. A new id is appended to the key order and
     * grows the store by one; a known id keeps its place and its entry is
     * replaced. No other entry changes.
     */
    method Save(product: Product)
      requires Valid() && product.Valid()
      modifies this
      ensures Valid()
      ensures products == old(products)[product.id := product]
      ensures keys == if product.id in old(products) then old(keys) else old(keys) + [product.id]
      ensures |products| == if product.id in old(products) then old(|products|) else old(|products|) + 1
      ensures forall k :: k != product.id ==> (k in products <==> k in old(products))
      ensures forall k :: k != product.id && k in products ==> products[k] == old(products)[k]
    {
      if product.id !in products {
        keys := keys + [product.id];
      }
      products := products[product.id := product];
    }
  }
}
