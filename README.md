# Product catalogue core, modelled in Dafny

The modelled service keeps products in memory and offers create and read
operations. Its logic sits in three layers, and each layer has its own module
here:

- **Entity** (`entity.dfy`). `Product` is an immutable record: id, name, price,
  description, createdAt and updatedAt. It cannot be built with a blank name
  or a price that is not positive. The name is checked first. Its discount
  calculation rejects percentages outside [0, 100] and otherwise takes that
  percentage off the price.
- **Repository** (`repository.dfy`). `ProductStore` is the in-memory table,
  a class whose `products` map is updated in place. `Save` is an upsert by id.
  `FindById` returns the entry or nothing. `FindAll` returns every stored value.
  A JavaScript `Map` lists its values in the order their keys were first
  inserted, so the class also keeps that order in a `keys` field. The
  constructor seeds the demo products 'Product 1' (price 100) and 'Product 2'
  (price 200).
- **Use cases** (`use_cases.dfy`). `ProductService` rejects a blank id with
  "Product ID cannot be empty". It rejects a missing product with
  "Product not found". It lists products through the repository. It creates a
  product by building the entity, saving it, and returning it. The generated
  id and the current time are parameters. `GetProductByIdIn` and
  `CreateProductIn` specify the two use cases as functions over the table. The
  lemmas beside them prove the round trip, the growth by one entry, the
  replacement on an id collision, and that a blank id is rejected whatever the
  store holds.

Supporting modules:

- `results.dfy` holds `Option` (for `T | null`) and `Result` (for thrown errors).
- `errors.dfy` has one variant per error the core throws, each carrying its
  exact message.
- `text.dfy` gives ECMAScript white space and `trim`. The guard
  `!s || s.trim().length === 0` is proved to hold exactly when every
  character of `s` is white space.

Prices, percentages and discounted prices are `real`. Timestamps are integers
(the milliseconds a `Date` holds).

## Model

| member | source | states |
|---|---|---|
| Text.TrimStart | src/core/domain/entities/product.entity.ts:18 | the result is a suffix of the input, everything removed is white space, and it starts with a non-white-space character or is empty |
| Text.TrimEnd | src/core/domain/entities/product.entity.ts:18 | the result is a prefix of the input, everything removed is white space, and it ends with a non-white-space character or is empty |
| Text.Trim | src/core/domain/entities/product.entity.ts:18 | `s.trim()` is a contiguous part of `s` with white space at neither end, and everything cut off before and after it is white space (the same call is made at src/core/application/use-cases/product.service.ts:40) |
| Text.TrimEmptyIffAllWhitespace | src/core/domain/entities/product.entity.ts:18 | `s.trim()` is empty exactly when every character of `s` is white space |
| Text.IsBlank | src/core/domain/entities/product.entity.ts:18 | the guard `!s \|\| s.trim().length === 0` holds exactly when `s` is all white space (the empty string included) |
| Errors.Error.Message | src/core/domain/entities/product.entity.ts:19-30 | each variant's message is the exact string its throw site passes to `new Error` (also src/core/application/use-cases/product.service.ts:41 and :47); only NotFound reads "Product not found", the text the controller tests |
| Errors.MessageIdentifiesError | src/presentation/controllers/product.controller.ts:45 | two errors have the same message exactly when they are the same error, so only a not-found failure carries "Product not found" |
| Entity.NewProduct | src/core/domain/entities/product.entity.ts:9-25 | a blank name fails with EmptyName even when the price is also bad; a non-blank name with price <= 0 (0 included) fails with NonPositivePrice; otherwise construction succeeds, the product is valid and every field equals its argument |
| Entity.Product.CalculateDiscountedPrice | src/core/domain/entities/product.entity.ts:28-33 | fails with DiscountOutOfRange exactly when the percentage is below 0 or above 100; otherwise the amount taken off is that percentage of the price |
| Entity.DiscountedPriceWithinPrice | src/core/domain/entities/product.entity.ts:32 | for a valid product and a percentage in [0, 100] the discounted price lies in [0, price] |
| Entity.DiscountedPriceAtBounds | src/core/domain/entities/product.entity.ts:29-32 | both bounds are accepted: 0 percent returns the price and 100 percent returns 0 |
| Entity.DiscountedPriceMonotone | src/core/domain/entities/product.entity.ts:32 | a larger percentage never gives a higher discounted price |
| Repository.DistinctCount | src/infrastructure/database/repositories/product.orm.repository.ts:48 | a key order without duplicates has as many distinct keys as entries |
| Repository.ProductStore.SizeIsKeyCount | src/infrastructure/database/repositories/product.orm.repository.ts:15 | the number of entries equals the length of the key order |
| Repository.SeedConstructionSucceeds | src/infrastructure/database/repositories/product.orm.repository.ts:19-34 | the two demo `new Product(...)` calls pass validation and yield exactly the products they describe, so the constructor never throws |
| Repository.TwoInsertionsWellFormed | src/infrastructure/database/repositories/product.orm.repository.ts:35-36 | setting two valid products into an empty Map gives a well-formed store, one key when the ids coincide and two otherwise |
| Repository.ProductStore.constructor | src/infrastructure/database/repositories/product.orm.repository.ts:17-36 | the store holds 'Product 1' at price 100 under the first id, then 'Product 2' at price 200 under the second; two entries when the ids differ, and the second overwrites the first when they are equal |
| Repository.ProductStore.FindById | src/infrastructure/database/repositories/product.orm.repository.ts:40-45 | returns a product exactly when `id` is a key, and then it is the stored product and its id is `id`; the store is not modified |
| Repository.ProductStore.FindAll | src/infrastructure/database/repositories/product.orm.repository.ts:46-50 | returns one element per key in insertion order; its length is the number of entries, each element is stored under its own id, and every stored product appears; the store is not modified |
| Repository.ProductStore.Save | src/infrastructure/database/repositories/product.orm.repository.ts:51-56 | upsert: the entry under `product.id` becomes `product`; a known id keeps the size and the key order, a new id grows the store by one and is appended to the order; no other entry changes; the store invariant is kept |
| UseCases.UuidIsNotBlank | src/core/application/use-cases/product.service.ts:73 | an id in the form `crypto.randomUUID()` returns always passes the id check |
| UseCases.GetProductByIdIn | src/core/application/use-cases/product.service.ts:38-51 | a blank id fails with EmptyId; otherwise a missing id fails with NotFound; otherwise the stored product is returned unchanged |
| UseCases.BlankIdIgnoresStore | src/core/application/use-cases/product.service.ts:40-42 | a blank id fails with EmptyId whatever the store holds |
| UseCases.CreateProductIn | src/core/application/use-cases/product.service.ts:69-85 | the entity's name and price errors pass through unchanged and then the store is untouched; on success the product carries the command's name, price and description, the fresh id, and createdAt == updatedAt == now, and the store gains or replaces exactly that entry |
| UseCases.CreateThenGet | src/core/application/use-cases/product.service.ts:78-84 | round trip: after a successful create with a generated id, looking that id up returns the created product |
| UseCases.CreateWithFreshIdAddsOne | src/core/application/use-cases/product.service.ts:82 | creating under an id not yet stored adds exactly one entry and keeps every other entry |
| UseCases.CreateWithTakenIdReplaces | src/core/application/use-cases/product.service.ts:82 | creating under an id already stored keeps the size and replaces only that entry |
| UseCases.ProductService.constructor | src/core/application/use-cases/product.service.ts:28-31 | the service holds the repository it is given |
| UseCases.ProductService.GetProductById | src/core/application/use-cases/product.service.ts:38-51 | the result is the one GetProductByIdIn gives for the repository's table; a found product is valid and has the requested id |
| UseCases.ProductService.GetAllProducts | src/core/application/use-cases/product.service.ts:58-61 | returns the repository's values in its key order, with none filtered out or reordered |
| UseCases.ProductService.CreateProduct | src/core/application/use-cases/product.service.ts:69-85 | result and new table are those CreateProductIn gives; a new id is appended to the key order only on success; the repository invariant is kept |

## Left out

- Controller and DTOs: the HTTP status mapping, class-validator decorators and ISO-8601 formatting are framework behaviour. The exact messages are kept, so the controller's test for "Product not found" can be checked against `Errors.MessageIdentifiesError`.
- Module wiring: dependency injection becomes a plain constructor parameter of `ProductService`.
- The repository interface: the model has a single concrete `ProductStore` class and no abstract interface, because only one implementation exists.
- Randomness and the clock: `crypto.randomUUID()` and `new Date()` become parameters. That generated ids are unique is an assumption. The model does not prove it, so a repeated id is covered as a replacement (`CreateWithTakenIdReplaces`).
- Promises and `await`: every operation resolves at once, so the methods are synchronous.
- Logging: `console.log` has no effect on the data.
- Entity.Product.CalculateDiscountedPrice: computes over exact reals, not IEEE-754 doubles, so rounding is not modelled.
- Entity.NewProduct: a NaN or +Infinity price passes the source's `price <= 0` test, and reals can represent neither. The same holds for a NaN percentage in the discount check. For an Infinity price, `calculateDiscountedPrice(100)` gives Infinity times 0, which is NaN, where `DiscountedPriceAtBounds` states 0 for every real price.
- Strings: JavaScript strings are sequences of UTF-16 code units and may hold lone surrogates, while a Dafny `char` is a Unicode scalar value, so such strings are not modelled.
- Entity.NewProduct: a `null` or `undefined` name is not modelled; the typed signature rules it out, and `!name` only adds the empty string.
- Object identity: the store holds references, and `createProduct` passes the same `Date` object as both createdAt and updatedAt. A datatype has value semantics, so neither aliasing nor later mutation of a `Date` is modelled.
- Order of `findAll`: the code returns values in the order their keys were first inserted, so the model keeps that order and does not treat it as unspecified.
