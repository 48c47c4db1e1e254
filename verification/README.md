# Product store — a Dafny model

This project models the core of a small NestJS CRUD service for one entity,
`Product`: the in-memory store behind `ProductsService`. The store keeps the
live records in creation order together with an id counter that starts at 1.
It offers five operations:

- `create` hands out the next id, echoes the four input fields, stamps both
  timestamps and appends the record.
- `findAll` lists every live record, oldest first.
- `findOne` returns the record with an id, or fails with not-found.
- `update` merges a partial input into a record, refreshes `updatedAt` and
  keeps `id` and `createdAt`.
- `remove` deletes a record and returns `{ message: "Product with ID <id> has been deleted" }`.

A missing id makes `findOne`, `update` and `remove` fail with `NotFound(id)`,
whose text is `"Product with ID <id> not found"`.

The model is functional. A `Store` is an immutable value
(`records: seq<Product>`, `nextId: nat`), and every operation is a pure
function returning the next store, or a `Result` whose error is `NotFound`.
Timestamps are `nat` ticks. Clock readings are parameters:

- `create` takes two readings, because the entity constructor reads the clock
  once for `createdAt` and then once for `updatedAt`.
- `update` takes one reading.

Price and stock are `real`, because the validator accepts any finite positive
number.

Files, one module each:

- `wrappers.dfy` (`Wrappers`): `Option` and `Result`.
- `decimal.dfy` (`Decimal`): plain decimal printing of ids, with a parser
  proved to read every printed id back. For safe integers (magnitude at most
  2^53) this is how a template literal prints an integer.
- `product_entity.dfy` (`Entity`): the record and its constructor
  (`src/products/entities/product.entity.ts`).
- `create_product_dto.dfy` (`Dto`): the create and update inputs and the
  validation predicates (`src/products/dto/create-product.dto.ts`).
- `products_store.dfy` (`ProductStore`): the store, its operations, the
  messages and the invariants.
- `store_properties.dfy` (`StoreProperties`): per-operation properties. These
  are invariant preservation, lookup after each write, "nothing else changes",
  and uniform not-found behaviour.
- `store_traces.dfy` (`StoreTraces`): arbitrary sequences of writes. Over any
  run the invariants hold and the counter never decreases. Creates alone
  number records 1, 2, 3, … with no gap. A deleted id never comes back.
- `scenarios.dfy` (`Scenarios`): the concrete scenarios of the three test
  suites, replayed from a fresh store.

Store invariants (`ProductStore.WellFormed`):

- ids strictly ascend along the list, and so are unique;
- every id lies in `[1, nextId)`;
- `createdAt <= updatedAt` holds for every record.

A further invariant, `RecordsValid`, holds given validated inputs: every
stored record satisfies the create-input constraints.

Sources of behaviour:

- The files `src/products/products.service.ts`,
  `src/products/products.controller.ts`,
  `src/products/dto/update-product.dto.ts` and
  `src/products/products.module.ts` are not part of this model.
- The store's behaviour is therefore taken from the service, controller and
  end-to-end test suites. The record shape and constructor come from the
  entity class, and the input rules from the create DTO.
- Modelling choice: a created record is built with the entity constructor,
  from the counter value as id and the four input fields, with both
  timestamps left to the constructor's defaults.
- Lookup scans oldest first and takes the first match. Under `WellFormed`
  the first match is the only one.
- Modelling choice: in the update input, each present field obeys the
  constraint of the same field on create.

`create` fills both timestamps through the entity constructor, which reads
the clock twice. So a new record promises only `createdAt <= updatedAt` under
a non-decreasing clock, with equality exactly when the two readings coincide.

Modelling choice: the store does not validate its inputs, and validation is
placed in front of it. `create` and `update` therefore accept any input.
Input validity is a hypothesis of the lemmas that prove stored records stay
valid.

## Model

| member | source | states |
|---|---|---|
| Entity.Construct | src/products/entities/product.entity.ts:10-20 | the constructed record copies id, name, description, price and stock unchanged; each timestamp keeps a supplied value and is taken from the clock (`t1`, the reading taken for `createdAt`, and `t2`, the reading taken for `updatedAt`; when both are missing `t1` is read first) only when missing |
| Entity.ConstructKeepsSupplied | src/products/entities/product.entity.ts:11-19 | constructing from all seven fields of a record returns that record whatever the clock reads: supplied timestamps are never overwritten |
| Entity.ConstructDefaultsOrdered | src/products/entities/product.entity.ts:13-19 | when both timestamps are defaulted and the clock does not run backwards, `createdAt <= updatedAt`, with equality exactly when the two readings are equal |
| Dto.ValidNameIsMinLength | src/products/dto/create-product.dto.ts:10-13 | a name passes the three name decorators exactly when it has at least two characters (the length bound implies non-empty) |
| Decimal.IntToString | src/products/products.controller.spec.ts:117-119 | the decimal text interpolated for an id is the shortest numeral: digits with no leading zero (a lone `0` for zero), preceded by `-` exactly for negative ids, and it parses back to that same id |
| Decimal.CanonicalIsRendering | src/products/products.controller.spec.ts:117-119 | a numeral without leading zeros (and not `-0`) that reads as an id is exactly the text printed for that id, so each id has one printed form |
| ProductStore.MessageNamesId | src/products/products.service.spec.ts:98-103 | the id can be read back out of `"Product with ID <id>" + suffix`, so a not-found or deleted message names exactly its id |
| ProductStore.ErrorMessageInjective | src/products/products.service.spec.ts:98-103 | two not-found messages are equal if and only if they concern the same id |
| ProductStore.DeletedMessageInjective | src/products/products.controller.spec.ts:115-119 | two deletion confirmations are equal if and only if they concern the same id |
| ProductStore.Init | src/products/products.service.spec.ts:60-63 | a fresh store lists nothing, finds no id (every lookup is `NotFound(id)`), satisfies every store invariant, and will hand out id 1 first |
| ProductStore.ErrorMessage | src/products/products.service.spec.ts:99-102 | the not-found text is `Product with ID ` followed by the id's numeral without leading zeros and then ` not found`, and the numeral reads back as exactly the id of the error it reports |
| ProductStore.DeletedMessage | src/products/products.controller.spec.ts:117-119 | the deletion confirmation is `Product with ID ` followed by the id's numeral without leading zeros and then ` has been deleted`, and the numeral reads back as exactly the deleted id |
| ProductStore.WellShapedIsRender | src/products/products.service.spec.ts:99-102 | any text of that shape whose numeral reads as an id is exactly the message rendered for that id: the shape leaves no other spelling |
| ProductStore.FindAll | src/products/products.service.spec.ts:60-79 | the listing has one entry per live record and every entry is a stored record; an id is listed exactly when looking it up succeeds; in a well-formed store each listed entry is exactly the record a lookup of its id returns, and the listing ascends by id, which is creation order |
| Dto.ValidCreate | src/products/dto/create-product.dto.ts:9-25 | a create input passes exactly when the name has at least two characters and price and stock are strictly positive; the description is unconstrained |
| Dto.ValidUpdate | src/products/dto/create-product.dto.ts:9-25 | a partial update passes exactly when each present name has at least two characters and each present price and stock is strictly positive; absent fields and the description are unconstrained (the per-field rule reuses the create constraints) |
| ProductStore.Create | src/products/products.service.spec.ts:31-55 | the new record's id is the counter's value and its name, description, price and stock equal the input; it is appended after all existing records; the counter grows by exactly one; create has no failure case |
| ProductStore.FindOne | src/products/products.service.spec.ts:92-103 | success returns a stored record carrying the requested id; failure is `NotFound(id)` and happens only when no stored record has that id |
| ProductStore.Merge | src/products/products.service.spec.ts:121-134 | each field present in the partial input overwrites the stored one, each absent field is kept; `id` and `createdAt` are unchanged and `updatedAt` is the new reading |
| ProductStore.Update | src/products/products.service.spec.ts:121-148 | failure is `NotFound(id)`, and happens only when the id is absent; success returns the merge of the found record, which is now stored; the record count and the counter are unchanged, and every record with another id stays in place |
| ProductStore.Remove | src/products/products.service.spec.ts:160-172 | failure is `NotFound(id)`, and happens only when the id is absent; success drops one record carrying the id, keeps the others in order, shrinks the list by one, leaves the counter alone and confirms with the deleted-message for that id |
| StoreProperties.CreatePreservesWellFormed | src/products/products.service.spec.ts:43-56 | create keeps ids ascending and unique, below the counter, and timestamps ordered, given clock readings in order |
| StoreProperties.CreatePreservesRecordsValid | src/products/dto/create-product.dto.ts:9-25 | creating from a validated input keeps every stored record valid |
| StoreProperties.FindAfterCreate | src/products/products.service.spec.ts:92-95 | in a well-formed store, looking up the id create returned yields exactly the record create returned |
| StoreProperties.CreatesListedInOrder | src/products/products.service.spec.ts:73-79 | two successive creates are listed after the existing records, the first created first, with consecutive ids |
| StoreProperties.UpdateTimestamps | src/products/products.service.spec.ts:126-134 | under a clock not behind the store, the updated record keeps the id and `createdAt` of the record it replaces and its `updatedAt` is not earlier |
| StoreProperties.UpdateReplacesOnlyTarget | src/products/products.service.spec.ts:121-130 | with unique ids, after update each position holds the merged record if its id is the target and the old record otherwise |
| StoreProperties.UpdatePreservesWellFormed | src/products/products.service.spec.ts:121-134 | a successful update under a clock not behind the store keeps every store invariant |
| StoreProperties.UpdatePreservesRecordsValid | src/products/dto/create-product.dto.ts:9-25 | a successful update with a validated partial input keeps every stored record valid |
| StoreProperties.FindAfterUpdate | src/products/products.service.spec.ts:121-130 | in a well-formed store, a lookup right after an update returns the merged record that update returned; that the merged record is stored is a modelling choice, since the tests only inspect the returned record |
| StoreProperties.RemovePreservesWellFormed | src/products/products.service.spec.ts:160-164 | a successful remove keeps every store invariant |
| StoreProperties.RemovePreservesRecordsValid | src/products/products.service.spec.ts:160-164 | a successful remove keeps every stored record valid |
| StoreProperties.RemoveKeepsOthers | src/products/products.service.spec.ts:160-164 | with unique ids, a stored record survives remove if and only if its id differs from the removed one, and no record appears that was not there |
| StoreProperties.GoneAfterRemove | test/products.e2e-spec.ts:200-213 | after a successful remove, lookup, update and a second remove of the same id all fail with `NotFound(id)` |
| StoreProperties.MissingIdFailsAlike | src/products/products.service.spec.ts:98-172 | lookup fails exactly when no record has the id; update and remove fail exactly when lookup does, all three with `NotFound(id)` |
| StoreTraces.RunPreservesWellFormed | src/products/products.service.spec.ts:43-56 | every sequence of creates, updates and removes under a non-decreasing clock keeps the store invariants |
| StoreTraces.RunPreservesRecordsValid | src/products/dto/create-product.dto.ts:9-25 | a sequence of validated requests only ever stores valid records |
| StoreTraces.RunIdsOldOrFresh | src/products/products.service.spec.ts:51-55 | over any run the counter never decreases, and every final record's id either existed at the start or was not yet reached by the counter |
| StoreTraces.RemovedIdNeverReturns | test/products.e2e-spec.ts:200-213 | once an id is removed from a well-formed store, no later sequence of requests makes it found again |
| StoreTraces.CreatesNumberFromOne | src/products/products.service.spec.ts:51-55 | from a fresh store, n creates give n records with ids 1 to n in order, no gap, and counter n + 1 |
| Scenarios.FirstCreate | src/products/products.service.spec.ts:31-40 | the first create on a fresh store yields id 1, echoes the test input and has `createdAt <= updatedAt` |
| Scenarios.TwoCreates | src/products/products.controller.spec.ts:54-61 | two creates get ids 1 and 2 and are listed as "Test Product" then "Test Product 2" |
| Scenarios.FreshStoreEmpty | test/products.e2e-spec.ts:51-55 | a fresh store lists no records |
| Scenarios.CreateThenFind | src/products/products.controller.spec.ts:74-77 | lookup of the created id returns the created record |
| Scenarios.Missing999 | test/products.e2e-spec.ts:128-130 | on a fresh store, lookup, update and remove of 999 fail with `NotFound(999)`, whose text is "Product with ID 999 not found" |
| Scenarios.UpdateNameAndPrice | src/products/products.controller.spec.ts:90-101 | updating name and price sets "Updated Product" and 150, keeps id, description and stock, keeps `createdAt`, and does not move `updatedAt` back |
| Scenarios.CreateThenRemove | src/products/products.controller.spec.ts:114-120 | removing the only record confirms "Product with ID 1 has been deleted", empties the listing, and the id is then not found |

## Left out

- HTTP routing, status codes (201, 200, 404 and 400), supertest and the NestJS
  testing module and bootstrapping are transport. A 404 corresponds to a
  `NotFound` result.
- The class-validator machinery and the validation-error path are left out.
  Only the resulting predicates `ValidCreate` and `ValidUpdate` are modelled,
  as hypotheses of the validity lemmas.
- Dto.ValidCreate: string length is counted in Unicode scalar values
  (`seq<char>`). A JavaScript string is UTF-16, and class-validator's length
  count may differ on surrogate pairs and variation selectors (U+FE0E,
  U+FE0F); that count is not modelled, and lone surrogates cannot be
  represented.
- Dto.ValidUpdate: the same length caveat as `Dto.ValidCreate` applies to a
  present name.
- The constructor argument always carries all five data fields. A partial
  argument leaves fields undefined; no caller in the tests does that.
- Instance checks (`toBeInstanceOf(Product)`, `toBeInstanceOf(Date)`) have no
  counterpart. Every record in the model is a `Product` and every timestamp
  is a tick.
- Wall-clock `Date` values and millisecond resolution are abstracted to ticks.
  The clock is a parameter, and its monotonicity is a hypothesis
  (`NotBehind`, `ClockOkRun`).
- Price and stock are exact reals. There is no floating-point rounding, NaN
  or infinity; the validator rejects the last two anyway.
- Turning the path segment of a request into a numeric id is transport; ids
  are integers.
- Decimal.IntToString: ids are unbounded integers printed in plain decimal.
  JavaScript numbers are exact only up to 2^53 in magnitude; beyond that a
  template literal prints the shortest digits that round-trip, padded with
  zeros (`${2**64}` is `18446744073709552000`), and from 10^21 on it uses
  exponent notation (`1e+21`). Neither is modelled, so messages agree with
  the source only for safe integers (magnitude at most 2^53).
- Concurrency and locking are left out: requests reach the store one at a
  time.
- StoreTraces.CreatesNumberFromOne: ids and the counter are unbounded
  integers. The source's ids are JavaScript numbers, and a number counter
  stops growing at 2^53 (2^53 + 1 rounds to 2^53). So unique, ascending and
  gap-free ids (this lemma, `ProductStore.WellFormed` and
  `StoreTraces.RunPreservesWellFormed`) match the source only while fewer
  than 2^53 ids have been handed out.
- Id reuse after deletion is not exercised by any test. The model never
  reuses ids because the counter never decreases. This is proved as a
  property of the model (`StoreTraces.RemovedIdNeverReturns`), not claimed
  as observed behaviour.
- ProductStore.Create: does not promise `createdAt == updatedAt` for a new
  record. Create fills both timestamps through the entity constructor, which
  reads the clock twice, so only `createdAt <= updatedAt` follows.
