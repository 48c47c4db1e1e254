/** The `Product` record and its constructor (src/products/entities/product.entity.ts). */
module Entity {
  import opened Wrappers

  /** A clock reading. Dates are abstracted to ticks of a clock that never runs backwards. */
  type Tick = nat

  /** A stored product: exactly the seven fields of the entity class.
      Price and stock are JavaScript numbers, modelled as (finite) reals. */
  datatype Product = Product(
    id: int,
    name: string,
    description: string,
    price: real,
    stock: real,
    createdAt: Tick,
    updatedAt: Tick)

  /** The constructor's argument: the five data fields, and each timestamp
      supplied or not. */
  datatype ProductInit = ProductInit(
    id: int,
    name: string,
    description: string,
    price: real,
    stock: real,
    createdAt: Option<Tick>,
    updatedAt: Option<Tick>)

  /** The argument that hands every field of `p` to the constructor. */
  function InitOf(p: Product): ProductInit {
    ProductInit(p.id, p.name, p.description, p.price, p.stock, Some(p.createdAt), Some(p.updatedAt))
  }

  /** The constructor: copy the supplied fields, then fill a missing `createdAt`
      from `t1`, the reading taken for `createdAt`, and a missing `updatedAt`
      from `t2`, the reading taken for `updatedAt`. When both are missing the
      clock is read for `createdAt` first. */
  function Construct(init: ProductInit, t1: Tick, t2: Tick): (p: Product)
    ensures p.id == init.id && p.name == init.name && p.description == init.description
    ensures p.price == init.price && p.stock == init.stock
    ensures init.createdAt.Some? ==> p.createdAt == init.createdAt.value
    ensures init.createdAt.None? ==> p.createdAt == t1
    ensures init.updatedAt.Some? ==> p.updatedAt == init.updatedAt.value
    ensures init.updatedAt.None? ==> p.updatedAt == t2
  {
    Product(init.id, init.name, init.description, init.price, init.stock,
            init.createdAt.GetOr(t1), init.updatedAt.GetOr(t2))
  }

  /** Handing a record's own fields to the constructor gives the record back,
      whatever the clock says: supplied timestamps are never overwritten. */
  lemma ConstructKeepsSupplied(p: Product, t1: Tick, t2: Tick)
    ensures Construct(InitOf(p), t1, t2) == p
  {
  }

  /** When both timestamps are defaulted, `createdAt` is read first, so under a
      non-decreasing clock it is never after `updatedAt`; they coincide exactly
      when the two readings do. */
  lemma ConstructDefaultsOrdered(init: ProductInit, t1: Tick, t2: Tick)
    requires init.createdAt.None? && init.updatedAt.None?
    requires t1 <= t2
    ensures Construct(init, t1, t2).createdAt <= Construct(init, t1, t2).updatedAt
    ensures Construct(init, t1, t2).createdAt == Construct(init, t1, t2).updatedAt <==> t1 == t2
  {
  }
}
