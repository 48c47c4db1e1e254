/** The test suites' scenarios, replayed against the model from a fresh store. */
module Scenarios {
  import opened Wrappers
  import opened Decimal
  import opened Entity
  import opened Dto
  import opened ProductStore
  import opened StoreProperties

  /** The input every suite creates. */
  function TestInput(): CreateProductDto {
    CreateProductDto("Test Product", "Test Description", 100.0, 10.0)
  }

  /** The partial update the suites send. */
  function NameAndPrice(): UpdateProductDto {
    UpdateProductDto(Some("Updated Product"), None, Some(150.0), None)
  }

  /** The first create on a fresh store yields id 1 and echoes the input;
      stamped from readings of a non-decreasing clock, `createdAt` does not
      exceed `updatedAt`. */
  lemma FirstCreate(t1: Tick, t2: Tick)
    requires t1 <= t2
    ensures var p := Create(Init(), TestInput(), t1, t2).1;
            && p.id == 1
            && p.name == "Test Product" && p.description == "Test Description"
            && p.price == 100.0 && p.stock == 10.0
            && p.createdAt <= p.updatedAt
  {
  }

  /** Two creates get ids 1 and 2 and are listed in that order. */
  lemma TwoCreates(t1: Tick, t2: Tick, t3: Tick, t4: Tick)
    ensures var (s1, p1) := Create(Init(), TestInput(), t1, t2);
            var (s2, p2) := Create(s1, TestInput().(name := "Test Product 2"), t3, t4);
            && p1.id == 1 && p2.id == 2
            && |FindAll(s2)| == 2
            && FindAll(s2)[0].name == "Test Product" && FindAll(s2)[1].name == "Test Product 2"
  {
  }

  /** A fresh store lists nothing. */
  lemma FreshStoreEmpty()
    ensures FindAll(Init()) == []
  {
  }

  /** Looking up the id create returned gives back the created record. */
  lemma CreateThenFind(t1: Tick, t2: Tick)
    ensures var (s, p) := Create(Init(), TestInput(), t1, t2);
            FindOne(s, p.id) == Success(p)
  {
    FindAfterCreate(Init(), TestInput(), t1, t2);
  }

  /** Id 999 on a fresh store: lookup, update and remove each fail with
      `NotFound(999)`, whose text is the one the suites expect. */
  lemma Missing999(patch: UpdateProductDto, now: Tick)
    ensures FindOne(Init(), 999) == Failure(NotFound(999))
    ensures Update(Init(), 999, patch, now) == Failure(NotFound(999))
    ensures Remove(Init(), 999) == Failure(NotFound(999))
    ensures ErrorMessage(NotFound(999)) == "Product with ID 999 not found"
  {
  }

  /** Updating name and price overwrites exactly those two fields. */
  lemma UpdateNameAndPrice(t1: Tick, t2: Tick, now: Tick)
    requires t1 <= t2 <= now
    ensures var (s, p) := Create(Init(), TestInput(), t1, t2);
            var r := Update(s, p.id, NameAndPrice(), now);
            && r.Success?
            && r.value.1.id == p.id
            && r.value.1.name == "Updated Product" && r.value.1.price == 150.0
            && r.value.1.description == "Test Description" && r.value.1.stock == 10.0
            && r.value.1.createdAt == p.createdAt && r.value.1.updatedAt >= p.updatedAt
  {
  }

  /** Removing the only record confirms with its id, empties the listing, and
      a later lookup of that id is not found. */
  lemma CreateThenRemove(t1: Tick, t2: Tick)
    ensures var (s, p) := Create(Init(), TestInput(), t1, t2);
            var r := Remove(s, p.id);
            && |FindAll(s)| == 1
            && r.Success?
            && r.value.1 == Confirmation(DeletedMessage(p.id))
            && r.value.1.message == "Product with ID 1 has been deleted"
            && FindAll(r.value.0) == []
            && FindOne(r.value.0, p.id) == Failure(NotFound(p.id))
  {
    var (s, p) := Create(Init(), TestInput(), t1, t2);
    assert s.records == [p] && p.id == 1;
    assert IndexOf(s.records, 1) == Some(0);
    assert IntToString(1) == "1";
    assert DeletedMessage(1) == "Product with ID 1 has been deleted";
    var s' := Remove(s, 1).value.0;
    assert s'.records == [];
  }
}
