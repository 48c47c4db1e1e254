/** Properties of the single store operations: each preserves the store
    invariants, lookups see what the writes did, and a missing id fails alike
    everywhere. */
module StoreProperties {
  import opened Wrappers
  import opened Entity
  import opened Dto
  import opened ProductStore

  /** Create keeps the invariants when its two clock readings are in order. */
  lemma CreatePreservesWellFormed(s: Store, dto: CreateProductDto, t1: Tick, t2: Tick)
    requires WellFormed(s)
    requires t1 <= t2
    ensures WellFormed(Create(s, dto, t1, t2).0)
  {
  }

  /** Creating from a validated input keeps every stored record valid. */
  lemma CreatePreservesRecordsValid(s: Store, dto: CreateProductDto, t1: Tick, t2: Tick)
    requires RecordsValid(s)
    requires ValidCreate(dto)
    ensures RecordsValid(Create(s, dto, t1, t2).0)
  {
  }

  /** A record just created is what a lookup of its id returns. */
  lemma FindAfterCreate(s: Store, dto: CreateProductDto, t1: Tick, t2: Tick)
    requires WellFormed(s)
    ensures FindOne(Create(s, dto, t1, t2).0, Create(s, dto, t1, t2).1.id) == Success(Create(s, dto, t1, t2).1)
  {
  }

  /** Two creates in a row are listed after the existing records, first
      created first. */
  lemma CreatesListedInOrder(s: Store, a: CreateProductDto, b: CreateProductDto, t1: Tick, t2: Tick, t3: Tick, t4: Tick)
    ensures var (s1, p1) := Create(s, a, t1, t2);
            var (s2, p2) := Create(s1, b, t3, t4);
            && FindAll(s2) == FindAll(s) + [p1, p2]
            && p2.id == p1.id + 1
  {
  }

  /** After a successful update the record keeps its creation time and its
      update time does not go backwards, given a non-decreasing clock. */
  lemma UpdateTimestamps(s: Store, id: int, patch: UpdateProductDto, now: Tick)
    requires NotBehind(s, now)
    requires Update(s, id, patch, now).Success?
    ensures var before := FindOne(s, id).value;
            var after := Update(s, id, patch, now).value.1;
            && after.id == before.id
            && after.createdAt == before.createdAt
            && after.updatedAt >= before.updatedAt
  {
  }

  /** With unique ids, update replaces exactly the record with that id. */
  lemma UpdateReplacesOnlyTarget(s: Store, id: int, patch: UpdateProductDto, now: Tick)
    requires UniqueIds(s.records)
    requires Update(s, id, patch, now).Success?
    ensures var (s', q) := Update(s, id, patch, now).value;
            forall j :: 0 <= j < |s.records| ==>
              s'.records[j] == (if s.records[j].id == id then q else s.records[j])
  {
  }

  /** A successful update keeps the invariants under a clock not behind the store. */
  lemma UpdatePreservesWellFormed(s: Store, id: int, patch: UpdateProductDto, now: Tick)
    requires WellFormed(s)
    requires NotBehind(s, now)
    requires Update(s, id, patch, now).Success?
    ensures WellFormed(Update(s, id, patch, now).value.0)
  {
  }

  /** A successful update with a validated partial input keeps every record valid. */
  lemma UpdatePreservesRecordsValid(s: Store, id: int, patch: UpdateProductDto, now: Tick)
    requires RecordsValid(s)
    requires ValidUpdate(patch)
    requires Update(s, id, patch, now).Success?
    ensures RecordsValid(Update(s, id, patch, now).value.0)
  {
  }

  /** A lookup right after an update sees the merged record. */
  lemma FindAfterUpdate(s: Store, id: int, patch: UpdateProductDto, now: Tick)
    requires WellFormed(s)
    requires Update(s, id, patch, now).Success?
    ensures FindOne(Update(s, id, patch, now).value.0, id) == Success(Update(s, id, patch, now).value.1)
  {
  }

  /** A successful remove keeps the invariants. */
  lemma RemovePreservesWellFormed(s: Store, id: int)
    requires WellFormed(s)
    requires Remove(s, id).Success?
    ensures WellFormed(Remove(s, id).value.0)
  {
  }

  /** A successful remove keeps every stored record valid. */
  lemma RemovePreservesRecordsValid(s: Store, id: int)
    requires RecordsValid(s)
    requires Remove(s, id).Success?
    ensures RecordsValid(Remove(s, id).value.0)
  {
  }

  /** Remove takes out exactly the record with that id: every other record
      stays, and nothing new appears. */
  lemma RemoveKeepsOthers(s: Store, id: int)
    requires UniqueIds(s.records)
    requires exists p <- s.records :: p.id == id
    ensures Remove(s, id).Success?
    ensures var s' := Remove(s, id).value.0;
            && (forall p <- s.records :: p.id != id <==> p in s'.records)
            && (forall p <- s'.records :: p in s.records)
  {
  }

  /** After removing a record, its id is gone: lookup, update and a second
      remove all fail with not-found. */
  lemma GoneAfterRemove(s: Store, id: int, patch: UpdateProductDto, now: Tick)
    requires UniqueIds(s.records)
    requires Remove(s, id).Success?
    ensures var s' := Remove(s, id).value.0;
            && FindOne(s', id) == Failure(NotFound(id))
            && Update(s', id, patch, now) == Failure(NotFound(id))
            && Remove(s', id) == Failure(NotFound(id))
  {
  }

  /** Lookup, update and remove agree on whether an id exists, and all three
      fail with the same `NotFound(id)` exactly when no record carries it. */
  lemma MissingIdFailsAlike(s: Store, id: int, patch: UpdateProductDto, now: Tick)
    ensures FindOne(s, id).Failure? <==> (forall p <- s.records :: p.id != id)
    ensures Update(s, id, patch, now).Failure? <==> FindOne(s, id).Failure?
    ensures Remove(s, id).Failure? <==> FindOne(s, id).Failure?
    ensures FindOne(s, id).Failure? ==>
              && FindOne(s, id).error == NotFound(id)
              && Update(s, id, patch, now).error == NotFound(id)
              && Remove(s, id).error == NotFound(id)
  {
  }
}
