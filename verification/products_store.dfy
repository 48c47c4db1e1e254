/** The in-memory product store behind `ProductsService`: an id counter and the
    records in creation order, with create, findAll, findOne, update and remove.
    Every operation is a pure transition from one store value to the next. */
module ProductStore {
  import opened Wrappers
  import opened Decimal
  import opened Entity
  import opened Dto

  /** The store's state: the live records, oldest first, and the id the next
      create will hand out. */
  datatype Store = Store(records: seq<Product>, nextId: nat)

  /** A freshly started store: it lists nothing, finds no id, keeps every
      invariant, and its first create will hand out id 1. */
  function Init(): (s: Store)
    ensures FindAll(s) == []
    ensures forall id :: FindOne(s, id) == Failure(NotFound(id))
    ensures WellFormed(s) && RecordsValid(s)
    ensures s.nextId == 1
  {
    Store([], 1)
  }

  /** The one error the store raises. */
  datatype StoreError = NotFound(id: int)

  /** The confirmation `remove` hands back: `{ message }`. */
  datatype Confirmation = Confirmation(message: string)

  const MessagePrefix: string := "Product with ID "
  const NotFoundSuffix: string := " not found"
  const DeletedSuffix: string := " has been deleted"

  /** `Product with ID <id><suffix>`, the id printed in decimal. */
  function Render(id: int, suffix: string): string {
    MessagePrefix + IntToString(id) + suffix
  }

  /** The text of a `NotFound` error: the fixed prefix and suffix around the
      shortest numeral of the missing id. */
  function ErrorMessage(e: StoreError): (m: string)
    ensures WellShaped(m, NotFoundSuffix)
    ensures MessageId(m, NotFoundSuffix) == Some(e.id)
  {
    MessageNamesId(e.id, NotFoundSuffix);
    Render(e.id, NotFoundSuffix)
  }

  /** The text of the confirmation that record `id` was removed: the fixed
      prefix and suffix around the shortest numeral of that id. */
  function DeletedMessage(id: int): (m: string)
    ensures WellShaped(m, DeletedSuffix)
    ensures MessageId(m, DeletedSuffix) == Some(id)
  {
    MessageNamesId(id, DeletedSuffix);
    Render(id, DeletedSuffix)
  }

  /** `msg` is `Product with ID `, then a shortest signed numeral, then `suffix`. */
  predicate WellShaped(msg: string, suffix: string) {
    && |msg| >= |MessagePrefix| + |suffix|
    && msg[..|MessagePrefix|] == MessagePrefix
    && msg[|msg| - |suffix|..] == suffix
    && Canonical(msg[|MessagePrefix|..|msg| - |suffix|])
  }

  /** Reads the id back out of a rendered message with the given suffix. */
  function MessageId(msg: string, suffix: string): Option<int> {
    if |msg| >= |MessagePrefix| + |suffix|
       && msg[..|MessagePrefix|] == MessagePrefix
       && msg[|msg| - |suffix|..] == suffix
    then ParseInt(msg[|MessagePrefix|..|msg| - |suffix|])
    else None
  }

  /** A rendered message names exactly the id it was rendered for. */
  lemma MessageNamesId(id: int, suffix: string)
    ensures WellShaped(Render(id, suffix), suffix)
    ensures MessageId(Render(id, suffix), suffix) == Some(id)
  {
  }

  /** A well-shaped message naming `id` is exactly the rendered one: the
      shape and the id leave no other text. */
  lemma WellShapedIsRender(msg: string, id: int, suffix: string)
    requires WellShaped(msg, suffix)
    requires MessageId(msg, suffix) == Some(id)
    ensures msg == Render(id, suffix)
  {
    var middle := msg[|MessagePrefix|..|msg| - |suffix|];
    CanonicalIsRendering(middle, id);
  }

  /** Two not-found errors carry the same text only when they are about the
      same id. */
  lemma ErrorMessageInjective(a: int, b: int)
    ensures ErrorMessage(NotFound(a)) == ErrorMessage(NotFound(b)) <==> a == b
  {
  }

  /** Two deletion confirmations carry the same text only when they are about
      the same id. */
  lemma DeletedMessageInjective(a: int, b: int)
    ensures DeletedMessage(a) == DeletedMessage(b) <==> a == b
  {
  }

  /** Position of the first record carrying `id`, scanning oldest first. */
  function IndexOf(records: seq<Product>, id: int): (r: Option<nat>)
    ensures r.Some? ==> r.value < |records| && records[r.value].id == id
    ensures r.Some? ==> forall j :: 0 <= j < r.value ==> records[j].id != id
    ensures r.None? ==> forall p <- records :: p.id != id
    decreases |records|
  {
    if |records| == 0 then None
    else if records[0].id == id then Some(0)
    else
      match IndexOf(records[1..], id)
      case None => None
      case Some(k) => Some(k + 1)
  }

  /** `create`: the record gets the counter's value as id, echoes the input's
      four data fields, is stamped by the constructor from two clock readings
      `t1` then `t2`, and goes to the end of the list; the counter moves on by
      one. There is no failure case. */
  function Create(s: Store, dto: CreateProductDto, t1: Tick, t2: Tick): (res: (Store, Product))
    ensures res.1.id == s.nextId
    ensures res.1.name == dto.name && res.1.description == dto.description
    ensures res.1.price == dto.price && res.1.stock == dto.stock
    ensures res.1.createdAt == t1 && res.1.updatedAt == t2
    ensures res.0.records == s.records + [res.1]
    ensures res.0.nextId == s.nextId + 1
  {
    var p := Construct(ProductInit(s.nextId, dto.name, dto.description, dto.price, dto.stock, None, None), t1, t2);
    (Store(s.records + [p], s.nextId + 1), p)
  }

  /** `findAll`: every live record, in creation order. An id is listed exactly
      when a lookup of it succeeds, and in a well-formed store the listing
      ascends by id. */
  function FindAll(s: Store): (r: seq<Product>)
    ensures |r| == |s.records|
    ensures forall id :: FindOne(s, id).Success? <==> exists p <- r :: p.id == id
    ensures forall p <- r :: p in s.records
    ensures WellFormed(s) ==> forall p <- r :: FindOne(s, p.id) == Success(p)
    ensures WellFormed(s) ==> Ascending(r)
  {
    if WellFormed(s) then
      AscendingUnique(s.records);
      s.records
    else
      s.records
  }

  /** `findOne`: the record with that id, or `NotFound(id)` when there is none. */
  function FindOne(s: Store, id: int): (r: Result<Product, StoreError>)
    ensures r.Success? ==> r.value in s.records && r.value.id == id
    ensures r.Failure? ==> r.error == NotFound(id) && forall p <- s.records :: p.id != id
  {
    match IndexOf(s.records, id)
    case None => Failure(NotFound(id))
    case Some(i) => Success(s.records[i])
  }

  /** The partial-update merge: each field present in the patch overwrites the
      stored one, each absent field is kept, `updatedAt` becomes `now`, and
      `id` and `createdAt` are never touched. */
  function Merge(p: Product, patch: UpdateProductDto, now: Tick): (q: Product)
    ensures q.id == p.id && q.createdAt == p.createdAt && q.updatedAt == now
    ensures patch.name.Some? ==> q.name == patch.name.value
    ensures patch.name.None? ==> q.name == p.name
    ensures patch.description.Some? ==> q.description == patch.description.value
    ensures patch.description.None? ==> q.description == p.description
    ensures patch.price.Some? ==> q.price == patch.price.value
    ensures patch.price.None? ==> q.price == p.price
    ensures patch.stock.Some? ==> q.stock == patch.stock.value
    ensures patch.stock.None? ==> q.stock == p.stock
  {
    p.(name := patch.name.GetOr(p.name),
       description := patch.description.GetOr(p.description),
       price := patch.price.GetOr(p.price),
       stock := patch.stock.GetOr(p.stock),
       updatedAt := now)
  }

  /** `update`: fails with `NotFound(id)` when no record has the id; otherwise
      the merged record replaces the found one in place and is returned, and
      no other record and not the counter changes. */
  function Update(s: Store, id: int, patch: UpdateProductDto, now: Tick): (r: Result<(Store, Product), StoreError>)
    ensures r.Failure? ==> r.error == NotFound(id) && forall p <- s.records :: p.id != id
    ensures r.Success? ==> FindOne(s, id).Success? && r.value.1 == Merge(FindOne(s, id).value, patch, now)
    ensures r.Success? ==> |r.value.0.records| == |s.records| && r.value.0.nextId == s.nextId
    ensures r.Success? ==> forall j :: 0 <= j < |s.records| && s.records[j].id != id ==>
                             r.value.0.records[j] == s.records[j]
    ensures r.Success? ==> r.value.1 in r.value.0.records
  {
    match IndexOf(s.records, id)
    case None => Failure(NotFound(id))
    case Some(i) =>
      var q := Merge(s.records[i], patch, now);
      assert s.records[i := q][i] == q;
      Success((Store(s.records[i := q], s.nextId), q))
  }

  /** `remove`: fails with `NotFound(id)` when no record has the id; otherwise
      one record with that id leaves the list, the others keep their order,
      the counter is untouched and the confirmation names the id. */
  function Remove(s: Store, id: int): (r: Result<(Store, Confirmation), StoreError>)
    ensures r.Failure? ==> r.error == NotFound(id) && forall p <- s.records :: p.id != id
    ensures r.Success? ==> r.value.1 == Confirmation(DeletedMessage(id))
    ensures r.Success? ==> exists i :: 0 <= i < |s.records| && s.records[i].id == id &&
                             r.value.0.records == s.records[..i] + s.records[i + 1..]
    ensures r.Success? ==> |r.value.0.records| == |s.records| - 1 && r.value.0.nextId == s.nextId
  {
    match IndexOf(s.records, id)
    case None => Failure(NotFound(id))
    case Some(i) =>
      Success((Store(s.records[..i] + s.records[i + 1..], s.nextId), Confirmation(DeletedMessage(id))))
  }

  // ---------------------------------------------------------------------------
  // Store invariants

  /** Ids strictly ascend along the list, so creation order and id order agree. */
  predicate Ascending(records: seq<Product>) {
    forall i, j :: 0 <= i < j < |records| ==> records[i].id < records[j].id
  }

  /** No two records share an id. */
  predicate UniqueIds(records: seq<Product>) {
    forall i, j :: 0 <= i < |records| && 0 <= j < |records| && i != j ==> records[i].id != records[j].id
  }

  /** Strictly ascending ids are in particular unique. */
  lemma AscendingUnique(records: seq<Product>)
    requires Ascending(records)
    ensures UniqueIds(records)
  {
  }

  /** Every id was handed out by the counter: at least 1, below `nextId`. */
  predicate IdsIssued(s: Store) {
    forall p <- s.records :: 1 <= p.id < s.nextId
  }

  /** No record was last updated before it was created. */
  predicate TimestampsOrdered(records: seq<Product>) {
    forall p <- records :: p.createdAt <= p.updatedAt
  }

  /** The bookkeeping invariant every reachable store keeps. */
  predicate WellFormed(s: Store) {
    && s.nextId >= 1
    && Ascending(s.records)
    && IdsIssued(s)
    && TimestampsOrdered(s.records)
  }

  /** A stored record obeys the create-input constraints. */
  predicate ValidRecord(p: Product) {
    ValidCreate(CreateProductDto(p.name, p.description, p.price, p.stock))
  }

  predicate RecordsValid(s: Store) {
    forall p <- s.records :: ValidRecord(p)
  }

  /** The clock reading `t` is not earlier than any timestamp in the store:
      what a non-decreasing clock guarantees for a later operation. */
  predicate NotBehind(s: Store, t: Tick) {
    forall p <- s.records :: p.createdAt <= t && p.updatedAt <= t
  }
}
