/** Sequences of writes against the store: the invariants hold along any run,
    the counter never goes back, ids are handed out 1, 2, 3, ... when nothing
    is deleted, and a deleted id never comes back. */
module StoreTraces {
  import opened Wrappers
  import opened Entity
  import opened Dto
  import opened ProductStore
  import opened StoreProperties

  /** A state-changing request with the clock readings it sees. Reads are left
      out: they never change the store. */
  datatype Op =
    | CreateOp(dto: CreateProductDto, t1: Tick, t2: Tick)
    | UpdateOp(id: int, patch: UpdateProductDto, now: Tick)
    | RemoveOp(id: int)

  /** One request; a request that fails with not-found leaves the store as it was. */
  function Step(s: Store, op: Op): Store {
    match op
    case CreateOp(dto, t1, t2) => Create(s, dto, t1, t2).0
    case UpdateOp(id, patch, now) =>
      (match Update(s, id, patch, now)
       case Success(res) => res.0
       case Failure(_) => s)
    case RemoveOp(id) =>
      (match Remove(s, id)
       case Success(res) => res.0
       case Failure(_) => s)
  }

  function Run(s: Store, ops: seq<Op>): Store
    decreases |ops|
  {
    if |ops| == 0 then s else Run(Step(s, ops[0]), ops[1..])
  }

  /** The clock readings of a request are consistent with a non-decreasing
      clock that has already produced every timestamp in the store. */
  predicate ClockOk(s: Store, op: Op) {
    match op
    case CreateOp(_, t1, t2) => NotBehind(s, t1) && t1 <= t2
    case UpdateOp(_, _, now) => NotBehind(s, now)
    case RemoveOp(_) => true
  }

  predicate ClockOkRun(s: Store, ops: seq<Op>)
    decreases |ops|
  {
    |ops| == 0 || (ClockOk(s, ops[0]) && ClockOkRun(Step(s, ops[0]), ops[1..]))
  }

  /** The request passes input validation. */
  predicate ValidOp(op: Op) {
    match op
    case CreateOp(dto, _, _) => ValidCreate(dto)
    case UpdateOp(_, patch, _) => ValidUpdate(patch)
    case RemoveOp(_) => true
  }

  lemma StepPreservesWellFormed(s: Store, op: Op)
    requires WellFormed(s)
    requires ClockOk(s, op)
    ensures WellFormed(Step(s, op))
  {
    match op
    case CreateOp(dto, t1, t2) =>
      CreatePreservesWellFormed(s, dto, t1, t2);
    case UpdateOp(id, patch, now) =>
      if Update(s, id, patch, now).Success? {
        UpdatePreservesWellFormed(s, id, patch, now);
      }
    case RemoveOp(id) =>
      if Remove(s, id).Success? {
        RemovePreservesWellFormed(s, id);
      }
  }

  /** Every run under a non-decreasing clock keeps the bookkeeping invariant. */
  lemma {:induction false} RunPreservesWellFormed(s: Store, ops: seq<Op>)
    requires WellFormed(s)
    requires ClockOkRun(s, ops)
    ensures WellFormed(Run(s, ops))
    decreases |ops|
  {
    if |ops| > 0 {
      StepPreservesWellFormed(s, ops[0]);
      RunPreservesWellFormed(Step(s, ops[0]), ops[1..]);
    }
  }

  lemma StepPreservesRecordsValid(s: Store, op: Op)
    requires RecordsValid(s)
    requires ValidOp(op)
    ensures RecordsValid(Step(s, op))
  {
  }

  /** Fed only validated requests, the store only ever holds valid records. */
  lemma {:induction false} RunPreservesRecordsValid(s: Store, ops: seq<Op>)
    requires RecordsValid(s)
    requires forall op <- ops :: ValidOp(op)
    ensures RecordsValid(Run(s, ops))
    decreases |ops|
  {
    if |ops| > 0 {
      assert ops[0] in ops;
      StepPreservesRecordsValid(s, ops[0]);
      assert forall op <- ops[1..] :: op in ops;
      RunPreservesRecordsValid(Step(s, ops[0]), ops[1..]);
    }
  }

  /** Each request moves the counter by one (create) or not at all, and every
      record afterwards either was already there by id or carries a fresh id. */
  lemma StepIdsOldOrFresh(s: Store, op: Op)
    ensures Step(s, op).nextId >= s.nextId
    ensures forall p <- Step(s, op).records ::
              p.id >= s.nextId || exists q <- s.records :: q.id == p.id
  {
  }

  /** Over any run the counter never decreases, and every record at the end
      either existed, by id, at the start, or received an id the counter had
      not yet reached at the start. */
  lemma {:induction false} RunIdsOldOrFresh(s: Store, ops: seq<Op>)
    ensures Run(s, ops).nextId >= s.nextId
    ensures forall p <- Run(s, ops).records ::
              p.id >= s.nextId || exists q <- s.records :: q.id == p.id
    decreases |ops|
  {
    if |ops| > 0 {
      var s1 := Step(s, ops[0]);
      StepIdsOldOrFresh(s, ops[0]);
      RunIdsOldOrFresh(s1, ops[1..]);
      forall p <- Run(s, ops).records
        ensures p.id >= s.nextId || exists q <- s.records :: q.id == p.id
      {
        if p.id < s.nextId {
          var q1 :| q1 in s1.records && q1.id == p.id;
          var q :| q in s.records && q.id == q1.id;
        }
      }
    }
  }

  /** Ids are never reused: once a record is removed, no later sequence of
      requests brings its id back. */
  lemma RemovedIdNeverReturns(s: Store, id: int, ops: seq<Op>)
    requires WellFormed(s)
    requires exists p <- s.records :: p.id == id
    ensures Remove(s, id).Success?
    ensures FindOne(Run(Remove(s, id).value.0, ops), id) == Failure(NotFound(id))
  {
    var s1 := Remove(s, id).value.0;
    var i := IndexOf(s.records, id).value;
    assert s.records[i] in s.records;
    AscendingUnique(s.records);
    RemoveKeepsOthers(s, id);
    RunIdsOldOrFresh(s1, ops);
  }

  /** A run made only of creates. */
  predicate OnlyCreates(ops: seq<Op>) {
    forall op <- ops :: op.CreateOp?
  }

  /** Starting fresh, creates alone number the records 1, 2, 3, ... with no
      gap, in creation order, and leave the counter one past the last id. */
  lemma {:induction false} CreatesNumberFromOne(ops: seq<Op>)
    requires OnlyCreates(ops)
    ensures |Run(Init(), ops).records| == |ops|
    ensures Run(Init(), ops).nextId == |ops| + 1
    ensures forall k :: 0 <= k < |Run(Init(), ops).records| ==> Run(Init(), ops).records[k].id == k + 1
  {
    CreatesExtend(Init(), ops);
  }

  /** A run of creates appends one record per create, numbered on from the
      counter. */
  lemma {:induction false} CreatesExtend(s: Store, ops: seq<Op>)
    requires OnlyCreates(ops)
    ensures |Run(s, ops).records| == |s.records| + |ops|
    ensures Run(s, ops).records[..|s.records|] == s.records
    ensures Run(s, ops).nextId == s.nextId + |ops|
    ensures forall k :: |s.records| <= k < |Run(s, ops).records| ==>
              Run(s, ops).records[k].id == s.nextId + (k - |s.records|)
    decreases |ops|
  {
    if |ops| > 0 {
      assert ops[0] in ops;
      var s1 := Step(s, ops[0]);
      assert s1.records == s.records + [s1.records[|s.records|]];
      assert forall op <- ops[1..] :: op in ops;
      CreatesExtend(s1, ops[1..]);
      var r := Run(s, ops);
      assert r == Run(s1, ops[1..]);
      assert r.records[..|s.records|] == r.records[..|s1.records|][..|s.records|];
      assert r.records[|s.records|] == r.records[..|s1.records|][|s.records|];
    }
  }
}
