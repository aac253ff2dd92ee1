/**
 * The record lifecycle as pure functions over the table, a sequence of rows
 * in rowid order (the order a table scan returns). Each mutating operation
 * yields its outcome and the table after an all-or-nothing commit.
 */
module Lifecycle {
  import opened Wrappers
  import opened Records

  /** The primary key: ids strictly increase along the table, so no id is stored twice. */
  ghost predicate IdsIncreasing(rows: seq<Row>)
  {
    forall i, j :: 0 <= i < j < |rows| ==> rows[i].id < rows[j].id
  }

  /** The UNIQUE constraint on email. */
  ghost predicate EmailsDistinct(rows: seq<Row>)
  {
    forall i, j :: 0 <= i < |rows| && 0 <= j < |rows| && i != j ==> rows[i].email != rows[j].email
  }

  /** Every stored integer fits SQLite's 64-bit INTEGER. */
  ghost predicate InRange(rows: seq<Row>)
  {
    forall i :: 0 <= i < |rows| ==> InInt64(rows[i].id) && InInt64(rows[i].age)
  }

  /** The table invariant; NOT NULL holds by the type of `Row`. */
  ghost predicate WellFormed(rows: seq<Row>)
  {
    IdsIncreasing(rows) && EmailsDistinct(rows) && InRange(rows)
  }

  ghost predicate Live(rows: seq<Row>, id: int)
  {
    exists i :: 0 <= i < |rows| && rows[i].id == id
  }

  ghost predicate EmailLive(rows: seq<Row>, email: string)
  {
    exists i :: 0 <= i < |rows| && rows[i].email == email
  }

  /** The primary-key lookup behind `query.get(id)`: the position of the row with `id`. */
  function Find(rows: seq<Row>, id: int): (k: Option<nat>)
    ensures k.Some? ==> k.value < |rows| && rows[k.value].id == id
    ensures k.None? <==> !Live(rows, id)
  {
    if rows == [] then None
    else if rows[0].id == id then Some(0)
    else
      match Find(rows[1..], id)
      case None => None
      case Some(k) => Some(k + 1)
  }

  /** True when a row other than the one with id `self` already holds `email`. */
  function HeldByOther(rows: seq<Row>, email: string, self: int): bool
  {
    exists i | 0 <= i < |rows| :: rows[i].email == email && rows[i].id != self
  }

  /**
   * SQLite's rowid choice for an INTEGER PRIMARY KEY without AUTOINCREMENT:
   * one more than the largest id in the table, or 1 when it is empty.
   */
  function NextId(rows: seq<Row>): (id: int)
    ensures IdsIncreasing(rows) ==> forall i :: 0 <= i < |rows| ==> rows[i].id < id
    ensures rows == [] ==> id == 1
  {
    if rows == [] then 1 else rows[|rows| - 1].id + 1
  }

  /** The create body has a JSON object with all three keys (values may still be null). */
  predicate HasAllKeys(body: Option<Body>)
  {
    body.Some? && !body.value.fullName.Absent? && !body.value.email.Absent? && !body.value.age.Absent?
  }

  /** The merged object of an update: `data.get(key, current)` for each column. */
  function Merge(r: Row, b: Body): (m: Staged)
    ensures forall row :: Complete(r.id, m) == Some(row) <==> Patched(r, b, row)
  {
    Staged(Pick(b.fullName, r.fullName), Pick(b.email, r.email), Pick(b.age, r.age))
  }

  /** List all records: one JSON object per row, in table order. */
  function List(rows: seq<Row>): (l: seq<Row>)
    ensures |l| == |rows|
    ensures forall r :: r in l <==> r in rows
    ensures WellFormed(rows) ==> forall r :: r in l <==> Get(rows, r.id) == Found(r)
    ensures forall id :: Live(rows, id) <==> exists r :: r in l && r.id == id
  {
    rows
  }

  /** Get one record by id; an id beyond 64 bits cannot be bound to the lookup. */
  function Get(rows: seq<Row>, id: int): (o: Outcome)
    ensures o.Found? || o == NotFound || o == OutOfRange
    ensures o == OutOfRange <==> !InInt64(id)
    ensures o.Found? <==> InInt64(id) && Live(rows, id)
    ensures o.Found? ==> o.row.id == id && o.row in rows
  {
    if !InInt64(id) then OutOfRange
    else
      match Find(rows, id)
      case None => NotFound
      case Some(k) => Found(rows[k])
  }

  /**
   * Commit of an insert of `s` under the next rowid `id`: parameters are
   * bound first, then the rowid is taken, then NOT NULL and UNIQUE are checked.
   */
  function Insert(rows: seq<Row>, id: int, s: Staged): Step
  {
    if !Binds(s) then Step(OutOfRange, rows)
    else if !InInt64(id) then Step(Full, rows)
    else
    match Complete(id, s)
    case None => Step(NullValue, rows)
    case Some(r) =>
      if HeldByOther(rows, r.email, id) then Step(DuplicateKey, rows)
      else Step(Created(id), rows + [r])
  }

  /** Create a record from a request body. */
  function Create(rows: seq<Row>, body: Option<Body>): (s: Step)
    ensures s.out.Created? || s.out.Failed()
    ensures s.out.Failed() ==> s.rows == rows
    ensures s.out == InvalidInput <==> !HasAllKeys(body)
    ensures s.out == OutOfRange <==> HasAllKeys(body) && !AgeBinds(body.value)
    ensures s.out == Full <==> HasAllKeys(body) && AgeBinds(body.value) && !InInt64(NextId(rows))
    ensures s.out.Created? ==>
              && (IdsIncreasing(rows) ==> !Live(rows, s.out.id))
              && |s.rows| == |rows| + 1 && s.rows[..|rows|] == rows
              && InInt64(s.out.id) && InInt64(s.rows[|rows|].age)
              && s.rows[|rows|].id == s.out.id
              && Carries(body, s.rows[|rows|])
    ensures s.out == DuplicateKey ==>
              body.Some? && body.value.email.Given? && EmailLive(rows, body.value.email.value)
  {
    if !HasAllKeys(body) then Step(InvalidInput, rows)
    else
      var data := body.value;
      Insert(rows, NextId(rows), Staged(Value(data.fullName), Value(data.email), Value(data.age)))
  }

  /** Commit of the staged object `s` over the row at position `k`. */
  function Replace(rows: seq<Row>, k: nat, s: Staged): Step
    requires k < |rows|
  {
    if !Binds(s) then Step(OutOfRange, rows)
    else
    match Complete(rows[k].id, s)
    case None => Step(NullValue, rows)
    case Some(r) =>
      if HeldByOther(rows, r.email, r.id) then Step(DuplicateKey, rows)
      else Step(Updated(r), rows[k := r])
  }

  /** Partial-merge update of the record with `id`. */
  function Update(rows: seq<Row>, id: int, body: Option<Body>): (s: Step)
    ensures s.out.Updated? || s.out.Failed()
    ensures s.out.Failed() ==> s.rows == rows
    ensures !InInt64(id) ==> s.out == OutOfRange
    ensures s.out == NotFound <==> InInt64(id) && !Live(rows, id)
    ensures s.out == MalformedBody <==> InInt64(id) && Live(rows, id) && body.None?
    ensures InRange(rows) ==>
              (s.out == OutOfRange <==> !InInt64(id) || (Live(rows, id) && body.Some? && !AgeBinds(body.value)))
    ensures s.out.Updated? ==>
              && InInt64(id) && InInt64(s.out.row.age)
              && body.Some? && Find(rows, id).Some?
              && Patched(rows[Find(rows, id).value], body.value, s.out.row)
              && s.rows == rows[Find(rows, id).value := s.out.row]
  {
    if !InInt64(id) then Step(OutOfRange, rows)
    else
    match Find(rows, id)
    case None => Step(NotFound, rows)
    case Some(k) =>
      if body.None? then Step(MalformedBody, rows)
      else Replace(rows, k, Merge(rows[k], body.value))
  }

  /** Delete the record with `id`. */
  function Delete(rows: seq<Row>, id: int): (s: Step)
    ensures s.out == Deleted || s.out == NotFound || s.out == OutOfRange
    ensures s.out == OutOfRange <==> !InInt64(id)
    ensures s.out == NotFound <==> InInt64(id) && !Live(rows, id)
    ensures s.out.Failed() ==> s.rows == rows
    ensures s.out == Deleted ==> |s.rows| == |rows| - 1
    ensures s.out == Deleted ==>
              exists k :: 0 <= k < |rows| && rows[k].id == id && s.rows == rows[..k] + rows[k + 1..]
    ensures WellFormed(rows) && s.out == Deleted ==>
              !Live(s.rows, id) && forall r :: r in s.rows <==> r in rows && r.id != id
  {
    if !InInt64(id) then Step(OutOfRange, rows)
    else
    match Find(rows, id)
    case None => Step(NotFound, rows)
    case Some(k) => Step(Deleted, rows[..k] + rows[k + 1..])
  }
}
