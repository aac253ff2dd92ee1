/**
 * Properties of the record lifecycle that relate several operations, or an
 * operation and the table invariant.
 */
module LifecycleProperties {
  import opened Wrappers
  import opened Records
  import opened Lifecycle

  /** A body with all three keys present and none of them null. */
  ghost predicate NonNullBody(body: Option<Body>)
  {
    body.Some? && body.value.fullName.Given? && body.value.email.Given? && body.value.age.Given?
  }

  // ---------------------------------------------------------------- invariant

  lemma CreateKeepsWellFormed(rows: seq<Row>, body: Option<Body>)
    requires WellFormed(rows)
    ensures WellFormed(Create(rows, body).rows)
  {
    if HasAllKeys(body) {
      var id := NextId(rows);
      var data := body.value;
      var staged := Staged(Value(data.fullName), Value(data.email), Value(data.age));
      if Binds(staged) && InInt64(id) && Complete(id, staged).Some? {
        var r := Complete(id, staged).value;
        if !HeldByOther(rows, r.email, id) {
          AppendKeepsWellFormed(rows, r);
        }
      }
    }
  }

  /** Appending a row with a fresh, larger id and an unused email keeps the table well-formed. */
  lemma AppendKeepsWellFormed(rows: seq<Row>, r: Row)
    requires WellFormed(rows)
    requires forall i :: 0 <= i < |rows| ==> rows[i].id < r.id
    requires !HeldByOther(rows, r.email, r.id)
    requires InInt64(r.id) && InInt64(r.age)
    ensures WellFormed(rows + [r])
  {
    var t := rows + [r];
    forall i | 0 <= i < |rows|
      ensures t[i].email != r.email
    {
      assert rows[i].id != r.id;
    }
  }

  lemma UpdateKeepsWellFormed(rows: seq<Row>, id: int, body: Option<Body>)
    requires WellFormed(rows)
    ensures WellFormed(Update(rows, id, body).rows)
  {
  }

  lemma DeleteKeepsWellFormed(rows: seq<Row>, id: int)
    requires WellFormed(rows)
    ensures WellFormed(Delete(rows, id).rows)
  {
    if Delete(rows, id).out == Deleted {
      var k := Find(rows, id).value;
      RemoveAtKeepsWellFormed(rows, k);
    }
  }

  /** Cutting one row out of a well-formed table leaves it well-formed. */
  lemma RemoveAtKeepsWellFormed(rows: seq<Row>, k: nat)
    requires WellFormed(rows)
    requires k < |rows|
    ensures WellFormed(rows[..k] + rows[k + 1..])
  {
    var t := rows[..k] + rows[k + 1..];
    assert forall i :: 0 <= i < |t| ==> t[i] == rows[if i < k then i else i + 1];
    forall i, j | 0 <= i < j < |t|
      ensures t[i].id < t[j].id
    {
      assert t[i] == rows[if i < k then i else i + 1];
      assert t[j] == rows[if j < k then j else j + 1];
    }
    forall i, j | 0 <= i < |t| && 0 <= j < |t| && i != j
      ensures t[i].email != t[j].email
    {
      assert t[i] == rows[if i < k then i else i + 1];
      assert t[j] == rows[if j < k then j else j + 1];
    }
  }

  // ---------------------------------------------------------------- create

  /** Round trip: the id a create reports reads back the row carrying the body's fields. */
  lemma CreateThenGet(rows: seq<Row>, body: Option<Body>)
    requires WellFormed(rows)
    requires Create(rows, body).out.Created?
    ensures var s := Create(rows, body);
            Get(s.rows, s.out.id).Found? && Carries(body, Get(s.rows, s.out.id).row)
  {
  }

  /**
   * A complete, non-null create body whose age fits 64 bits, on a table with
   * a rowid left, succeeds exactly when its email is not held by a live row,
   * and fails with DuplicateKey otherwise.
   */
  lemma CreateDuplicateIff(rows: seq<Row>, body: Option<Body>)
    requires WellFormed(rows)
    requires NonNullBody(body)
    ensures var fits := AgeBinds(body.value) && InInt64(NextId(rows));
            && (Create(rows, body).out == DuplicateKey <==> fits && EmailLive(rows, body.value.email.value))
            && (Create(rows, body).out.Created? <==> fits && !EmailLive(rows, body.value.email.value))
  {
  }

  /**
   * A body with all keys but a null value never stores a row; once its
   * parameters bind and a rowid is left, it fails the NOT NULL constraint.
   */
  lemma CreateNullRejected(rows: seq<Row>, body: Option<Body>)
    requires HasAllKeys(body)
    requires body.value.fullName.Null? || body.value.email.Null? || body.value.age.Null?
    ensures Create(rows, body).rows == rows
    ensures AgeBinds(body.value) && InInt64(NextId(rows)) ==> Create(rows, body).out == NullValue
  {
  }

  /**
   * Because email is UNIQUE, repeating a successful create with the same
   * body never makes a second record: it fails with DuplicateKey (or with
   * Full, when the first record took the largest 64-bit id).
   */
  lemma CreateTwiceRejected(rows: seq<Row>, body: Option<Body>)
    requires WellFormed(rows)
    requires Create(rows, body).out.Created?
    ensures var s := Create(rows, body);
            Create(s.rows, body) == Step(if InInt64(s.out.id + 1) then DuplicateKey else Full, s.rows)
  {
  }

  /**
   * Ids follow SQLite's rowid rule, so deleting the newest row frees its id:
   * the next create with the same body is given the same id again.
   */
  lemma IdReusedAfterDeletingNewest(rows: seq<Row>, body: Option<Body>)
    requires WellFormed(rows)
    requires Create(rows, body).out.Created?
    ensures var s1 := Create(rows, body);
            var s2 := Delete(s1.rows, s1.out.id);
            s2.out == Deleted && s2.rows == rows && Create(s2.rows, body).out == s1.out
  {
  }

  /**
   * Python integers are unbounded but SQLite's INTEGER is 64 bits: an age of
   * 2^63 cannot be bound at commit, nor an id of 2^63 at lookup, so each
   * request fails and leaves the table as it was.
   */
  lemma OversizedIntegersRejected(rows: seq<Row>, name: string, email: string)
    ensures Create(rows, Some(Body(Given(name), Given(email), Given(0x8000_0000_0000_0000))))
            == Step(OutOfRange, rows)
    ensures Get(rows, 0x8000_0000_0000_0000) == OutOfRange
    ensures Update(rows, 0x8000_0000_0000_0000, Some(Body(Given(name), Absent, Absent)))
            == Step(OutOfRange, rows)
    ensures Delete(rows, 0x8000_0000_0000_0000) == Step(OutOfRange, rows)
  {
  }

  // ---------------------------------------------------------------- list and get

  /** On a well-formed table no two listed entries share an id, and an empty table lists as empty. */
  lemma ListMatchesGet(rows: seq<Row>)
    requires WellFormed(rows)
    ensures forall i, j :: 0 <= i < |List(rows)| && 0 <= j < |List(rows)| && List(rows)[i].id == List(rows)[j].id ==> i == j
    ensures rows == [] ==> List(rows) == []
  {
  }

  // ---------------------------------------------------------------- update

  /** The record an update returns is the one stored afterwards under the same id. */
  lemma UpdateThenGet(rows: seq<Row>, id: int, body: Option<Body>)
    requires WellFormed(rows)
    requires Update(rows, id, body).out.Updated?
    ensures var s := Update(rows, id, body);
            s.out.row.id == id && Get(s.rows, id) == Found(s.out.row)
  {
    var s := Update(rows, id, body);
    var k := Find(rows, id).value;
    UpdateKeepsWellFormed(rows, id, body);
    assert s.rows[k].id == id;
  }

  /**
   * The partial-update law: a body with only `age` changes only `age`; an
   * age beyond 64 bits cannot be bound and changes nothing.
   */
  lemma UpdateAgeOnly(rows: seq<Row>, id: int, age: int)
    requires WellFormed(rows)
    requires Live(rows, id)
    ensures var s := Update(rows, id, Some(Body(Absent, Absent, Given(age))));
            var before := rows[Find(rows, id).value];
            s.out == if InInt64(age) then Updated(Row(id, before.fullName, before.email, age)) else OutOfRange
  {
  }

  /**
   * On a live id with a body that sets no column to null, the update fails
   * with DuplicateKey exactly when the id and age fit 64 bits and another
   * live row holds the merged email, and succeeds when they fit and none does.
   */
  lemma UpdateDuplicateIff(rows: seq<Row>, id: int, body: Option<Body>)
    requires InRange(rows)
    requires Live(rows, id)
    requires body.Some? && !body.value.fullName.Null? && !body.value.email.Null? && !body.value.age.Null?
    ensures var merged := Pick(body.value.email, rows[Find(rows, id).value].email).value;
            var fits := InInt64(id) && AgeBinds(body.value);
            && (Update(rows, id, body).out == DuplicateKey <==> fits && HeldByOther(rows, merged, id))
            && (Update(rows, id, body).out.Updated? <==> fits && !HeldByOther(rows, merged, id))
  {
  }

  /**
   * A body that sets any column to null changes nothing; once its parameters
   * bind, it fails the NOT NULL constraint.
   */
  lemma UpdateNullRejected(rows: seq<Row>, id: int, body: Option<Body>)
    requires InRange(rows)
    requires Live(rows, id)
    requires body.Some? && (body.value.fullName.Null? || body.value.email.Null? || body.value.age.Null?)
    ensures Update(rows, id, body).rows == rows
    ensures InInt64(id) && AgeBinds(body.value) ==> Update(rows, id, body).out == NullValue
  {
  }

  // ---------------------------------------------------------------- delete

  /**
   * Deleting a live id removes that row and keeps every other one; afterwards
   * both get and delete of that id report NotFound.
   */
  lemma DeleteFinality(rows: seq<Row>, id: int)
    requires WellFormed(rows)
    requires Live(rows, id)
    ensures var s := Delete(rows, id);
            && s.out == Deleted
            && (forall r :: r in s.rows <==> r in rows && r.id != id)
            && Get(s.rows, id) == NotFound
            && Delete(s.rows, id) == Step(NotFound, s.rows)
  {
  }

  // ---------------------------------------------------------------- request histories

  /** One client request to the service. */
  datatype Request =
    | CreateRequest(body: Option<Body>)
    | ListRequest
    | GetRequest(id: int)
    | UpdateRequest(id: int, body: Option<Body>)
    | DeleteRequest(id: int)

  /** The table after serving one request; reads leave it as it is. */
  function Apply(rows: seq<Row>, req: Request): seq<Row>
  {
    match req
    case CreateRequest(body) => Create(rows, body).rows
    case ListRequest => rows
    case GetRequest(_) => rows
    case UpdateRequest(id, body) => Update(rows, id, body).rows
    case DeleteRequest(id) => Delete(rows, id).rows
  }

  /** The table after serving `reqs` in order, one at a time, starting from `rows`. */
  function Serve(reqs: seq<Request>, rows: seq<Row>): seq<Row>
  {
    if reqs == [] then rows else Serve(reqs[1..], Apply(rows, reqs[0]))
  }

  /**
   * Every request keeps ids unique and emails distinct, so any history of
   * requests served from the empty table leaves a well-formed table.
   */
  lemma {:induction false} ServeKeepsWellFormed(reqs: seq<Request>, rows: seq<Row>)
    requires WellFormed(rows)
    ensures WellFormed(Serve(reqs, rows))
  {
    if reqs != [] {
      match reqs[0] {
        case CreateRequest(body) => CreateKeepsWellFormed(rows, body);
        case ListRequest =>
        case GetRequest(_) =>
        case UpdateRequest(id, body) => UpdateKeepsWellFormed(rows, id, body);
        case DeleteRequest(id) => DeleteKeepsWellFormed(rows, id);
      }
      ServeKeepsWellFormed(reqs[1..], Apply(rows, reqs[0]));
    }
  }
}
