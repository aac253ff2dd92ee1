/**
 * The record entity shared by both variants of the service (`User` and
 * `Contact`): the stored row, the JSON request body that creates or patches
 * it, the ORM object as it stands before a commit, and the outcome of each
 * lifecycle operation.
 */
module Records {
  import opened Wrappers

  /** One key of a JSON request object: missing, present with `null`, or present with a value. */
  datatype Field<+T> = Absent | Null | Given(value: T)

  /** The three caller-supplied keys of a request body; any other key is ignored. */
  datatype Body = Body(fullName: Field<string>, email: Field<string>, age: Field<int>)

  /** A committed row: an integer primary key and the three NOT NULL columns. */
  datatype Row = Row(id: int, fullName: string, email: string, age: int)

  /** A mapped object before commit: each column may still hold Python's `None`. */
  datatype Staged = Staged(fullName: Option<string>, email: Option<string>, age: Option<int>)

  /** What an operation reports; all but the first four are failures, which change nothing. */
  datatype Outcome =
    | Created(id: int)
    | Found(row: Row)
    | Updated(row: Row)
    | Deleted
    | InvalidInput   // create without a body or without one of the three keys
    | MalformedBody  // update of a live row whose body is not a JSON object
    | NotFound       // no live row has the requested id
    | DuplicateKey   // the UNIQUE constraint on email fails at commit
    | NullValue      // a NOT NULL constraint fails at commit
    | OutOfRange     // an id or age does not fit SQLite's 64-bit INTEGER and cannot be bound
    | Full           // SQLite's next rowid would pass the largest 64-bit integer
  {
    predicate Failed() {
      InvalidInput? || MalformedBody? || NotFound? || DuplicateKey? || NullValue? || OutOfRange? || Full?
    }
  }

  /** The range of SQLite's INTEGER storage class, which every bound integer parameter must fit. */
  predicate InInt64(x: int)
  {
    -0x8000_0000_0000_0000 <= x < 0x8000_0000_0000_0000
  }

  /** A staged object whose parameters can all be bound (strings and `None` always can). */
  predicate Binds(s: Staged)
  {
    s.age.None? || InInt64(s.age.value)
  }

  /** A request body whose `age`, if given, fits 64 bits. */
  predicate AgeBinds(b: Body)
  {
    !b.age.Given? || InInt64(b.age.value)
  }

  /** The outcome of an operation together with the table it leaves behind. */
  datatype Step = Step(out: Outcome, rows: seq<Row>)

  /** The Python value `data[key]` of a key that is present: `null` becomes `None`. */
  function Value<T>(f: Field<T>): Option<T>
    requires !f.Absent?
  {
    if f.Given? then Some(f.value) else None
  }

  /** The Python value `data.get(key, current)`. */
  function Pick<T>(f: Field<T>, current: T): Option<T>
  {
    if f.Absent? then Some(current) else Value(f)
  }

  /** The mapped object loaded from a committed row. */
  function Load(r: Row): Staged
  {
    Staged(Some(r.fullName), Some(r.email), Some(r.age))
  }

  /**
   * The NOT NULL check of a commit: a staged object becomes a row exactly
   * when none of its three columns is `None`, and then carries their values.
   */
  function Complete(id: int, s: Staged): (r: Option<Row>)
    ensures r.Some? <==> s.fullName.Some? && s.email.Some? && s.age.Some?
    ensures r.Some? ==> r.value.id == id && Some(r.value.fullName) == s.fullName
                        && Some(r.value.email) == s.email && Some(r.value.age) == s.age
  {
    match (s.fullName, s.email, s.age)
    case (Some(n), Some(e), Some(a)) => Some(Row(id, n, e, a))
    case _ => None
  }

  /**
   * The merge-patch law as a relation, independent of how the service
   * computes it: the id is kept, an absent key keeps the old value, a given
   * key installs its value, and a `null` key admits no row at all.
   */
  ghost predicate Patched(before: Row, b: Body, after: Row)
  {
    && after.id == before.id
    && FieldAfter(b.fullName, before.fullName, after.fullName)
    && FieldAfter(b.email, before.email, after.email)
    && FieldAfter(b.age, before.age, after.age)
  }

  ghost predicate FieldAfter<T>(f: Field<T>, before: T, after: T)
  {
    match f
    case Absent => after == before
    case Null => false
    case Given(v) => after == v
  }

  /** A create body carries exactly the fields of `r` (id aside), none of them null. */
  ghost predicate Carries(body: Option<Body>, r: Row)
  {
    body.Some? && body.value.fullName == Given(r.fullName)
    && body.value.email == Given(r.email) && body.value.age == Given(r.age)
  }
}
