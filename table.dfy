/**
 * The table as the services hold it: one mutable store whose create, update
 * and delete stage a mapped object, change it in place, and commit it all or
 * nothing. Each method is proved to do what the matching function of
 * `Lifecycle` describes, and to keep the primary-key and UNIQUE invariants.
 */
module Store {
  import opened Wrappers
  import opened Records
  import opened Lifecycle
  import LifecycleProperties

  class Table {
    var rows: seq<Row>

    ghost predicate Valid()
      reads this
    {
      WellFormed(rows)
    }

    constructor ()
      ensures Valid() && rows == []
    {
      rows := [];
    }

    /** `create_user` / `add_contact`. */
    method Create(body: Option<Body>) returns (out: Outcome)
      requires Valid()
      modifies this
      ensures Valid()
      ensures Step(out, rows) == Lifecycle.Create(old(rows), body)
    {
      if body.None? || body.value.fullName.Absent? || body.value.email.Absent? || body.value.age.Absent? {
        return InvalidInput;
      }
      var data := body.value;
      var newRecord := Staged(Value(data.fullName), Value(data.email), Value(data.age));
      var id := NextId(rows);
      if !Binds(newRecord) {
        out := OutOfRange;
      } else if !InInt64(id) {
        out := Full;
      } else {
        match Complete(id, newRecord) {
          case None =>
            out := NullValue;
          case Some(r) =>
            if HeldByOther(rows, r.email, id) {
              out := DuplicateKey;
            } else {
              rows := rows + [r];
              out := Created(id);
            }
        }
      }
      LifecycleProperties.CreateKeepsWellFormed(old(rows), body);
    }

    /** `update_user` / `update_contact`: overwrite the present keys one column at a time, then commit. */
    method Update(id: int, body: Option<Body>) returns (out: Outcome)
      requires Valid()
      modifies this
      ensures Valid()
      ensures Step(out, rows) == Lifecycle.Update(old(rows), id, body)
    {
      if !InInt64(id) {
        return OutOfRange;
      }
      var found := Find(rows, id);
      if found.None? {
        return NotFound;
      }
      var k := found.value;
      if body.None? {
        return MalformedBody;
      }
      var data := body.value;
      var record := Load(rows[k]);
      if !data.fullName.Absent? {
        record := record.(fullName := Value(data.fullName));
      }
      if !data.email.Absent? {
        record := record.(email := Value(data.email));
      }
      if !data.age.Absent? {
        record := record.(age := Value(data.age));
      }
      if !Binds(record) {
        out := OutOfRange;
      } else {
        match Complete(id, record) {
          case None =>
            out := NullValue;
          case Some(r) =>
            if HeldByOther(rows, r.email, id) {
              out := DuplicateKey;
            } else {
              rows := rows[k := r];
              out := Updated(r);
            }
        }
      }
      LifecycleProperties.UpdateKeepsWellFormed(old(rows), id, body);
    }

    /** `delete_user` / `delete_contact`. */
    method Delete(id: int) returns (out: Outcome)
      requires Valid()
      modifies this
      ensures Valid()
      ensures Step(out, rows) == Lifecycle.Delete(old(rows), id)
    {
      if !InInt64(id) {
        return OutOfRange;
      }
      var found := Find(rows, id);
      if found.None? {
        return NotFound;
      }
      var k := found.value;
      rows := rows[..k] + rows[k + 1..];
      out := Deleted;
      LifecycleProperties.DeleteKeepsWellFormed(old(rows), id);
    }
  }
}
