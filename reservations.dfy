/**
 * The `reservations` table and the queries the application runs against it.
 * Each query is a function on the rows; the `Database` class holds the rows
 * that the scanning hook and the administration page share and change.
 */
module Reservations {
  import opened Wrappers

  type Id = string

  /** An instant (`created_at`, `validated_at`); its textual ISO form is not modelled. */
  type Timestamp = nat

  /** One row of `reservations`. */
  datatype Reservation = Reservation(
    id: Id,
    clientName: string,
    clientEmail: Option<string>,
    qrCode: string,
    numberOfPersons: int,
    isValidated: bool,
    validatedAt: Option<Timestamp>,
    createdAt: Timestamp)

  /** `id` is the primary key. */
  predicate UniqueIds(rows: seq<Reservation>)
  {
    forall i, j :: 0 <= i < j < |rows| ==> rows[i].id != rows[j].id
  }

  predicate HasId(rows: seq<Reservation>, id: Id)
  {
    exists i :: 0 <= i < |rows| && rows[i].id == id
  }

  /** `.eq('qr_code', code)`: the rows holding that code, in table order. */
  function WithCode(rows: seq<Reservation>, code: string): (m: seq<Reservation>)
    ensures |m| <= |rows|
    ensures forall r :: r in m <==> r in rows && r.qrCode == code
  {
    if rows == [] then []
    else (if rows[0].qrCode == code then [rows[0]] else []) + WithCode(rows[1..], code)
  }

  /** Every matching row keeps its multiplicity; no other row survives. */
  lemma {:induction false} WithCodeCounts(rows: seq<Reservation>, code: string)
    ensures forall r :: multiset(WithCode(rows, code))[r] == if r.qrCode == code then multiset(rows)[r] else 0
  {
    if rows != [] {
      WithCodeCounts(rows[1..], code);
      assert rows == [rows[0]] + rows[1..];
      var head := if rows[0].qrCode == code then [rows[0]] else [];
      assert WithCode(rows, code) == head + WithCode(rows[1..], code);
      assert multiset(rows) == multiset([rows[0]]) + multiset(rows[1..]);
    }
  }

  /** `.select('*').eq('qr_code', code).single()`: the row when exactly one matches, an error otherwise. */
  function SelectSingle(rows: seq<Reservation>, code: string): (r: Option<Reservation>)
    ensures r.Some? <==> |WithCode(rows, code)| == 1
    ensures r.Some? ==> r.value in rows && r.value.qrCode == code
  {
    var m := WithCode(rows, code);
    if |m| == 1 then assert m[0] in m; Some(m[0]) else None
  }

  /** The row after `.update({ is_validated: true, validated_at: now })`. */
  function Validated(r: Reservation, now: Timestamp): Reservation
  {
    r.(isValidated := true, validatedAt := Some(now))
  }

  /** `.update({ is_validated: true, validated_at: now }).eq('id', id)`. */
  function MarkValidated(rows: seq<Reservation>, id: Id, now: Timestamp): (out: seq<Reservation>)
    ensures |out| == |rows|
    ensures forall i :: 0 <= i < |rows| && rows[i].id == id ==>
      out[i].isValidated && out[i].validatedAt == Some(now) && out[i] == rows[i].(isValidated := true, validatedAt := Some(now))
    ensures forall i :: 0 <= i < |rows| && rows[i].id != id ==> out[i] == rows[i]
  {
    if rows == [] then []
    else [if rows[0].id == id then Validated(rows[0], now) else rows[0]] + MarkValidated(rows[1..], id, now)
  }

  /** `.delete().eq('id', id)`: every row with that id goes, the others stay in order. */
  function DeleteById(rows: seq<Reservation>, id: Id): seq<Reservation>
  {
    if rows == [] then []
    else (if rows[0].id == id then [] else [rows[0]]) + DeleteById(rows[1..], id)
  }

  /** Exactly the rows with the id go, nothing is added, and an absent id changes nothing. */
  lemma {:induction false} DeleteByIdSpec(rows: seq<Reservation>, id: Id)
    ensures forall r :: r in DeleteById(rows, id) <==> r in rows && r.id != id
    ensures multiset(DeleteById(rows, id)) <= multiset(rows)
    ensures !HasId(rows, id) ==> DeleteById(rows, id) == rows
  {
    if rows != [] {
      DeleteByIdSpec(rows[1..], id);
      assert rows == [rows[0]] + rows[1..];
      if !HasId(rows, id) {
        assert !HasId(rows[1..], id) by {
          forall i | 0 <= i < |rows[1..]| ensures rows[1..][i].id != id {
            assert rows[1..][i] == rows[i + 1];
          }
        }
      }
    }
  }

  /** Deleting twice is deleting once. */
  lemma DeleteIdempotent(rows: seq<Reservation>, id: Id)
    ensures DeleteById(DeleteById(rows, id), id) == DeleteById(rows, id)
  {
    var out := DeleteById(rows, id);
    DeleteByIdSpec(rows, id);
    DeleteByIdSpec(out, id);
    assert !HasId(out, id) by {
      forall i | 0 <= i < |out| ensures out[i].id != id {
        assert out[i] in out;
      }
    }
  }

  /** Rows listed most recent first. */
  predicate NewestFirst(s: seq<Reservation>)
  {
    forall i, j :: 0 <= i < j < |s| ==> s[i].createdAt >= s[j].createdAt
  }

  /** Inserts `r` before the first row that is not more recent than it. */
  function InsertNewestFirst(r: Reservation, s: seq<Reservation>): (out: seq<Reservation>)
    ensures multiset(out) == multiset(s) + multiset{r}
  {
    if s == [] || r.createdAt >= s[0].createdAt then
      [r] + s
    else
      assert s == [s[0]] + s[1..];
      [s[0]] + InsertNewestFirst(r, s[1..])
  }

  /** A row inserted under a bound, into rows under that bound, leaves every row under it. */
  lemma InsertStaysBelow(r: Reservation, s: seq<Reservation>, bound: Timestamp)
    requires r.createdAt <= bound
    requires forall i :: 0 <= i < |s| ==> s[i].createdAt <= bound
    ensures forall i :: 0 <= i < |InsertNewestFirst(r, s)| ==> InsertNewestFirst(r, s)[i].createdAt <= bound
  {
    var out := InsertNewestFirst(r, s);
    forall i | 0 <= i < |out| ensures out[i].createdAt <= bound {
      assert out[i] in multiset(out);
      if out[i] != r {
        assert out[i] in multiset(s);
      }
    }
  }

  /** A row at least as recent as every row of an ordered list can head it. */
  lemma ConsNewestFirst(h: Reservation, t: seq<Reservation>)
    requires NewestFirst(t)
    requires forall i :: 0 <= i < |t| ==> t[i].createdAt <= h.createdAt
    ensures NewestFirst([h] + t)
  {
    var out := [h] + t;
    forall i, j | 0 <= i < j < |out| ensures out[i].createdAt >= out[j].createdAt {
      assert out[j] == t[j - 1];
      if i > 0 {
        assert out[i] == t[i - 1];
      }
    }
  }

  lemma {:induction false} InsertKeepsNewestFirst(r: Reservation, s: seq<Reservation>)
    requires NewestFirst(s)
    ensures NewestFirst(InsertNewestFirst(r, s))
  {
    if s == [] || r.createdAt >= s[0].createdAt {
      ConsNewestFirst(r, s);
    } else {
      InsertKeepsNewestFirst(r, s[1..]);
      InsertStaysBelow(r, s[1..], s[0].createdAt);
      ConsNewestFirst(s[0], InsertNewestFirst(r, s[1..]));
    }
  }

  /** `.order('created_at', { ascending: false })`: the same rows, most recent first. */
  function OrderByCreatedDesc(rows: seq<Reservation>): (out: seq<Reservation>)
    ensures multiset(out) == multiset(rows)
    ensures NewestFirst(out)
  {
    if rows == [] then []
    else
      assert rows == [rows[0]] + rows[1..];
      InsertKeepsNewestFirst(rows[0], OrderByCreatedDesc(rows[1..]));
      InsertNewestFirst(rows[0], OrderByCreatedDesc(rows[1..]))
  }

  /** The shared table. */
  class Database {
    var rows: seq<Reservation>

    ghost predicate Valid()
      reads this
    {
      UniqueIds(rows)
    }

    constructor (initial: seq<Reservation>)
      requires UniqueIds(initial)
      ensures Valid() && rows == initial
    {
      rows := initial;
    }

    /** Applies the validation update to the rows with this id. */
    method ApplyValidation(id: Id, now: Timestamp)
      requires Valid()
      modifies this
      ensures Valid()
      ensures rows == MarkValidated(old(rows), id, now)
    {
      rows := MarkValidated(rows, id, now);
    }

    /** Inserts a row; the primary key refuses a duplicate id. */
    method Insert(r: Reservation) returns (ok: bool)
      requires Valid()
      modifies this
      ensures Valid()
      ensures ok <==> !HasId(old(rows), r.id)
      ensures rows == if ok then old(rows) + [r] else old(rows)
    {
      ok := true;
      var i := 0;
      while i < |rows|
        invariant 0 <= i <= |rows|
        invariant ok <==> forall k :: 0 <= k < i ==> rows[k].id != r.id
      {
        if rows[i].id == r.id {
          ok := false;
        }
        i := i + 1;
      }
      if ok {
        rows := rows + [r];
      }
    }

    /** Removes the rows with this id. */
    method Delete(id: Id)
      requires Valid()
      modifies this
      ensures Valid()
      ensures rows == DeleteById(old(rows), id)
    {
      DeleteKeepsUniqueIds(rows, id);
      rows := DeleteById(rows, id);
    }
  }

  lemma MarkValidatedKeepsIds(rows: seq<Reservation>, id: Id, now: Timestamp)
    ensures forall i :: 0 <= i < |rows| ==> MarkValidated(rows, id, now)[i].id == rows[i].id
  {
  }

  lemma {:induction false} DeleteKeepsUniqueIds(rows: seq<Reservation>, id: Id)
    requires UniqueIds(rows)
    ensures UniqueIds(DeleteById(rows, id))
  {
    if rows != [] {
      DeleteKeepsUniqueIds(rows[1..], id);
      DeleteByIdSpec(rows[1..], id);
      var tail := DeleteById(rows[1..], id);
      forall k | 0 <= k < |tail| ensures tail[k].id != rows[0].id {
        assert tail[k] in tail;
        var j :| 0 <= j < |rows[1..]| && rows[1..][j] == tail[k];
        assert rows[j + 1] == tail[k];
      }
    }
  }
}
