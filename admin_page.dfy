/**
 * The administration page (`Admin`): the form that creates reservations,
 * the list of reservations fetched from the shared table, deletion, and the
 * validated / pending counters.
 */
module AdminPage {
  import opened Wrappers
  import opened JsText
  import opened Reservations
  import TicketCode

  /** The notifications the page raises. */
  datatype Toast = NameRequired | LoadFailed | CreateFailed | Created | DeleteFailed | Deleted

  /** Whether a toast reports an error (`toast.error`) or a success (`toast.success`). */
  predicate IsError(t: Toast)
  {
    !(t.Created? || t.Deleted?)
  }

  /** The French text of each toast. */
  function ToastText(t: Toast): string
  {
    match t
    case NameRequired => "Le nom est requis"
    case LoadFailed => "Erreur lors du chargement des r\U{e9}servations"
    case CreateFailed => "Erreur lors de la cr\U{e9}ation de la r\U{e9}servation"
    case Created => "R\U{e9}servation cr\U{e9}\U{e9}e avec succ\U{e8}s"
    case DeleteFailed => "Erreur lors de la suppression"
    case Deleted => "R\U{e9}servation supprim\U{e9}e"
  }

  /** `newEmail.trim() || null`: the trimmed address, or null when nothing but white space was typed. */
  function EmailColumn(email: string): (e: Option<string>)
    ensures e.None? <==> AllWhitespace(email)
    ensures e.Some? ==> e.value == Trim(email) && e.value != []
  {
    TrimEmptyIffWhitespace(email);
    if Trim(email) == [] then None else Some(Trim(email))
  }

  /** `reservations.filter(r => r.is_validated).length`. */
  function ValidatedCount(list: seq<Reservation>): (n: nat)
    ensures n <= |list|
    ensures n == 0 <==> forall i :: 0 <= i < |list| ==> !list[i].isValidated
    ensures n == |list| <==> forall i :: 0 <= i < |list| ==> list[i].isValidated
  {
    if list == [] then 0
    else
      var n := ValidatedCount(list[1..]);
      assert forall i :: 1 <= i < |list| ==> list[i] == list[1..][i - 1];
      (if list[0].isValidated then 1 else 0) + n
  }

  /** `reservations.filter(r => !r.is_validated).length`. */
  function PendingCount(list: seq<Reservation>): (n: nat)
    ensures n <= |list|
    ensures n == 0 <==> forall i :: 0 <= i < |list| ==> list[i].isValidated
    ensures n == |list| <==> forall i :: 0 <= i < |list| ==> !list[i].isValidated
  {
    if list == [] then 0
    else
      var n := PendingCount(list[1..]);
      assert forall i :: 1 <= i < |list| ==> list[i] == list[1..][i - 1];
      (if list[0].isValidated then 0 else 1) + n
  }

  /** The two counters split the list: every reservation is validated or pending, not both. */
  lemma {:induction false} CountsPartition(list: seq<Reservation>)
    ensures ValidatedCount(list) + PendingCount(list) == |list|
  {
    if list != [] {
      CountsPartition(list[1..]);
    }
  }

  lemma {:induction false} CountsAfterInsert(r: Reservation, s: seq<Reservation>)
    ensures ValidatedCount(InsertNewestFirst(r, s)) == ValidatedCount(s) + (if r.isValidated then 1 else 0)
  {
    if s != [] && r.createdAt < s[0].createdAt {
      CountsAfterInsert(r, s[1..]);
      assert InsertNewestFirst(r, s)[1..] == InsertNewestFirst(r, s[1..]);
    }
  }

  /** The counters shown after a fetch are those of the table itself. */
  lemma {:induction false} FetchedCounts(rows: seq<Reservation>)
    ensures |OrderByCreatedDesc(rows)| == |rows|
    ensures ValidatedCount(OrderByCreatedDesc(rows)) == ValidatedCount(rows)
    ensures PendingCount(OrderByCreatedDesc(rows)) == PendingCount(rows)
  {
    var list := OrderByCreatedDesc(rows);
    assert |list| == |multiset(list)| == |multiset(rows)| == |rows|;
    if rows != [] {
      FetchedCounts(rows[1..]);
      CountsAfterInsert(rows[0], OrderByCreatedDesc(rows[1..]));
    }
    CountsPartition(list);
    CountsPartition(rows);
  }

  /** The row `addReservation` inserts; id, creation time and party size are the table's defaults. */
  function NewReservation(id: Id, name: string, email: string, code: string, persons: int, createdAt: Timestamp): Reservation
  {
    Reservation(id, Trim(name), EmailColumn(email), code, persons, false, None, createdAt)
  }

  /**
   * The row the page inserts: the trimmed name, which is not empty and
   * neither starts nor ends with white space; no email exactly when only
   * white space was typed; not validated; and a code that reads back as the
   * clock reading and suffix it was made from.
   */
  lemma NewReservationColumns(id: Id, name: string, email: string, nowMillis: nat, random36: string,
                              persons: int, createdAt: Timestamp)
    requires Trim(name) != [] && TicketCode.IsRandomBase36(random36)
    ensures var r := NewReservation(id, name, email, TicketCode.GenerateQRCode(nowMillis, random36), persons, createdAt);
      && r.id == id && r.clientName == Trim(name) && r.clientName != []
      && !IsWhitespace(r.clientName[0]) && !IsWhitespace(r.clientName[|r.clientName| - 1])
      && (r.clientEmail.None? <==> AllWhitespace(email))
      && !r.isValidated && r.validatedAt.None? && r.createdAt == createdAt
      && TicketCode.ParseQRCode(r.qrCode) == Some((nowMillis, TicketCode.Suffix(random36)))
  {
    TrimSpec(name);
    TicketCode.ParseGenerated(nowMillis, random36);
  }

  /** The page's state over the shared table. */
  class Admin {
    const db: Database
    var reservations: seq<Reservation>
    var isLoading: bool
    var newName: string
    var newEmail: string
    var isAdding: bool
    var toasts: seq<Toast>

    ghost predicate Valid()
      reads this, db
    {
      db.Valid()
    }

    constructor (db: Database)
      requires db.Valid()
      ensures this.db == db && Valid()
      ensures reservations == [] && isLoading && newName == "" && newEmail == "" && !isAdding && toasts == []
    {
      this.db := db;
      reservations := [];
      isLoading := true;
      newName := "";
      newEmail := "";
      isAdding := false;
      toasts := [];
    }

    /** The name field's `onChange`. */
    method EditName(value: string)
      modifies this`newName
      ensures newName == value
    {
      newName := value;
    }

    /** The email field's `onChange`. */
    method EditEmail(value: string)
      modifies this`newEmail
      ensures newEmail == value
    {
      newEmail := value;
    }

    /**
     * `fetchReservations()`: on an answer, the list becomes the table ordered
     * by `created_at` descending and loading ends; on an error, only a toast;
     * a rejected promise changes nothing.
     */
    method FetchReservations(reply: Reply)
      modifies this`reservations, this`isLoading, this`toasts
      ensures reply == Answered ==>
        reservations == OrderByCreatedDesc(db.rows) && !isLoading && toasts == old(toasts)
      ensures reply == Failed ==>
        reservations == old(reservations) && isLoading == old(isLoading) && toasts == old(toasts) + [LoadFailed]
      ensures reply == Threw ==>
        reservations == old(reservations) && isLoading == old(isLoading) && toasts == old(toasts)
    {
      if reply == Threw {
        return;
      }
      if reply == Failed {
        toasts := toasts + [LoadFailed];
        return;
      }
      reservations := OrderByCreatedDesc(db.rows);
      isLoading := false;
    }

    /**
     * `addReservation()`. A name that trims to nothing is refused before
     * anything is sent. Otherwise a fresh code is generated and the row
     * inserted; on success the form is cleared and the list refetched, on an
     * error the form is kept; `isAdding` ends false either way. A rejected
     * insert leaves `isAdding` true, as the source never catches it.
     */
    method AddReservation(id: Id, nowMillis: nat, random36: string, createdAt: Timestamp, persons: int,
                          insert: Reply, fetch: Reply)
      requires Valid() && TicketCode.IsRandomBase36(random36)
      modifies this, db
      ensures Valid()
      ensures Trim(old(newName)) == [] ==>
        && db.rows == old(db.rows) && toasts == old(toasts) + [NameRequired]
        && newName == old(newName) && newEmail == old(newEmail) && isAdding == old(isAdding)
        && reservations == old(reservations) && isLoading == old(isLoading)
      ensures Trim(old(newName)) != [] ==>
        var row := NewReservation(id, old(newName), old(newEmail), TicketCode.GenerateQRCode(nowMillis, random36), persons, createdAt);
        var inserted := insert == Answered && !HasId(old(db.rows), id);
        && db.rows == (if inserted then old(db.rows) + [row] else old(db.rows))
        && (inserted ==>
              && newName == "" && newEmail == "" && !isAdding
              && toasts == old(toasts) + [Created] + (if fetch == Failed then [LoadFailed] else [])
              && (if fetch == Answered then reservations == OrderByCreatedDesc(db.rows) && !isLoading
                  else reservations == old(reservations) && isLoading == old(isLoading)))
        && (!inserted && insert != Threw ==>
              && newName == old(newName) && newEmail == old(newEmail) && !isAdding
              && toasts == old(toasts) + [CreateFailed]
              && reservations == old(reservations) && isLoading == old(isLoading))
        && (insert == Threw ==>
              && newName == old(newName) && newEmail == old(newEmail) && isAdding
              && toasts == old(toasts) && reservations == old(reservations) && isLoading == old(isLoading))
    {
      if Trim(newName) == [] {
        toasts := toasts + [NameRequired];
        return;
      }
      isAdding := true;
      var code := TicketCode.GenerateQRCode(nowMillis, random36);
      var row := NewReservation(id, newName, newEmail, code, persons, createdAt);
      assert row.id == id;
      InsertAndRefresh(row, insert, fetch);
    }

    /** The part of `addReservation()` from the insert on, with `isAdding` already set. */
    method InsertAndRefresh(row: Reservation, insert: Reply, fetch: Reply)
      requires Valid()
      modifies this, db
      ensures Valid()
      ensures var inserted := insert == Answered && !HasId(old(db.rows), row.id);
        && db.rows == (if inserted then old(db.rows) + [row] else old(db.rows))
        && (inserted ==>
              && newName == "" && newEmail == "" && !isAdding
              && toasts == old(toasts) + [Created] + (if fetch == Failed then [LoadFailed] else [])
              && (if fetch == Answered then reservations == OrderByCreatedDesc(db.rows) && !isLoading
                  else reservations == old(reservations) && isLoading == old(isLoading)))
        && (!inserted && insert != Threw ==>
              && newName == old(newName) && newEmail == old(newEmail) && !isAdding
              && toasts == old(toasts) + [CreateFailed]
              && reservations == old(reservations) && isLoading == old(isLoading))
        && (insert == Threw ==>
              && newName == old(newName) && newEmail == old(newEmail) && isAdding == old(isAdding)
              && toasts == old(toasts) && reservations == old(reservations) && isLoading == old(isLoading))
    {
      if insert == Threw {
        return;
      }
      var ok := false;
      if insert == Answered {
        ok := db.Insert(row);
      }
      if !ok {
        toasts := toasts + [CreateFailed];
        isAdding := false;
        return;
      }
      toasts := toasts + [Created];
      newName := "";
      newEmail := "";
      isAdding := false;
      FetchReservations(fetch);
    }

    /** `deleteReservation(id)`: the rows with this id leave the table and the list is refetched. */
    method DeleteReservation(id: Id, delete: Reply, fetch: Reply)
      requires Valid()
      modifies this, db
      ensures Valid()
      ensures db.rows == if delete == Answered then DeleteById(old(db.rows), id) else old(db.rows)
      ensures newName == old(newName) && newEmail == old(newEmail) && isAdding == old(isAdding)
      ensures delete == Failed ==> toasts == old(toasts) + [DeleteFailed] && reservations == old(reservations)
      ensures delete == Threw ==> toasts == old(toasts) && reservations == old(reservations)
      ensures delete == Answered ==> toasts == old(toasts) + [Deleted] + (if fetch == Failed then [LoadFailed] else [])
      ensures delete == Answered && fetch == Answered ==> reservations == OrderByCreatedDesc(db.rows)
      ensures delete == Answered && fetch != Answered ==> reservations == old(reservations)
      ensures isLoading == if delete == Answered && fetch == Answered then false else old(isLoading)
    {
      if delete == Threw {
        return;
      }
      if delete == Failed {
        toasts := toasts + [DeleteFailed];
        return;
      }
      DeleteAndRefresh(id, fetch);
    }

    /** The part of `deleteReservation(id)` after the delete has answered. */
    method DeleteAndRefresh(id: Id, fetch: Reply)
      requires Valid()
      modifies this, db
      ensures Valid()
      ensures db.rows == DeleteById(old(db.rows), id)
      ensures newName == old(newName) && newEmail == old(newEmail) && isAdding == old(isAdding)
      ensures toasts == old(toasts) + [Deleted] + (if fetch == Failed then [LoadFailed] else [])
      ensures fetch == Answered ==> reservations == OrderByCreatedDesc(db.rows)
      ensures fetch != Answered ==> reservations == old(reservations)
      ensures isLoading == if fetch == Answered then false else old(isLoading)
    {
      db.Delete(id);
      toasts := toasts + [Deleted];
      FetchReservations(fetch);
    }
  }
}
