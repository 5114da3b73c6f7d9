/**
 * The scanning station's redemption hook (`useReservationValidator`): look a
 * scanned code up, refuse an unknown or already used ticket, otherwise mark
 * the row validated and admit the holder. `Redeem` is the outcome of one scan
 * as a function of the table; the class runs it step by step against the
 * shared `Database` and the hook's displayed state.
 */
module Validator {
  import opened Wrappers
  import opened Reservations

  /** The messages the hook shows; the date inside "already used" is formatted by the locale and kept as an instant. */
  datatype Message =
    | NotRecognised
    | AlreadyUsedOn(validatedAt: Option<Timestamp>)
    | ValidationError
    | ConnectionError
    | Welcome

  /** The French text of each message, given the locale's rendering of the date for "already used". */
  function MessageText(m: Message, renderedDate: string): string
  {
    match m
    case NotRecognised => "QR Code non reconnu. Ce ticket n'existe pas."
    case AlreadyUsedOn(_) => "Ticket d\U{e9}j\U{e0} utilis\U{e9} le " + renderedDate
    case ValidationError => "Erreur lors de la validation. R\U{e9}essayez."
    case ConnectionError => "Erreur de connexion. V\U{e9}rifiez votre r\U{e9}seau."
    case Welcome => "Bienvenue \U{e0} la soir\U{e9}e !"
  }

  datatype Sound = SuccessSound | ErrorSound

  /** The hook's `ValidationState`; `None` stands for `null` / `undefined`. */
  datatype ValidationState = ValidationState(
    isValid: Option<bool>,
    clientName: Option<string>,
    numberOfPersons: Option<int>,
    message: Option<Message>,
    isLoading: bool)

  /** The state the hook starts in and `reset` restores. */
  const Initial := ValidationState(None, None, None, None, false)

  /** A refusal that names no holder. */
  function Refused(m: Message): ValidationState
  {
    ValidationState(Some(false), None, None, Some(m), false)
  }

  /** What one scan leaves behind: the table, the displayed state, the sound played. */
  datatype Scan = Scan(rows: seq<Reservation>, state: ValidationState, sound: Sound)

  predicate Granted(s: Scan) { s.state.isValid == Some(true) }

  /**
   * `validateQRCode(code)` against `rows`, with the clock reading `now` and
   * the way the lookup and the update calls end.
   */
  function Redeem(rows: seq<Reservation>, code: string, now: Timestamp, lookup: Reply, update: Reply): (s: Scan)
    ensures !s.state.isLoading && s.state.isValid.Some? && s.state.message.Some?
    ensures Granted(s) <==> s.sound == SuccessSound
    // admitted exactly when the code names one fresh row and both calls answer
    ensures Granted(s) <==>
      lookup == Answered && SelectSingle(rows, code).Some? && !SelectSingle(rows, code).value.isValidated && update == Answered
    ensures Granted(s) ==>
      var r := SelectSingle(rows, code).value;
      && s.rows == MarkValidated(rows, r.id, now)
      && s.state == ValidationState(Some(true), Some(r.clientName), Some(r.numberOfPersons), Some(Welcome), false)
    // every refusal leaves the table as it was
    ensures !Granted(s) ==> s.rows == rows
    ensures lookup == Threw ==> s.state == Refused(ConnectionError)
    ensures lookup == Failed || (lookup == Answered && SelectSingle(rows, code).None?) ==>
      s.state == Refused(NotRecognised)
    ensures lookup == Answered && SelectSingle(rows, code).Some? && SelectSingle(rows, code).value.isValidated ==>
      var r := SelectSingle(rows, code).value;
      s.state == ValidationState(Some(false), Some(r.clientName), Some(r.numberOfPersons), Some(AlreadyUsedOn(r.validatedAt)), false)
    ensures lookup == Answered && SelectSingle(rows, code).Some? && !SelectSingle(rows, code).value.isValidated ==>
      (update == Failed ==> s.state == Refused(ValidationError)) && (update == Threw ==> s.state == Refused(ConnectionError))
  {
    if lookup == Threw then Scan(rows, Refused(ConnectionError), ErrorSound)
    else
      var found := if lookup == Answered then SelectSingle(rows, code) else None;
      if found.None? then Scan(rows, Refused(NotRecognised), ErrorSound)
      else
        var r := found.value;
        if r.isValidated then
          Scan(rows, ValidationState(Some(false), Some(r.clientName), Some(r.numberOfPersons), Some(AlreadyUsedOn(r.validatedAt)), false), ErrorSound)
        else if update == Threw then Scan(rows, Refused(ConnectionError), ErrorSound)
        else if update == Failed then Scan(rows, Refused(ValidationError), ErrorSound)
        else
          assert lookup == Answered && update == Answered;
          Scan(MarkValidated(rows, r.id, now), ValidationState(Some(true), Some(r.clientName), Some(r.numberOfPersons), Some(Welcome), false), SuccessSound)
  }

  /** The validation update never changes which rows carry a code. */
  lemma {:induction false} WithCodeAfterMark(rows: seq<Reservation>, code: string, id: Id, now: Timestamp)
    ensures WithCode(MarkValidated(rows, id, now), code) == MarkValidated(WithCode(rows, code), id, now)
  {
    if rows != [] {
      WithCodeAfterMark(rows[1..], code, id, now);
      assert MarkValidated(rows, id, now)[1..] == MarkValidated(rows[1..], id, now);
    }
  }

  /** The code names one row, and that row is already validated. */
  predicate UsedUp(rows: seq<Reservation>, code: string)
  {
    SelectSingle(rows, code).Some? && SelectSingle(rows, code).value.isValidated
  }

  lemma UsedUpAfterMark(rows: seq<Reservation>, code: string, id: Id, now: Timestamp)
    requires UsedUp(rows, code)
    ensures UsedUp(MarkValidated(rows, id, now), code)
    ensures SelectSingle(MarkValidated(rows, id, now), code).value ==
      var r := SelectSingle(rows, code).value; if r.id == id then Validated(r, now) else r
  {
    WithCodeAfterMark(rows, code, id, now);
  }

  /** A successful scan uses the ticket up. */
  lemma GrantUsesUp(rows: seq<Reservation>, code: string, now: Timestamp, lookup: Reply, update: Reply)
    requires Granted(Redeem(rows, code, now, lookup, update))
    ensures UsedUp(Redeem(rows, code, now, lookup, update).rows, code)
    ensures SelectSingle(Redeem(rows, code, now, lookup, update).rows, code).value ==
      Validated(SelectSingle(rows, code).value, now)
  {
    var r := SelectSingle(rows, code).value;
    WithCodeAfterMark(rows, code, r.id, now);
  }

  /** A used-up ticket stays used up, whatever code is scanned next. */
  lemma UsedUpStays(rows: seq<Reservation>, code: string, other: string, now: Timestamp, lookup: Reply, update: Reply)
    requires UsedUp(rows, code)
    ensures UsedUp(Redeem(rows, other, now, lookup, update).rows, code)
  {
    var s := Redeem(rows, other, now, lookup, update);
    if Granted(s) {
      UsedUpAfterMark(rows, code, SelectSingle(rows, other).value.id, now);
    }
  }

  /**
   * Scanning the same code twice: the first scan admits, the second refuses
   * as "already used", names the same holder and reports the first scan's
   * instant, and changes nothing.
   */
  lemma SecondScanRefused(rows: seq<Reservation>, code: string, t1: Timestamp, t2: Timestamp, u1: Reply, u2: Reply)
    requires Granted(Redeem(rows, code, t1, Answered, u1))
    ensures var s1 := Redeem(rows, code, t1, Answered, u1);
      var s2 := Redeem(s1.rows, code, t2, Answered, u2);
      var r := SelectSingle(rows, code).value;
      && !Granted(s2)
      && s2.rows == s1.rows
      && s2.state == ValidationState(Some(false), Some(r.clientName), Some(r.numberOfPersons), Some(AlreadyUsedOn(Some(t1))), false)
  {
    GrantUsesUp(rows, code, t1, Answered, u1);
  }

  /**
   * With unique ids, one scan changes at most the row it admits, and a row
   * that was already validated keeps its `validated_at`.
   */
  lemma RedeemChangesOneFreshRow(rows: seq<Reservation>, code: string, now: Timestamp, lookup: Reply, update: Reply)
    requires UniqueIds(rows)
    ensures var s := Redeem(rows, code, now, lookup, update);
      && |s.rows| == |rows|
      && UniqueIds(s.rows)
      && (forall i :: 0 <= i < |rows| && rows[i].isValidated ==> s.rows[i] == rows[i])
      && (forall i, j :: 0 <= i < j < |rows| ==> s.rows[i] == rows[i] || s.rows[j] == rows[j])
  {
    var s := Redeem(rows, code, now, lookup, update);
    if Granted(s) {
      var r := SelectSingle(rows, code).value;
      var k :| 0 <= k < |rows| && rows[k] == r;
      forall i | 0 <= i < |rows| && rows[i].id == r.id ensures i == k {
      }
    }
  }

  /** One attempt at a station: the code scanned, the clock, how the two calls end. */
  datatype Attempt = Attempt(code: string, now: Timestamp, lookup: Reply, update: Reply)

  /** A series of scans, each on the table the previous one left. */
  function Run(rows: seq<Reservation>, attempts: seq<Attempt>): (scans: seq<Scan>)
    ensures |scans| == |attempts|
    decreases |attempts|
  {
    if attempts == [] then []
    else
      var a := attempts[0];
      var s := Redeem(rows, a.code, a.now, a.lookup, a.update);
      [s] + Run(s.rows, attempts[1..])
  }

  /** Once a ticket is used up, no later scan of its code admits anyone. */
  lemma {:induction false} NoGrantAfterUse(rows: seq<Reservation>, attempts: seq<Attempt>, code: string)
    requires UsedUp(rows, code)
    ensures forall j :: 0 <= j < |attempts| && attempts[j].code == code ==> !Granted(Run(rows, attempts)[j])
    decreases |attempts|
  {
    if attempts != [] {
      var a := attempts[0];
      var s := Redeem(rows, a.code, a.now, a.lookup, a.update);
      UsedUpStays(rows, code, a.code, a.now, a.lookup, a.update);
      NoGrantAfterUse(s.rows, attempts[1..], code);
      assert Run(rows, attempts)[1..] == Run(s.rows, attempts[1..]);
    }
  }

  /** Exactly-once admission, sequentially: over any series of scans, each code admits at most once. */
  lemma {:induction false} AtMostOneGrant(rows: seq<Reservation>, attempts: seq<Attempt>, code: string)
    ensures forall i, j ::
      (0 <= i < j < |attempts| && attempts[i].code == code && attempts[j].code == code && Granted(Run(rows, attempts)[i]))
      ==> !Granted(Run(rows, attempts)[j])
    decreases |attempts|
  {
    if attempts != [] {
      var a := attempts[0];
      var s := Redeem(rows, a.code, a.now, a.lookup, a.update);
      var scans := Run(rows, attempts);
      assert scans[1..] == Run(s.rows, attempts[1..]);
      AtMostOneGrant(s.rows, attempts[1..], code);
      if a.code == code && Granted(s) {
        GrantUsesUp(rows, code, a.now, a.lookup, a.update);
        NoGrantAfterUse(s.rows, attempts[1..], code);
      }
      forall i, j | 0 <= i < j < |attempts| && attempts[i].code == code && attempts[j].code == code && Granted(scans[i])
        ensures !Granted(scans[j])
      {
        if i > 0 {
          assert attempts[1..][i - 1] == attempts[i] && attempts[1..][j - 1] == attempts[j];
          assert scans[i] == Run(s.rows, attempts[1..])[i - 1];
        } else {
          assert attempts[1..][j - 1] == attempts[j];
        }
      }
    }
  }

  /**
   * One station's scan when the table may change between its lookup and its
   * update, as the code does them: the decision is taken on `seen`, the
   * table the lookup read, and the update is applied to `current`, the table
   * as it is when the update arrives. Both calls are taken to answer.
   */
  function StaleScan(seen: seq<Reservation>, current: seq<Reservation>, code: string, now: Timestamp): (s: Scan)
    ensures Granted(s) <==> SelectSingle(seen, code).Some? && !SelectSingle(seen, code).value.isValidated
    ensures seen == current ==> s == Redeem(seen, code, now, Answered, Answered)
  {
    match SelectSingle(seen, code)
    case None => Scan(current, Refused(NotRecognised), ErrorSound)
    case Some(r) =>
      if r.isValidated then
        Scan(current, ValidationState(Some(false), Some(r.clientName), Some(r.numberOfPersons), Some(AlreadyUsedOn(r.validatedAt)), false), ErrorSound)
      else
        Scan(MarkValidated(current, r.id, now), ValidationState(Some(true), Some(r.clientName), Some(r.numberOfPersons), Some(Welcome), false), SuccessSound)
  }

  /**
   * Two stations scan the same fresh ticket; both look it up before either
   * update lands. Both admit the holder, and the row ends stamped with the
   * second station's instant.
   */
  lemma InterleavedScansAdmitTwice()
    ensures var rows := [Reservation("r1", "Alice", None, "TICKET-1-A", 2, false, None, 0)];
      var first := StaleScan(rows, rows, "TICKET-1-A", 10);
      var second := StaleScan(rows, first.rows, "TICKET-1-A", 11);
      Granted(first) && Granted(second) && second.rows[0].validatedAt == Some(11)
  {
    var rows := [Reservation("r1", "Alice", None, "TICKET-1-A", 2, false, None, 0)];
    assert WithCode(rows, "TICKET-1-A") == [rows[0]] + WithCode([], "TICKET-1-A");
  }

  /**
   * The redemption as intended: a single conditional update ("mark validated
   * where the code matches and it is not validated yet") that the store
   * applies atomically, so the decision and the write see the same table.
   */
  function TryRedeem(rows: seq<Reservation>, code: string, now: Timestamp, reply: Reply): (s: Scan)
    ensures reply == Answered ==> s == StaleScan(rows, rows, code, now)
    ensures reply != Answered ==> !Granted(s) && s.rows == rows
  {
    if reply.Threw? then Scan(rows, Refused(ConnectionError), ErrorSound)
    else if reply.Failed? then Scan(rows, Refused(ValidationError), ErrorSound)
    else Redeem(rows, code, now, Answered, Answered)
  }

  /**
   * However the store orders two atomic redemptions of one code, at most
   * one admits: the one that runs second sees the ticket used up.
   */
  lemma TryRedeemAdmitsOnce(rows: seq<Reservation>, code: string, t1: Timestamp, t2: Timestamp, r1: Reply, r2: Reply)
    ensures var first := TryRedeem(rows, code, t1, r1);
      Granted(first) ==> !Granted(TryRedeem(first.rows, code, t2, r2))
  {
    var first := TryRedeem(rows, code, t1, r1);
    if Granted(first) {
      GrantUsesUp(rows, code, t1, Answered, Answered);
    }
  }

  /** The hook: the shared table, the displayed state, and logs of what was rendered and played. */
  class ReservationValidator {
    const db: Database
    var state: ValidationState
    ghost var rendered: seq<ValidationState>
    ghost var sounds: seq<Sound>

    ghost predicate Valid()
      reads this, db
    {
      db.Valid()
    }

    constructor (db: Database)
      requires db.Valid()
      ensures this.db == db && Valid()
      ensures state == Initial && rendered == [] && sounds == []
    {
      this.db := db;
      state := Initial;
      rendered := [];
      sounds := [];
    }

    /** `setState`: the new state is displayed. */
    method SetState(s: ValidationState)
      modifies this`state, this`rendered
      ensures state == s && rendered == old(rendered) + [s]
    {
      state := s;
      rendered := rendered + [s];
    }

    method Play(sound: Sound)
      modifies this`sounds
      ensures sounds == old(sounds) + [sound]
    {
      sounds := sounds + [sound];
    }

    /**
     * `validateQRCode(code)`: shows the loading state (keeping the previous
     * fields), then the outcome of `Redeem`, playing its sound.
     */
    method ValidateQRCode(code: string, now: Timestamp, lookup: Reply, update: Reply)
      requires Valid()
      modifies this, db
      ensures Valid()
      ensures var s := Redeem(old(db.rows), code, now, lookup, update);
        && db.rows == s.rows
        && state == s.state
        && rendered == old(rendered) + [old(state).(isLoading := true), s.state]
        && sounds == old(sounds) + [s.sound]
    {
      SetState(state.(isLoading := true));
      if lookup == Threw {
        Play(ErrorSound);
        SetState(Refused(ConnectionError));
        return;
      }
      var found := if lookup == Answered then SelectSingle(db.rows, code) else None;
      if found.None? {
        Play(ErrorSound);
        SetState(Refused(NotRecognised));
        return;
      }
      var reservation := found.value;
      if reservation.isValidated {
        Play(ErrorSound);
        SetState(ValidationState(Some(false), Some(reservation.clientName), Some(reservation.numberOfPersons),
          Some(AlreadyUsedOn(reservation.validatedAt)), false));
        return;
      }
      if update == Threw {
        Play(ErrorSound);
        SetState(Refused(ConnectionError));
        return;
      }
      if update == Failed {
        Play(ErrorSound);
        SetState(Refused(ValidationError));
        return;
      }
      db.ApplyValidation(reservation.id, now);
      Play(SuccessSound);
      SetState(ValidationState(Some(true), Some(reservation.clientName), Some(reservation.numberOfPersons), Some(Welcome), false));
    }

    /** `reset()`: back to the initial state; the table is not touched. */
    method Reset()
      modifies this
      ensures state == Initial && rendered == old(rendered) + [Initial]
      ensures sounds == old(sounds) && db.rows == old(db.rows)
    {
      SetState(Initial);
    }
  }
}
