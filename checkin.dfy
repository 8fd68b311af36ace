/** `CheckInService`: letting a ticket holder in, by ticket identity or by the text
    of the ticket's QR code. The check-in window opens one minute before the event's
    start and closes two hours after it, both ends included. */
module CheckIns {
  import opened Base
  import opened Entities
  import opened Db
  import opened Ledger
  import opened QrPayload

  const EARLY_CHECKIN_MINUTES: int := 1
  const LATE_CHECKIN_HOURS: int := 2

  /** The window, in seconds around the event's start. */
  const OPENS_BEFORE: int := EARLY_CHECKIN_MINUTES * 60
  const CLOSES_AFTER: int := LATE_CHECKIN_HOURS * 3600

  /** The body of a successful check-in (its constant "message" entry left aside). */
  datatype Admission = Admission(ticketId: Id, code: string, checkInTime: Time)

  /** `getValidatedTicket`: the guards in the source's order; the first that fails
      decides the answer. `code` is None on the path that checks in by identity, and
      then the code comparison is skipped. A ticket whose event row is missing fails
      when the event is loaded. */
  function Validate(db: Db, ticketId: int, code: Option<string>, now: Time): (r: Result<Id>)
    ensures r.Ok? ==> r.value == ticketId && r.value in db.tickets
  {
    if ticketId !in db.tickets then Err(Raised(TicketNotFound))
    else
      var t := db.tickets[ticketId];
      if code.Some? && t.code != code.value then Err(Raised(InvalidTicketCode))
      else if t.status == Cancelled then Err(Raised(TicketCancelled))
      else if t.status == CheckedIn then Err(Raised(TicketAlreadyCheckedIn))
      else if t.eventId !in db.events then Err(Crashed)
      else
        var start := db.events[t.eventId].eventDate;
        if now < start - OPENS_BEFORE then Err(Raised(CheckInNotOpen(start - OPENS_BEFORE)))
        else if now > start + CLOSES_AFTER then Err(Raised(CheckInClosed))
        else Ok(ticketId)
  }

  /** `doCheckIn`: the ticket becomes CHECKED_IN and a `CheckIn` row stamped `now` is
      saved; a second row for the same ticket violates the unique `ticket_id` column
      and the whole call rolls back. */
  function DoCheckIn(db: Db, k: Id, now: Time): (o: Outcome<Admission>)
    requires k in db.tickets
    ensures o.result.Err? <==> HasCheckIn(db.checkIns, k)
    ensures o.result.Err? ==> o.db == db
    ensures o.result.Ok? ==>
      && o.result.value.ticketId == k && o.result.value.code == db.tickets[k].code
      && k in o.db.tickets && o.db.tickets[k].status == CheckedIn
  {
    var t := db.tickets[k];
    if HasCheckIn(db.checkIns, k) then Fail(db, Crashed)
    else
      Outcome(db.(tickets := db.tickets[k := t.(status := CheckedIn)],
                  checkIns := db.checkIns[db.nextCheckIn := CheckIn(k, now)],
                  nextCheckIn := db.nextCheckIn + 1),
              Ok(Admission(k, t.code, now)))
  }

  /** `checkIn(ticketId)`. */
  function CheckInById(db: Db, ticketId: int, now: Time): (o: Outcome<Admission>)
    ensures o.result.Err? ==> o.db == db
    ensures o.result.Ok? ==> Validate(db, ticketId, None, now) == Ok(ticketId) && o.result.value.ticketId == ticketId
  {
    match Validate(db, ticketId, None, now)
    case Err(f) => Fail(db, f)
    case Ok(k) => DoCheckIn(db, k, now)
  }

  /** `checkInByQRCode(text)`: every failure inside, from a malformed text or a
      missing key to a ticket that is not found or already checked in, is caught and
      re-raised as "Invalid QR code", and the call rolls back. */
  function CheckInByQr(db: Db, text: string, now: Time): (o: Outcome<Admission>)
    ensures o.result.Err? ==> o == Fail(db, Raised(InvalidQrCode))
    ensures o.result.Ok? ==>
      var k := o.result.value.ticketId;
      k in db.tickets && db.tickets[k].status == Booked && k in o.db.tickets && o.db.tickets[k].status == CheckedIn
  {
    match Parse(text)
    case None => Fail(db, Raised(InvalidQrCode))
    case Some(m) =>
      match ReadCredentials(m)
      case None => Fail(db, Raised(InvalidQrCode))
      case Some(cred) =>
        match Validate(db, cred.ticketId, cred.code, now)
        case Err(_) => Fail(db, Raised(InvalidQrCode))
        case Ok(k) =>
          var o := DoCheckIn(db, k, now);
          if o.result.Err? then Fail(db, Raised(InvalidQrCode)) else o
  }

  // ---------------------------------------------------------------------------
  // The validation chain

  /** Each refusal happens exactly when every earlier guard passed and its own failed. */
  lemma ValidateOrder(db: Db, ticketId: int, code: Option<string>, now: Time)
    ensures var r := Validate(db, ticketId, code, now);
      (r == Err(Raised(TicketNotFound)) <==> ticketId !in db.tickets)
    ensures var r := Validate(db, ticketId, code, now);
      ticketId in db.tickets ==>
        var t := db.tickets[ticketId];
        && (r == Err(Raised(InvalidTicketCode)) <==> code.Some? && t.code != code.value)
        && (r == Err(Raised(TicketCancelled)) <==> (code.None? || t.code == code.value) && t.status == Cancelled)
        && (r == Err(Raised(TicketAlreadyCheckedIn)) <==> (code.None? || t.code == code.value) && t.status == CheckedIn)
    ensures var r := Validate(db, ticketId, code, now);
      ticketId in db.tickets && db.tickets[ticketId].eventId in db.events ==>
        var t := db.tickets[ticketId];
        var start := db.events[t.eventId].eventDate;
        var passed := (code.None? || t.code == code.value) && t.status == Booked;
        && (r.Err? && r.failure.Raised? && r.failure.reason.CheckInNotOpen? <==> passed && now < start - 60)
        && (r == Err(Raised(CheckInClosed)) <==> passed && now > start + 7200)
        && (r.Ok? <==> passed && start - 60 <= now <= start + 7200)
  {
  }

  /** By identity the code is never compared. */
  lemma ByIdSkipsCode(db: Db, ticketId: int, now: Time)
    ensures Validate(db, ticketId, None, now) != Err(Raised(InvalidTicketCode))
  {
  }

  /** The window is closed on both sides: a booked ticket is let in at exactly one
      minute before the start and at exactly two hours after it, and not a second
      outside either end. */
  lemma WindowEnds(db: Db, k: Id)
    requires k in db.tickets && db.tickets[k].status == Booked && db.tickets[k].eventId in db.events
    ensures var start := db.events[db.tickets[k].eventId].eventDate;
      && Validate(db, k, None, start - 60).Ok?
      && Validate(db, k, None, start + 7200).Ok?
      && Validate(db, k, None, start - 61) == Err(Raised(CheckInNotOpen(start - 60)))
      && Validate(db, k, None, start + 7201) == Err(Raised(CheckInClosed))
  {
  }

  // ---------------------------------------------------------------------------
  // Checking in

  /** A refused check-in changes nothing. */
  lemma CheckInFailureChangesNothing(db: Db, ticketId: int, now: Time)
    ensures var o := CheckInById(db, ticketId, now); o.result.Err? ==> o.db == db
  {
  }

  /** A successful check-in moves exactly that ticket from BOOKED to CHECKED_IN and
      adds exactly one `CheckIn` row, for that ticket and stamped `now`; the events
      and their seat counters, the other tickets and the earlier rows stay as they were. */
  lemma CheckInEffect(db: Db, ticketId: int, now: Time)
    requires Counters(db)
    ensures var o := CheckInById(db, ticketId, now);
      o.result.Ok? ==>
        && ticketId in db.tickets && db.tickets[ticketId].status == Booked
        && o.result.value == Admission(ticketId, db.tickets[ticketId].code, now)
        && o.db.tickets == db.tickets[ticketId := db.tickets[ticketId].(status := CheckedIn)]
        && o.db.events == db.events && o.db.users == db.users && o.db.media == db.media
        && db.nextCheckIn !in db.checkIns
        && o.db.checkIns == db.checkIns[db.nextCheckIn := CheckIn(ticketId, now)]
  {
  }

  /** Under the integrity rules a ticket that passes validation has no `CheckIn` row
      yet, so the unique `ticket_id` column never fires. */
  lemma ValidatedHasNoCheckIn(db: Db, ticketId: int, code: Option<string>, now: Time)
    requires Valid(db)
    ensures var r := Validate(db, ticketId, code, now);
      r.Ok? ==> !HasCheckIn(db.checkIns, r.value) && DoCheckIn(db, r.value, now).result.Ok?
  {
  }

  /** A CANCELLED ticket is never let in, and neither is a CHECKED_IN one: in particular
      a ticket that has just been checked in is refused the second time. */
  lemma NoEntryTwice(db: Db, ticketId: int, now: Time, later: Time)
    requires Counters(db)
    ensures ticketId in db.tickets && db.tickets[ticketId].status == Cancelled ==>
              CheckInById(db, ticketId, now) == Fail(db, Raised(TicketCancelled))
    ensures ticketId in db.tickets && db.tickets[ticketId].status == CheckedIn ==>
              CheckInById(db, ticketId, now) == Fail(db, Raised(TicketAlreadyCheckedIn))
    ensures var o := CheckInById(db, ticketId, now);
      o.result.Ok? ==> CheckInById(o.db, ticketId, later) == Fail(o.db, Raised(TicketAlreadyCheckedIn))
  {
    CheckInEffect(db, ticketId, now);
  }

  /** Checking in keeps every integrity rule, one `CheckIn` per ticket included. */
  lemma CheckInKeepsValid(db: Db, ticketId: int, now: Time)
    requires Valid(db)
    ensures Valid(CheckInById(db, ticketId, now).db)
  {
    if Validate(db, ticketId, None, now).Ok? {
      DoCheckInKeepsValid(db, ticketId, now);
    }
  }

  /** The same through the QR text. */
  lemma CheckInByQrKeepsValid(db: Db, text: string, now: Time)
    requires Valid(db)
    ensures Valid(CheckInByQr(db, text, now).db)
  {
    var m := Parse(text);
    if m.Some? && ReadCredentials(m.value).Some? {
      var cred := ReadCredentials(m.value).value;
      if Validate(db, cred.ticketId, cred.code, now).Ok? {
        DoCheckInKeepsValid(db, cred.ticketId, now);
      }
    }
  }

  lemma DoCheckInKeepsValid(db: Db, k: Id, now: Time)
    requires Valid(db) && k in db.tickets
    ensures Valid(DoCheckIn(db, k, now).db)
  {
    if !HasCheckIn(db.checkIns, k) {
      var db1 := db.(tickets := db.tickets[k := db.tickets[k].(status := CheckedIn)]);
      TicketStatusKeepsValid(db, k, CheckedIn);
      AdmitKeepsValid(db1, k, now);
    }
  }

  /** A check-in hands no seat back and takes none: the live-ticket ledger stays
      balanced, and so does the occupancy ledger, the BOOKED ticket becoming an
      admitted holder of the same event. */
  lemma CheckInBalances(db: Db, ticketId: int, now: Time)
    requires Counters(db) && Holders(db.tickets, db.users, db.events) && Admitted(db.checkIns, db.tickets)
    ensures Conserved(db.events, db.tickets) ==>
              var o := CheckInById(db, ticketId, now); Conserved(o.db.events, o.db.tickets)
    ensures Occupied(db.events, db.tickets, db.checkIns) ==>
              var o := CheckInById(db, ticketId, now); Occupied(o.db.events, o.db.tickets, o.db.checkIns)
  {
    var o := CheckInById(db, ticketId, now);
    if o.result.Ok? {
      var k: Id := ticketId;
      var t := db.tickets[k];
      var t' := t.(status := CheckedIn);
      CheckInEffect(db, ticketId, now);
      forall e | e in o.db.events
        ensures Count(o.db.tickets, e, LIVE) == Count(db.tickets, e, LIVE)
        ensures Count(o.db.tickets, e, {Booked}) + |Admissions(o.db.checkIns, o.db.tickets, e)|
                == Count(db.tickets, e, {Booked}) + |Admissions(db.checkIns, db.tickets, e)|
      {
        CountReplace(db.tickets, k, t', e, LIVE);
        CountReplace(db.tickets, k, t', e, {Booked});
        AdmissionsTicketReplace(db.checkIns, db.tickets, k, t', e);
        AdmissionsInsert(db.checkIns, db.tickets[k := t'], db.nextCheckIn, CheckIn(k, now), e);
      }
    }
  }

  // ---------------------------------------------------------------------------
  // Checking in by QR code

  /** Whatever goes wrong on the QR path, the caller sees "Invalid QR code" and
      nothing changes. */
  lemma QrFailuresAreInvalidQr(db: Db, text: string, now: Time)
    ensures var o := CheckInByQr(db, text, now);
      o.result.Err? ==> o.result == Err(Raised(InvalidQrCode)) && o.db == db
  {
  }

  /** The QR text a ticket's response carries checks that ticket in exactly as its
      identity does, except that every refusal is reported as "Invalid QR code". */
  lemma QrAgreesWithId(db: Db, k: Id, now: Time)
    requires k in db.tickets && SafeCode(db.tickets[k].code) && k <= LONG_MAX
    ensures var t := db.tickets[k];
      var byQr := CheckInByQr(db, Encode(k, t.code, t.userId, t.eventId), now);
      var byId := CheckInById(db, k, now);
      && byQr.db == byId.db
      && (byId.result.Ok? ==> byQr.result == byId.result)
      && (byId.result.Err? ==> byQr.result == Err(Raised(InvalidQrCode)))
  {
    var t := db.tickets[k];
    QrRoundTrip(k, t.code, t.userId, t.eventId);
    QrCredentialsAgree(db, Encode(k, t.code, t.userId, t.eventId), k, now);
  }

  /** Any text that parses to a ticket's own id and code checks it in as its id does. */
  lemma QrCredentialsAgree(db: Db, text: string, k: Id, now: Time)
    requires k in db.tickets && Parse(text).Some?
    requires ReadCredentials(Parse(text).value) == Some(Credentials(k, Some(db.tickets[k].code)))
    ensures var byQr := CheckInByQr(db, text, now);
      var byId := CheckInById(db, k, now);
      && byQr.db == byId.db
      && (byId.result.Ok? ==> byQr.result == byId.result)
      && (byId.result.Err? ==> byQr.result == Err(Raised(InvalidQrCode)))
  {
    assert Validate(db, k, Some(db.tickets[k].code), now) == Validate(db, k, None, now);
  }

  /** A payload whose code is not the ticket's is refused, even in the window. */
  lemma QrWrongCodeRefused(db: Db, k: Id, code: string, userId: Id, eventId: Id, now: Time)
    requires k in db.tickets && SafeCode(code) && k <= LONG_MAX && code != db.tickets[k].code
    ensures CheckInByQr(db, Encode(k, code, userId, eventId), now) == Fail(db, Raised(InvalidQrCode))
  {
    QrRoundTrip(k, code, userId, eventId);
  }
}
