/** `TicketService`: booking seats of an event and cancelling a ticket, over the
    seat ledger of the `events` table and the `tickets` table. */
module Tickets {
  import opened Base
  import opened Entities
  import opened Db
  import opened Ledger
  import opened QrPayload

  /** A `TicketBookRequestDTO`. */
  datatype BookRequest = BookRequest(userId: Id, eventId: Id, seatCount: Int32)

  /** A `TicketResponseDTO`, less its QR image: the image encodes `QrText` of the row
      (the rendering to a PNG is not modelled). */
  datatype Receipt = Receipt(
    ticketId: Id,
    code: string,
    status: TicketStatus,
    bookedAt: Time,
    eventId: Id,
    userId: Id,
    userName: string)

  /** `toDTO`: the response for a saved ticket. */
  function ToReceipt(id: Id, t: Ticket, userName: string): Receipt
  {
    Receipt(id, t.code, t.status, t.bookedAt, t.eventId, t.userId, userName)
  }

  /** The JSON text `toDTO` hands to the QR generator, built from the row's own fields. */
  function QrText(r: Receipt): string
  {
    Encode(r.ticketId, r.code, r.userId, r.eventId)
  }

  /** A response row's QR text reads back, through the check-in parser, as that
      row's ticket identity and code. */
  lemma ReceiptRoundTrip(r: Receipt)
    requires SafeCode(r.code) && r.ticketId <= LONG_MAX
    ensures Parse(QrText(r)).Some? && ReadCredentials(Parse(QrText(r)).value) == Some(Credentials(r.ticketId, Some(r.code)))
  {
    QrRoundTrip(r.ticketId, r.code, r.userId, r.eventId);
  }

  /** The codes `UUID.randomUUID()` draws for a booking's `n` tickets, saved under
      identities `first` .. `first + n - 1`, are pairwise distinct and unused: otherwise
      the unique `ticketCode` column rejects the `saveAll` and the booking rolls back.
      (`uuid(k)` is the code drawn for the ticket that is saved under identity `k`.) */
  predicate CodesFresh(tickets: map<Id, Ticket>, uuid: Id -> string, first: Id, n: nat)
  {
    (forall i, j :: first <= i < j < first + n ==> uuid(i) != uuid(j))
    && (forall i, k :: first <= i < first + n && k in tickets ==> tickets[k].code != uuid(i))
  }

  /** `saveAll` of `n` new tickets: they are persisted under identities `first` ..
      `first + n - 1`, and `Ticket.onCreate` gives each its drawn code, status BOOKED
      and `bookedAt = now`. */
  function AddTickets(tickets: map<Id, Ticket>, first: Id, n: nat, userId: Id, eventId: Id,
                      uuid: Id -> string, now: Time): (r: map<Id, Ticket>)
    ensures forall k :: k in r <==> k in tickets || first <= k < first + n
    ensures forall k :: k in tickets && !(first <= k < first + n) ==> r[k] == tickets[k]
    ensures forall k :: first <= k < first + n ==> r[k] == NewTicket(userId, eventId, uuid(k), now)
  {
    if n == 0 then tickets
    else AddTickets(tickets, first, n - 1, userId, eventId, uuid, now)[first + n - 1 := NewTicket(userId, eventId, uuid(first + n - 1), now)]
  }

  /** The response of a booking: the saved tickets `first` .. `first + n - 1`, in
      creation order, each rendered by `toDTO` with the booking user's name. */
  function Receipts(tickets: map<Id, Ticket>, first: Id, n: nat, userName: string): (rs: seq<Receipt>)
    requires forall k :: first <= k < first + n ==> k in tickets
    ensures |rs| == n
    ensures forall i :: 0 <= i < n ==> rs[i] == ToReceipt(first + i, tickets[first + i], userName)
  {
    if n == 0 then [] else Receipts(tickets, first, n - 1, userName) + [ToReceipt(first + n - 1, tickets[first + n - 1], userName)]
  }

  /** The checks of `bookTickets` have passed. */
  predicate CanBook(db: Db, req: BookRequest, uuid: Id -> string)
  {
    req.seatCount > 0 && req.userId in db.users && req.eventId in db.events
    && db.events[req.eventId].availableSeats >= req.seatCount && CodesFresh(db.tickets, uuid, db.nextTicket, req.seatCount)
  }

  /** The database after a booking whose checks passed: the seat decrement and the new tickets. */
  function Booking(db: Db, req: BookRequest, uuid: Id -> string, now: Time): Db
    requires CanBook(db, req, uuid)
  {
    var n: nat := req.seatCount;
    var ev := db.events[req.eventId];
    db.(
      events := db.events[req.eventId := ev.(availableSeats := ev.availableSeats - n)],
      tickets := AddTickets(db.tickets, db.nextTicket, n, req.userId, req.eventId, uuid, now),
      nextTicket := db.nextTicket + n)
  }

  /** `bookTickets`: the checks in the source's order, then the booking. */
  function Book(db: Db, req: BookRequest, uuid: Id -> string, now: Time): (o: Outcome<seq<Receipt>>)
    ensures o.result.Ok? <==> CanBook(db, req, uuid)
    ensures o.result.Err? ==> o.db == db
    ensures o.result.Ok? ==> |o.result.value| == req.seatCount && o.db.nextTicket == db.nextTicket + req.seatCount
  {
    if req.seatCount <= 0 then Fail(db, Raised(SeatCountNotPositive))
    else if req.userId !in db.users then Fail(db, Raised(UserNotFound))
    else if req.eventId !in db.events then Fail(db, Raised(EventNotFound))
    else if db.events[req.eventId].availableSeats < req.seatCount then Fail(db, Raised(NotEnoughSeats))
    else if !CodesFresh(db.tickets, uuid, db.nextTicket, req.seatCount) then Fail(db, Crashed)
    else
      var db' := Booking(db, req, uuid, now);
      Outcome(db', Ok(Receipts(db'.tickets, db.nextTicket, req.seatCount, db.users[req.userId].name)))
  }

  /** `cancelTicket`: an unknown ticket is a plain `RuntimeException`; an already
      cancelled one gets the service's own 400 answer; any other ticket is cancelled
      and its event's `availableSeats` goes up by one, in `Integer` arithmetic. */
  function Cancel(db: Db, ticketId: Id): (o: Outcome<Id>)
    ensures o.result.Err? ==> o.db == db
    ensures o.result.Ok? ==>
      && o.result.value == ticketId && ticketId in db.tickets && db.tickets[ticketId].status != Cancelled
      && ticketId in o.db.tickets && o.db.tickets[ticketId].status == Cancelled
  {
    if ticketId !in db.tickets then Fail(db, Crashed)
    else
      var t := db.tickets[ticketId];
      if t.status == Cancelled then Fail(db, AlreadyCancelled)
      else if t.eventId !in db.events then Fail(db, Crashed)
      else
        var ev := db.events[t.eventId];
        Outcome(db.(
          tickets := db.tickets[ticketId := t.(status := Cancelled)],
          events := db.events[t.eventId := ev.(availableSeats := Wrap32(ev.availableSeats + 1))]),
          Ok(ticketId))
  }

  // ---------------------------------------------------------------------------
  // Booking

  /** The checks run in order and the first that fails decides the answer; a
      failed booking changes nothing. */
  lemma BookFailures(db: Db, req: BookRequest, uuid: Id -> string, now: Time)
    ensures var o := Book(db, req, uuid, now);
      o.result.Err? ==> o.db == db
    ensures var o := Book(db, req, uuid, now);
      (o.result == Err(Raised(SeatCountNotPositive)) <==> req.seatCount <= 0)
      && (o.result == Err(Raised(UserNotFound)) <==> req.seatCount > 0 && req.userId !in db.users)
      && (o.result == Err(Raised(EventNotFound)) <==>
            req.seatCount > 0 && req.userId in db.users && req.eventId !in db.events)
      && (o.result == Err(Raised(NotEnoughSeats)) <==>
            req.seatCount > 0 && req.userId in db.users && req.eventId in db.events
            && db.events[req.eventId].availableSeats < req.seatCount)
  {
  }

  /** What a successful booking does: the event loses exactly `seatCount` seats and
      never goes negative, exactly `seatCount` new BOOKED tickets of that user and
      event appear, and nothing else changes. */
  lemma BookSucceeds(db: Db, req: BookRequest, uuid: Id -> string, now: Time)
    requires Counters(db)
    ensures var o := Book(db, req, uuid, now);
      o.result.Ok? <==>
        req.seatCount > 0 && req.userId in db.users && req.eventId in db.events
        && db.events[req.eventId].availableSeats >= req.seatCount && CodesFresh(db.tickets, uuid, db.nextTicket, req.seatCount)
    ensures var o := Book(db, req, uuid, now);
      o.result.Ok? ==>
        var before := db.events[req.eventId];
        var after := o.db.events[req.eventId];
        && after.availableSeats == before.availableSeats - req.seatCount >= 0
        && after == before.(availableSeats := after.availableSeats)
        && o.db.events.Keys == db.events.Keys
        && (forall e :: e in db.events && e != req.eventId ==> o.db.events[e] == db.events[e])
        && |o.db.tickets| == |db.tickets| + req.seatCount
        && (forall k :: k in o.db.tickets && k !in db.tickets ==>
              var t := o.db.tickets[k];
              t.userId == req.userId && t.eventId == req.eventId && t.status == Booked && t.bookedAt == now)
        && (forall k :: k in db.tickets ==> k in o.db.tickets && o.db.tickets[k] == db.tickets[k])
        && o.db.users == db.users && o.db.checkIns == db.checkIns && o.db.media == db.media
  {
    var o := Book(db, req, uuid, now);
    if o.result.Ok? {
      AddTicketsSize(db.tickets, db.nextTicket, req.seatCount, req.userId, req.eventId, uuid, now);
    }
  }

  /** `n` tickets added above every existing identity grow the table by `n`. */
  lemma AddTicketsSize(tickets: map<Id, Ticket>, first: Id, n: nat, userId: Id, eventId: Id,
                       uuid: Id -> string, now: Time)
    requires forall k :: k in tickets ==> k < first
    ensures |AddTickets(tickets, first, n, userId, eventId, uuid, now)| == |tickets| + n
  {
    var r := AddTickets(tickets, first, n, userId, eventId, uuid, now);
    assert r.Keys == tickets.Keys + IdRange(first, n);
    assert tickets.Keys !! IdRange(first, n);
  }

  /** Once every check has passed, the call is the booking and its response. */
  lemma BookPasses(db: Db, req: BookRequest, uuid: Id -> string, now: Time)
    requires CanBook(db, req, uuid)
    ensures var db' := Booking(db, req, uuid, now);
      Book(db, req, uuid, now) == Outcome(db', Ok(Receipts(db'.tickets, db.nextTicket, req.seatCount, db.users[req.userId].name)))
  {
  }

  /** The response has one row per seat, in creation order: row `i` is the new
      BOOKED ticket saved under identity `nextTicket + i`, with its drawn code, the
      booking's user, event and time, and the user's name. */
  lemma BookResponse(db: Db, req: BookRequest, uuid: Id -> string, now: Time)
    requires Counters(db) && CanBook(db, req, uuid)
    ensures var o := Book(db, req, uuid, now);
      && o.result.Ok? && |o.result.value| == req.seatCount
      && forall i :: 0 <= i < |o.result.value| ==>
           var r := o.result.value[i];
           && r.ticketId == db.nextTicket + i && r.ticketId in o.db.tickets && r.ticketId !in db.tickets
           && r.code == uuid(r.ticketId) && r.status == Booked && r.bookedAt == now
           && r.userId == req.userId && r.eventId == req.eventId && r.userName == db.users[req.userId].name
  {
    BookPasses(db, req, uuid, now);
    var tickets := Booking(db, req, uuid, now).tickets;
    var rs := Receipts(tickets, db.nextTicket, req.seatCount, db.users[req.userId].name);
    forall i | 0 <= i < |rs|
      ensures rs[i].ticketId == db.nextTicket + i && rs[i].ticketId in tickets && rs[i].ticketId !in db.tickets
      ensures rs[i].code == uuid(rs[i].ticketId) && rs[i].status == Booked && rs[i].bookedAt == now
      ensures rs[i].userId == req.userId && rs[i].eventId == req.eventId
    {
      BookRow(db, req, uuid, now, i);
    }
  }

  lemma BookRow(db: Db, req: BookRequest, uuid: Id -> string, now: Time, i: nat)
    requires Counters(db) && CanBook(db, req, uuid) && i < req.seatCount
    ensures var tickets := Booking(db, req, uuid, now).tickets;
      && db.nextTicket + i in tickets && db.nextTicket + i !in db.tickets
      && Receipts(tickets, db.nextTicket, req.seatCount, db.users[req.userId].name)[i]
         == ToReceipt(db.nextTicket + i, NewTicket(req.userId, req.eventId, uuid(db.nextTicket + i), now), db.users[req.userId].name)
  {
    var tickets := Booking(db, req, uuid, now).tickets;
    var k := db.nextTicket + i;
    assert tickets[k] == NewTicket(req.userId, req.eventId, uuid(k), now);
    var rs := Receipts(tickets, db.nextTicket, req.seatCount, db.users[req.userId].name);
    assert rs[i] == ToReceipt(k, tickets[k], db.users[req.userId].name);
  }

  /** Every row's QR text reads back, through the check-in parser, as that row's
      ticket identity and code, as long as the drawn code has no JSON punctuation. */
  lemma BookQrReadsBack(db: Db, req: BookRequest, uuid: Id -> string, now: Time)
    requires Counters(db) && CanBook(db, req, uuid) && db.nextTicket + req.seatCount <= LONG_MAX
    requires forall k :: db.nextTicket <= k < db.nextTicket + req.seatCount ==> SafeCode(uuid(k))
    ensures var o := Book(db, req, uuid, now);
      && o.result.Ok?
      && forall i :: 0 <= i < |o.result.value| ==>
           var r := o.result.value[i];
           Parse(QrText(r)).Some? && ReadCredentials(Parse(QrText(r)).value) == Some(Credentials(r.ticketId, Some(r.code)))
  {
    BookResponse(db, req, uuid, now);
    var rs := Book(db, req, uuid, now).result.value;
    forall i | 0 <= i < |rs|
      ensures Parse(QrText(rs[i])).Some? && ReadCredentials(Parse(QrText(rs[i])).value) == Some(Credentials(rs[i].ticketId, Some(rs[i].code)))
    {
      ReceiptRoundTrip(rs[i]);
    }
  }

  /** Adding `n` tickets to event `eventId` adds `n` to its count of BOOKED (and of
      live) tickets and leaves every other event's counts alone. */
  lemma {:induction false} AddTicketsCount(tickets: map<Id, Ticket>, first: Id, n: nat, userId: Id, eventId: Id,
                                           uuid: Id -> string, now: Time, e: Id, statuses: set<TicketStatus>)
    requires forall k :: k in tickets ==> k < first
    ensures Count(AddTickets(tickets, first, n, userId, eventId, uuid, now), e, statuses)
            == Count(tickets, e, statuses) + (if e == eventId && Booked in statuses then n else 0)
  {
    if n > 0 {
      var prev := AddTickets(tickets, first, n - 1, userId, eventId, uuid, now);
      var t := NewTicket(userId, eventId, uuid(first + n - 1), now);
      assert AddTickets(tickets, first, n, userId, eventId, uuid, now) == prev[first + n - 1 := t];
      AddTicketsCount(tickets, first, n - 1, userId, eventId, uuid, now, e, statuses);
      CountInsert(prev, first + n - 1, t, e, statuses);
      assert Weight(t, e, statuses) == if e == eventId && Booked in statuses then 1 else 0;
      assert Count(AddTickets(tickets, first, n, userId, eventId, uuid, now), e, statuses)
            == Count(tickets, e, statuses) + (if e == eventId && Booked in statuses then n else 0);
    } else {
      assert AddTickets(tickets, first, n, userId, eventId, uuid, now) == tickets;
    }
  }

  /** New tickets carry no check-in, so no event's admissions change. */
  lemma {:induction false} AddTicketsAdmissions(checkIns: map<Id, CheckIn>, tickets: map<Id, Ticket>, first: Id, n: nat,
                                                userId: Id, eventId: Id, uuid: Id -> string, now: Time, e: Id)
    requires forall k :: k in tickets ==> k < first
    requires forall c :: c in checkIns ==> checkIns[c].ticketId in tickets
    ensures Admissions(checkIns, AddTickets(tickets, first, n, userId, eventId, uuid, now), e)
            == Admissions(checkIns, tickets, e)
  {
    if n > 0 {
      var prev := AddTickets(tickets, first, n - 1, userId, eventId, uuid, now);
      AddTicketsAdmissions(checkIns, tickets, first, n - 1, userId, eventId, uuid, now, e);
      AdmissionsTicketInsert(checkIns, prev, first + n - 1, NewTicket(userId, eventId, uuid(first + n - 1), now), e);
    }
  }

  /** Booking keeps both seat ledgers balanced: the seats taken from
      `availableSeats` are exactly the new BOOKED tickets. */
  lemma BookBalances(db: Db, req: BookRequest, uuid: Id -> string, now: Time)
    requires Counters(db) && Admitted(db.checkIns, db.tickets)
    ensures Conserved(db.events, db.tickets) ==>
              var o := Book(db, req, uuid, now); Conserved(o.db.events, o.db.tickets)
    ensures Occupied(db.events, db.tickets, db.checkIns) ==>
              var o := Book(db, req, uuid, now); Occupied(o.db.events, o.db.tickets, o.db.checkIns)
  {
    if CanBook(db, req, uuid) {
      BookingBalances(db, req, uuid, now);
    }
  }

  /** Booking keeps every event's free seats between 0 and its capacity: the guard
      refuses a request for more seats than are free, and nothing else moves. */
  lemma BookKeepsRange(db: Db, req: BookRequest, uuid: Id -> string, now: Time)
    requires Counters(db) && SeatsInRange(db.events)
    ensures SeatsInRange(Book(db, req, uuid, now).db.events)
  {
    BookSucceeds(db, req, uuid, now);
  }

  lemma BookingBalances(db: Db, req: BookRequest, uuid: Id -> string, now: Time)
    requires Counters(db) && Admitted(db.checkIns, db.tickets) && CanBook(db, req, uuid)
    ensures Conserved(db.events, db.tickets) ==>
              var db' := Booking(db, req, uuid, now); Conserved(db'.events, db'.tickets)
    ensures Occupied(db.events, db.tickets, db.checkIns) ==>
              var db' := Booking(db, req, uuid, now); Occupied(db'.events, db'.tickets, db'.checkIns)
  {
    var db' := Booking(db, req, uuid, now);
    forall e | e in db'.events
      ensures Count(db'.tickets, e, LIVE) == Count(db.tickets, e, LIVE) + (if e == req.eventId then req.seatCount else 0)
      ensures Count(db'.tickets, e, {Booked}) == Count(db.tickets, e, {Booked}) + (if e == req.eventId then req.seatCount else 0)
      ensures Admissions(db'.checkIns, db'.tickets, e) == Admissions(db.checkIns, db.tickets, e)
    {
      BookingCounts(db, req, uuid, now, e);
    }
  }

  /** What a booking adds to one event's counts: `seatCount` live, BOOKED tickets
      for the booked event, nothing for any other, and no admission anywhere. */
  lemma BookingCounts(db: Db, req: BookRequest, uuid: Id -> string, now: Time, e: Id)
    requires Counters(db) && Admitted(db.checkIns, db.tickets) && CanBook(db, req, uuid)
    ensures var ts := Booking(db, req, uuid, now).tickets;
      && Count(ts, e, LIVE) == Count(db.tickets, e, LIVE) + (if e == req.eventId then req.seatCount else 0)
      && Count(ts, e, {Booked}) == Count(db.tickets, e, {Booked}) + (if e == req.eventId then req.seatCount else 0)
      && Admissions(db.checkIns, ts, e) == Admissions(db.checkIns, db.tickets, e)
  {
    var n: nat := req.seatCount;
    AddTicketsCount(db.tickets, db.nextTicket, n, req.userId, req.eventId, uuid, now, e, LIVE);
    AddTicketsCount(db.tickets, db.nextTicket, n, req.userId, req.eventId, uuid, now, e, {Booked});
    AddTicketsAdmissions(db.checkIns, db.tickets, db.nextTicket, n, req.userId, req.eventId, uuid, now, e);
  }

  /** Booking keeps every integrity rule. */
  lemma BookKeepsValid(db: Db, req: BookRequest, uuid: Id -> string, now: Time)
    requires Valid(db)
    ensures Valid(Book(db, req, uuid, now).db)
  {
    if CanBook(db, req, uuid) {
      BookingKeepsValid(db, req, uuid, now);
    }
  }

  lemma BookingKeepsValid(db: Db, req: BookRequest, uuid: Id -> string, now: Time)
    requires Valid(db) && CanBook(db, req, uuid)
    ensures Valid(Booking(db, req, uuid, now))
  {
    BookingCounters(db, req, uuid, now);
    BookingKeys(db, req, uuid, now);
  }

  lemma BookingCounters(db: Db, req: BookRequest, uuid: Id -> string, now: Time)
    requires Counters(db) && CanBook(db, req, uuid)
    ensures Counters(Booking(db, req, uuid, now))
  {
    var n: nat := req.seatCount;
    var ev := db.events[req.eventId];
    AddTicketsIds(db.tickets, db.nextTicket, n, req.userId, req.eventId, uuid, now);
    IdsBelowRewrite(db.events, req.eventId, ev.(availableSeats := ev.availableSeats - n), db.nextEvent);
  }

  lemma BookingKeys(db: Db, req: BookRequest, uuid: Id -> string, now: Time)
    requires Organizers(db.events, db.users) && Holders(db.tickets, db.users, db.events)
    requires Admitted(db.checkIns, db.tickets) && CodesUnique(db.tickets) && IdsBelow(db.tickets, db.nextTicket)
    requires CanBook(db, req, uuid)
    ensures var b := Booking(db, req, uuid, now);
      Organizers(b.events, b.users) && Holders(b.tickets, b.users, b.events)
      && Admitted(b.checkIns, b.tickets) && CodesUnique(b.tickets)
  {
    var n: nat := req.seatCount;
    var ev := db.events[req.eventId];
    var ev1 := ev.(availableSeats := ev.availableSeats - n);
    var ts := AddTickets(db.tickets, db.nextTicket, n, req.userId, req.eventId, uuid, now);
    EventRewriteOrganizers(db.events, db.users, req.eventId, ev1);
    AddTicketsHolders(db.tickets, db.users, db.events, db.nextTicket, n, req.userId, req.eventId, uuid, now);
    EventRewriteHolders(ts, db.users, db.events, req.eventId, ev1);
    AddTicketsAdmitted(db.checkIns, db.tickets, db.nextTicket, n, req.userId, req.eventId, uuid, now);
    AddTicketsCodes(db.tickets, db.nextTicket, n, req.userId, req.eventId, uuid, now);
  }

  lemma AddTicketsIds(tickets: map<Id, Ticket>, first: Id, n: nat, userId: Id, eventId: Id, uuid: Id -> string, now: Time)
    requires IdsBelow(tickets, first) && 1 <= first
    ensures IdsBelow(AddTickets(tickets, first, n, userId, eventId, uuid, now), first + n)
  {
  }

  lemma AddTicketsHolders(tickets: map<Id, Ticket>, users: map<Id, User>, events: map<Id, Event>, first: Id, n: nat,
                          userId: Id, eventId: Id, uuid: Id -> string, now: Time)
    requires Holders(tickets, users, events) && userId in users && eventId in events
    ensures Holders(AddTickets(tickets, first, n, userId, eventId, uuid, now), users, events)
  {
  }

  lemma AddTicketsAdmitted(checkIns: map<Id, CheckIn>, tickets: map<Id, Ticket>, first: Id, n: nat,
                           userId: Id, eventId: Id, uuid: Id -> string, now: Time)
    requires Admitted(checkIns, tickets) && forall k :: k in tickets ==> k < first
    ensures Admitted(checkIns, AddTickets(tickets, first, n, userId, eventId, uuid, now))
  {
    var ts := AddTickets(tickets, first, n, userId, eventId, uuid, now);
    forall c | c in checkIns
      ensures ts[checkIns[c].ticketId] == tickets[checkIns[c].ticketId]
    {
    }
  }

  lemma AddTicketsCodes(tickets: map<Id, Ticket>, first: Id, n: nat, userId: Id, eventId: Id, uuid: Id -> string, now: Time)
    requires CodesUnique(tickets) && CodesFresh(tickets, uuid, first, n) && forall k :: k in tickets ==> k < first
    ensures CodesUnique(AddTickets(tickets, first, n, userId, eventId, uuid, now))
  {
    var ts := AddTickets(tickets, first, n, userId, eventId, uuid, now);
    forall s, t | s in ts && t in ts && ts[s].code == ts[t].code
      ensures s == t
    {
      if s !in tickets {
        assert ts[s].code == uuid(s);
      }
      if t !in tickets {
        assert ts[t].code == uuid(t);
      }
    }
  }

  /** Booking every remaining seat leaves none: the counter reaches 0 and goes no lower. */
  lemma BookLastSeats(db: Db, req: BookRequest, uuid: Id -> string, now: Time)
    requires req.userId in db.users && req.eventId in db.events
    requires req.seatCount == db.events[req.eventId].availableSeats > 0
    requires CodesFresh(db.tickets, uuid, db.nextTicket, req.seatCount)
    ensures var o := Book(db, req, uuid, now);
      o.result.Ok? && o.db.events[req.eventId].availableSeats == 0
    ensures var o := Book(db, req, uuid, now);
      var more := BookRequest(req.userId, req.eventId, 1);
      Book(o.db, more, uuid, now).result == Err(Raised(NotEnoughSeats))
  {
  }

  // ---------------------------------------------------------------------------
  // Cancelling

  /** The three ways out of `cancelTicket`, and that only a real cancellation changes anything. */
  lemma CancelOutcomes(db: Db, ticketId: Id)
    ensures var o := Cancel(db, ticketId);
      o.result.Err? ==> o.db == db
    ensures var o := Cancel(db, ticketId);
      (ticketId !in db.tickets ==> o.result == Err(Crashed))
      && (ticketId in db.tickets && db.tickets[ticketId].status == Cancelled ==> o.result == Err(AlreadyCancelled))
    ensures var o := Cancel(db, ticketId);
      Holders(db.tickets, db.users, db.events) && ticketId in db.tickets && db.tickets[ticketId].status != Cancelled ==>
        o.result == Ok(ticketId) && o.db.tickets[ticketId].status == Cancelled
  {
  }

  /** Cancelling a live ticket returns exactly one seat to its event (no wrap-around
      while the ledger balances), marks only that ticket and touches no other event. */
  lemma CancelReturnsOneSeat(db: Db, ticketId: Id)
    requires Holders(db.tickets, db.users, db.events) && Conserved(db.events, db.tickets)
    requires ticketId in db.tickets && db.tickets[ticketId].status != Cancelled
    ensures var o := Cancel(db, ticketId);
      var t := db.tickets[ticketId];
      && o.result == Ok(ticketId)
      && o.db.events[t.eventId].availableSeats == db.events[t.eventId].availableSeats + 1
      && o.db.events[t.eventId].totalSeats == db.events[t.eventId].totalSeats
      && o.db.tickets == db.tickets[ticketId := t.(status := Cancelled)]
      && (forall e :: e in db.events && e != t.eventId ==> o.db.events[e] == db.events[e])
  {
    var t := db.tickets[ticketId];
    var ev := db.events[t.eventId];
    assert ticketId in TicketsWith(db.tickets, t.eventId, LIVE);
    assert ev.availableSeats + 1 <= ev.totalSeats;
  }

  /** A second cancel of the same ticket is refused, so one ticket returns at most one seat. */
  lemma CancelTwice(db: Db, ticketId: Id)
    requires Holders(db.tickets, db.users, db.events) && ticketId in db.tickets && db.tickets[ticketId].status != Cancelled
    ensures var once := Cancel(db, ticketId);
      var twice := Cancel(once.db, ticketId);
      twice.result == Err(AlreadyCancelled) && twice.db == once.db
  {
  }

  /** Cancelling keeps the live-ticket ledger balanced, whatever the ticket's status was. */
  lemma CancelConserves(db: Db, ticketId: Id)
    requires Holders(db.tickets, db.users, db.events) && Conserved(db.events, db.tickets)
    ensures var o := Cancel(db, ticketId); Conserved(o.db.events, o.db.tickets)
  {
    var o := Cancel(db, ticketId);
    if o.result.Ok? {
      var t := db.tickets[ticketId];
      CancelReturnsOneSeat(db, ticketId);
      forall e | e in o.db.events
        ensures o.db.events[e].availableSeats + Count(o.db.tickets, e, LIVE) == o.db.events[e].totalSeats
      {
        CountReplace(db.tickets, ticketId, t.(status := Cancelled), e, LIVE);
      }
    }
  }

  /** While the live-ticket ledger balances, cancelling keeps every event's free seats
      between 0 and its capacity: a live ticket holds one of the taken seats, so the
      one handed back never takes `availableSeats` past `totalSeats`. */
  lemma CancelKeepsRange(db: Db, ticketId: Id)
    requires Holders(db.tickets, db.users, db.events) && Conserved(db.events, db.tickets) && SeatsInRange(db.events)
    ensures SeatsInRange(Cancel(db, ticketId).db.events)
  {
    var o := Cancel(db, ticketId);
    if o.result.Ok? {
      var t := db.tickets[ticketId];
      assert ticketId in TicketsWith(db.tickets, t.eventId, LIVE);
      CancelReturnsOneSeat(db, ticketId);
    }
  }

  /** Cancelling a BOOKED ticket also keeps the occupancy ledger balanced. */
  lemma CancelBookedOccupied(db: Db, ticketId: Id)
    requires Holders(db.tickets, db.users, db.events) && Conserved(db.events, db.tickets) && Occupied(db.events, db.tickets, db.checkIns)
    requires ticketId in db.tickets && db.tickets[ticketId].status == Booked
    ensures var o := Cancel(db, ticketId); Occupied(o.db.events, o.db.tickets, o.db.checkIns)
  {
    var o := Cancel(db, ticketId);
    var t := db.tickets[ticketId];
    CancelReturnsOneSeat(db, ticketId);
    forall e | e in o.db.events
      ensures o.db.events[e].availableSeats + Count(o.db.tickets, e, {Booked})
              + |Admissions(o.db.checkIns, o.db.tickets, e)| == o.db.events[e].totalSeats
    {
      CountReplace(db.tickets, ticketId, t.(status := Cancelled), e, {Booked});
      AdmissionsTicketReplace(db.checkIns, db.tickets, ticketId, t.(status := Cancelled), e);
    }
  }

  /** Cancelling a CHECKED_IN ticket hands its seat back although its holder has
      already been let in: afterwards the free seats, the BOOKED tickets and the
      admitted holders add up to one more than the event's capacity. */
  lemma CancelCheckedInOverbooks(db: Db, ticketId: Id)
    requires Holders(db.tickets, db.users, db.events) && Conserved(db.events, db.tickets) && Occupied(db.events, db.tickets, db.checkIns)
    requires ticketId in db.tickets && db.tickets[ticketId].status == CheckedIn
    ensures var o := Cancel(db, ticketId);
      var e := db.tickets[ticketId].eventId;
      o.db.events[e].availableSeats + Count(o.db.tickets, e, {Booked}) + |Admissions(o.db.checkIns, o.db.tickets, e)|
        == o.db.events[e].totalSeats + 1
    ensures var o := Cancel(db, ticketId); !Occupied(o.db.events, o.db.tickets, o.db.checkIns)
  {
    var o := Cancel(db, ticketId);
    var t := db.tickets[ticketId];
    var e := t.eventId;
    CancelReturnsOneSeat(db, ticketId);
    CountReplace(db.tickets, ticketId, t.(status := Cancelled), e, {Booked});
    AdmissionsTicketReplace(db.checkIns, db.tickets, ticketId, t.(status := Cancelled), e);
  }

  /** Cancelling keeps every integrity rule. */
  lemma CancelKeepsValid(db: Db, ticketId: Id)
    requires Valid(db)
    ensures Valid(Cancel(db, ticketId).db)
  {
    if ticketId in db.tickets && db.tickets[ticketId].status != Cancelled && db.tickets[ticketId].eventId in db.events {
      CancelShape(db, ticketId);
      CancelledKeepsValid(db, ticketId);
    }
  }

  lemma CancelledKeepsValid(db: Db, ticketId: Id)
    requires Valid(db) && ticketId in db.tickets && db.tickets[ticketId].status != Cancelled
    requires db.tickets[ticketId].eventId in db.events
    ensures var t := db.tickets[ticketId];
      var ev := db.events[t.eventId];
      Valid(db.(tickets := db.tickets[ticketId := t.(status := Cancelled)],
                events := db.events[t.eventId := ev.(availableSeats := Wrap32(ev.availableSeats + 1))]))
  {
    var t := db.tickets[ticketId];
    var ev := db.events[t.eventId];
    assert ev.organizerId in db.users by { assert Organizers(db.events, db.users); }
    StatusAndEventKeepValid(db, ticketId, Cancelled, t.eventId, ev.(availableSeats := Wrap32(ev.availableSeats + 1)));
  }

  /** The database a successful cancel leaves: the ticket re-marked and its event
      given back one seat, in `Integer` arithmetic. */
  lemma CancelShape(db: Db, ticketId: Id)
    requires ticketId in db.tickets && db.tickets[ticketId].status != Cancelled
    requires db.tickets[ticketId].eventId in db.events
    ensures var t := db.tickets[ticketId];
      var ev := db.events[t.eventId];
      Cancel(db, ticketId).db
        == db.(tickets := db.tickets[ticketId := t.(status := Cancelled)],
               events := db.events[t.eventId := ev.(availableSeats := Wrap32(ev.availableSeats + 1))])
  {
  }
}
