/** Seat accounting over the `tickets` and `CheckIn` tables.

    Two ledgers are kept apart:
    - Conserved: an event's `availableSeats` plus its live (BOOKED or CHECKED_IN)
      tickets make up its `totalSeats`;
    - Occupied: `availableSeats` plus the BOOKED tickets plus the check-ins
      recorded for the event (people let in) make up `totalSeats`. */
module Ledger {
  import opened Base
  import opened Entities

  /** The statuses that hold a seat. */
  const LIVE: set<TicketStatus> := {Booked, CheckedIn}

  /** The tickets of event `e` whose status is one of `statuses`. */
  function TicketsWith(tickets: map<Id, Ticket>, e: Id, statuses: set<TicketStatus>): set<Id>
  {
    set k | k in tickets && tickets[k].eventId == e && tickets[k].status in statuses
  }

  function Count(tickets: map<Id, Ticket>, e: Id, statuses: set<TicketStatus>): nat
  {
    |TicketsWith(tickets, e, statuses)|
  }

  /** 1 when ticket `t` is one of `e`'s tickets with a status in `statuses`. */
  function Weight(t: Ticket, e: Id, statuses: set<TicketStatus>): nat
  {
    if t.eventId == e && t.status in statuses then 1 else 0
  }

  /** The check-ins recorded for tickets of event `e`. */
  function Admissions(checkIns: map<Id, CheckIn>, tickets: map<Id, Ticket>, e: Id): set<Id>
  {
    set c | c in checkIns && checkIns[c].ticketId in tickets && tickets[checkIns[c].ticketId].eventId == e
  }

  predicate Conserved(events: map<Id, Event>, tickets: map<Id, Ticket>)
  {
    forall e :: e in events ==> events[e].availableSeats + Count(tickets, e, LIVE) == events[e].totalSeats
  }

  predicate SeatsInRange(events: map<Id, Event>)
  {
    forall e :: e in events ==> 0 <= events[e].availableSeats <= events[e].totalSeats
  }

  predicate Occupied(events: map<Id, Event>, tickets: map<Id, Ticket>, checkIns: map<Id, CheckIn>)
  {
    forall e :: e in events ==>
      events[e].availableSeats + Count(tickets, e, {Booked}) + |Admissions(checkIns, tickets, e)| == events[e].totalSeats
  }

  /** An event with no tickets and all its seats free keeps the ledgers; the range
      rule then holds exactly when its seat count is not negative. */
  lemma NewEventLedgers(events: map<Id, Event>, tickets: map<Id, Ticket>, checkIns: map<Id, CheckIn>, id: Id, ev: Event)
    requires Count(tickets, id, LIVE) == 0 && Count(tickets, id, {Booked}) == 0
    requires |Admissions(checkIns, tickets, id)| == 0 && ev.availableSeats == ev.totalSeats
    ensures Conserved(events, tickets) ==> Conserved(events[id := ev], tickets)
    ensures Occupied(events, tickets, checkIns) ==> Occupied(events[id := ev], tickets, checkIns)
    ensures SeatsInRange(events) ==> (SeatsInRange(events[id := ev]) <==> ev.totalSeats >= 0)
  {
    var after := events[id := ev];
    assert id in after && after[id] == ev;
  }

  /** Adding a ticket under a new id adds its weight to every count. */
  lemma CountInsert(tickets: map<Id, Ticket>, k: Id, t: Ticket, e: Id, statuses: set<TicketStatus>)
    requires k !in tickets
    ensures Count(tickets[k := t], e, statuses) == Count(tickets, e, statuses) + Weight(t, e, statuses)
  {
    var before := TicketsWith(tickets, e, statuses);
    var after := TicketsWith(tickets[k := t], e, statuses);
    if Weight(t, e, statuses) == 1 {
      assert after == before + {k};
    } else {
      assert after == before;
    }
  }

  /** Rewriting a ticket swaps its old weight for its new one. */
  lemma CountReplace(tickets: map<Id, Ticket>, k: Id, t: Ticket, e: Id, statuses: set<TicketStatus>)
    requires k in tickets
    ensures Count(tickets[k := t], e, statuses)
            == Count(tickets, e, statuses) - Weight(tickets[k], e, statuses) + Weight(t, e, statuses)
  {
    var before := TicketsWith(tickets, e, statuses);
    var after := TicketsWith(tickets[k := t], e, statuses);
    var rest := before - {k};
    assert |rest| == |before| - Weight(tickets[k], e, statuses) by {
      if Weight(tickets[k], e, statuses) == 1 {
        assert before == rest + {k};
      } else {
        assert rest == before;
      }
    }
    if Weight(t, e, statuses) == 1 {
      assert after == rest + {k};
    } else {
      assert after == rest;
    }
  }

  /** A new ticket has no check-in yet, so it changes no event's admissions. */
  lemma AdmissionsTicketInsert(checkIns: map<Id, CheckIn>, tickets: map<Id, Ticket>, k: Id, t: Ticket, e: Id)
    requires k !in tickets
    requires forall c :: c in checkIns ==> checkIns[c].ticketId in tickets
    ensures Admissions(checkIns, tickets[k := t], e) == Admissions(checkIns, tickets, e)
  {
    forall c | c in checkIns
      ensures c in Admissions(checkIns, tickets[k := t], e) <==> c in Admissions(checkIns, tickets, e)
    {
      assert checkIns[c].ticketId != k;
    }
  }

  /** Rewriting a ticket without moving it to another event keeps the admissions. */
  lemma AdmissionsTicketReplace(checkIns: map<Id, CheckIn>, tickets: map<Id, Ticket>, k: Id, t: Ticket, e: Id)
    requires k in tickets && t.eventId == tickets[k].eventId
    ensures Admissions(checkIns, tickets[k := t], e) == Admissions(checkIns, tickets, e)
  {
  }

  /** A new check-in adds one admission to its ticket's event and none elsewhere. */
  lemma AdmissionsInsert(checkIns: map<Id, CheckIn>, tickets: map<Id, Ticket>, c: Id, ci: CheckIn, e: Id)
    requires c !in checkIns && ci.ticketId in tickets
    ensures |Admissions(checkIns[c := ci], tickets, e)|
            == |Admissions(checkIns, tickets, e)| + (if tickets[ci.ticketId].eventId == e then 1 else 0)
  {
    var before := Admissions(checkIns, tickets, e);
    var after := Admissions(checkIns[c := ci], tickets, e);
    if tickets[ci.ticketId].eventId == e {
      assert after == before + {c};
    } else {
      assert after == before;
    }
  }
}
