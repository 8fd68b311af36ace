/** The database behind the services: one map per table, keyed by identity, and the
    next identity each IDENTITY column will issue. `Valid` collects the integrity
    rules the schema and the services keep together. */
module Db {
  import opened Base
  import opened Entities
  import Seqs

  datatype Db = Db(
    users: map<Id, User>,
    events: map<Id, Event>,
    tickets: map<Id, Ticket>,
    checkIns: map<Id, CheckIn>,
    media: map<Id, EventMedia>,
    nextUser: Id,
    nextEvent: Id,
    nextTicket: Id,
    nextCheckIn: Id,
    nextMedia: Id)

  /** A service call: the database afterwards and what the caller receives. */
  datatype Outcome<T> = Outcome(db: Db, result: Result<T>)

  /** The failed call that leaves the database as it was. */
  function Fail<T>(db: Db, f: Failure): (o: Outcome<T>)
    ensures o.db == db && o.result == Err(f)
  {
    Outcome(db, Err(f))
  }

  predicate IdsBelow<V>(m: map<Id, V>, next: Id)
  {
    forall k :: k in m ==> 1 <= k < next
  }

  /** Rewriting a row in place keeps the identities below the counter. */
  lemma IdsBelowRewrite<V>(m: map<Id, V>, k: Id, v: V, next: Id)
    requires IdsBelow(m, next) && k in m
    ensures IdsBelow(m[k := v], next)
  {
  }

  /** The `n` identities a sequence issues from `first` on. */
  function IdRange(first: Id, n: nat): (s: set<Id>)
    ensures forall k :: k in s <==> first <= k < first + n
    ensures |s| == n
  {
    if n == 0 then {} else IdRange(first, n - 1) + {first + n - 1}
  }

  /** Every row carries an identity already issued by its table's sequence. */
  predicate Counters(db: Db)
  {
    IdsBelow(db.users, db.nextUser) && IdsBelow(db.events, db.nextEvent)
    && IdsBelow(db.tickets, db.nextTicket) && IdsBelow(db.checkIns, db.nextCheckIn)
    && IdsBelow(db.media, db.nextMedia)
    && 1 <= db.nextUser && 1 <= db.nextEvent && 1 <= db.nextTicket && 1 <= db.nextCheckIn && 1 <= db.nextMedia
  }

  /** The `organizer_id` foreign key of `events`. */
  predicate Organizers(events: map<Id, Event>, users: map<Id, User>)
  {
    forall e :: e in events ==> events[e].organizerId in users
  }

  /** The `user_id` and `event_id` foreign keys of `tickets`. */
  predicate Holders(tickets: map<Id, Ticket>, users: map<Id, User>, events: map<Id, Event>)
  {
    forall t :: t in tickets ==> tickets[t].userId in users && tickets[t].eventId in events
  }

  /** The `ticket_id` foreign key of `CheckIn`, unique per ticket, and no check-in
      for a ticket that is still BOOKED. */
  predicate Admitted(checkIns: map<Id, CheckIn>, tickets: map<Id, Ticket>)
  {
    (forall c :: c in checkIns ==> checkIns[c].ticketId in tickets && tickets[checkIns[c].ticketId].status != Booked)
    && (forall c, d :: c in checkIns && d in checkIns && checkIns[c].ticketId == checkIns[d].ticketId ==> c == d)
  }

  /** The unique `ticketCode` column. */
  predicate CodesUnique(tickets: map<Id, Ticket>)
  {
    forall s, t :: s in tickets && t in tickets && tickets[s].code == tickets[t].code ==> s == t
  }

  /** The unique `email` column. */
  predicate EmailsUnique(users: map<Id, User>)
  {
    forall u, v :: u in users && v in users && users[u].email == users[v].email ==> u == v
  }

  /** `countByEventIdAndMediaType(e, IMAGE)`: every image of event `e`, profile or not. */
  function ImagesOf(media: map<Id, EventMedia>, e: Id): set<Id>
  {
    set m | m in media && media[m].eventId == e && media[m].mediaType == Image
  }

  /** The images of `e` that are not its profile image. */
  function GalleryOf(media: map<Id, EventMedia>, e: Id): set<Id>
  {
    set m | m in media && media[m].eventId == e && media[m].mediaType == Image && !media[m].profile
  }

  /** `findByEventIdAndProfileTrue(e)`, as the set of matching rows. */
  function ProfilesOf(media: map<Id, EventMedia>, e: Id): set<Id>
  {
    set m | m in media && media[m].eventId == e && media[m].profile
  }

  /** The media rules: only images are profiles, and an event has at most one
      profile image and at most five other images. */
  ghost predicate MediaRules(media: map<Id, EventMedia>)
  {
    (forall m :: m in media && media[m].profile ==> media[m].mediaType == Image)
    && (forall e :: |ProfilesOf(media, e)| <= 1)
    && (forall e :: |GalleryOf(media, e)| <= 5)
  }

  /** Media rows name events already issued. The `eventId` column is a plain number,
      not a foreign key, so only the callers of the media service keep this. */
  predicate MediaIssued(media: map<Id, EventMedia>, nextEvent: Id)
  {
    forall m :: m in media ==> media[m].eventId < nextEvent
  }

  /** The integrity rules of the schema, one predicate per table or constraint so
      that an operation that leaves a table alone leaves its rule alone. The media
      rules, kept by the media service rather than the schema, are `MediaRules`. */
  predicate Valid(db: Db)
  {
    Counters(db) && Organizers(db.events, db.users) && Holders(db.tickets, db.users, db.events)
    && Admitted(db.checkIns, db.tickets) && CodesUnique(db.tickets) && EmailsUnique(db.users)
  }

  /** The empty database every sequence starts at 1 from. */
  function Empty(): (db: Db)
    ensures Valid(db) && MediaRules(db.media) && MediaIssued(db.media, db.nextEvent)
    ensures db.users == map[] && db.events == map[] && db.tickets == map[]
    ensures db.checkIns == map[] && db.media == map[]
  {
    Db(map[], map[], map[], map[], map[], 1, 1, 1, 1, 1)
  }

  /** Rewriting an event in place, under an organizer that exists, keeps every rule. */
  lemma EventRewriteKeepsValid(db: Db, e: Id, ev: Event)
    requires Valid(db) && e in db.events && ev.organizerId in db.users
    ensures Valid(db.(events := db.events[e := ev]))
  {
    EventRewriteOrganizers(db.events, db.users, e, ev);
    EventRewriteHolders(db.tickets, db.users, db.events, e, ev);
  }

  lemma EventRewriteOrganizers(events: map<Id, Event>, users: map<Id, User>, e: Id, ev: Event)
    requires Organizers(events, users) && ev.organizerId in users
    ensures Organizers(events[e := ev], users)
  {
  }

  lemma EventRewriteHolders(tickets: map<Id, Ticket>, users: map<Id, User>, events: map<Id, Event>, e: Id, ev: Event)
    requires Holders(tickets, users, events) && e in events
    ensures Holders(tickets, users, events[e := ev])
  {
  }

  /** Moving a ticket to a status other than BOOKED keeps every rule. */
  lemma TicketStatusKeepsValid(db: Db, k: Id, s: TicketStatus)
    requires Valid(db) && k in db.tickets && s != Booked
    ensures Valid(db.(tickets := db.tickets[k := db.tickets[k].(status := s)]))
  {
    StatusKeepsHolders(db.tickets, db.users, db.events, k, s);
    StatusKeepsAdmitted(db.checkIns, db.tickets, k, s);
    StatusKeepsCodes(db.tickets, k, s);
  }

  lemma StatusKeepsHolders(tickets: map<Id, Ticket>, users: map<Id, User>, events: map<Id, Event>, k: Id, s: TicketStatus)
    requires Holders(tickets, users, events) && k in tickets
    ensures Holders(tickets[k := tickets[k].(status := s)], users, events)
  {
  }

  lemma StatusKeepsAdmitted(checkIns: map<Id, CheckIn>, tickets: map<Id, Ticket>, k: Id, s: TicketStatus)
    requires Admitted(checkIns, tickets) && k in tickets && s != Booked
    ensures Admitted(checkIns, tickets[k := tickets[k].(status := s)])
  {
  }

  lemma StatusKeepsCodes(tickets: map<Id, Ticket>, k: Id, s: TicketStatus)
    requires CodesUnique(tickets) && k in tickets
    ensures CodesUnique(tickets[k := tickets[k].(status := s)])
  {
    var ts := tickets[k := tickets[k].(status := s)];
    forall i, j | i in ts && j in ts && ts[i].code == ts[j].code
      ensures i == j
    {
      assert tickets[i].code == tickets[j].code;
    }
  }

  /** Moving a ticket off BOOKED and rewriting an event in the same step keeps every rule. */
  lemma StatusAndEventKeepValid(db: Db, k: Id, s: TicketStatus, e: Id, ev: Event)
    requires Valid(db) && k in db.tickets && s != Booked && e in db.events && ev.organizerId in db.users
    ensures Valid(db.(tickets := db.tickets[k := db.tickets[k].(status := s)], events := db.events[e := ev]))
  {
    StatusKeepsHolders(db.tickets, db.users, db.events, k, s);
    EventRewriteHolders(db.tickets[k := db.tickets[k].(status := s)], db.users, db.events, e, ev);
    StatusKeepsAdmitted(db.checkIns, db.tickets, k, s);
    StatusKeepsCodes(db.tickets, k, s);
    EventRewriteOrganizers(db.events, db.users, e, ev);
  }

  /** Whether ticket `k` already has its `CheckIn` row. */
  predicate HasCheckIn(checkIns: map<Id, CheckIn>, k: Id)
  {
    exists c :: c in checkIns && checkIns[c].ticketId == k
  }

  /** Recording the first check-in of a ticket that is no longer BOOKED keeps every rule. */
  lemma AdmitKeepsValid(db: Db, k: Id, time: Time)
    requires Valid(db) && k in db.tickets && db.tickets[k].status != Booked && !HasCheckIn(db.checkIns, k)
    ensures Valid(db.(checkIns := db.checkIns[db.nextCheckIn := CheckIn(k, time)], nextCheckIn := db.nextCheckIn + 1))
  {
    AdmitKeepsAdmitted(db.checkIns, db.tickets, db.nextCheckIn, k, time);
  }

  lemma AdmitKeepsAdmitted(checkIns: map<Id, CheckIn>, tickets: map<Id, Ticket>, c: Id, k: Id, time: Time)
    requires Admitted(checkIns, tickets) && c !in checkIns
    requires k in tickets && tickets[k].status != Booked && !HasCheckIn(checkIns, k)
    ensures Admitted(checkIns[c := CheckIn(k, time)], tickets)
  {
    var cs := checkIns[c := CheckIn(k, time)];
    forall i, j | i in cs && j in cs && cs[i].ticketId == cs[j].ticketId
      ensures i == j
    {
      if i != c && j != c {
        assert checkIns[i].ticketId == checkIns[j].ticketId;
      }
    }
  }

  /** The images of an event are its gallery plus its profile images. */
  lemma ImagesSplit(db: Db, e: Id)
    requires MediaRules(db.media)
    ensures ImagesOf(db.media, e) == GalleryOf(db.media, e) + ProfilesOf(db.media, e)
    ensures GalleryOf(db.media, e) !! ProfilesOf(db.media, e)
  {
    forall m | m in ProfilesOf(db.media, e)
      ensures m in ImagesOf(db.media, e)
    {
      assert db.media[m].profile;
    }
  }

  /** So no event ever holds more than six images. */
  lemma ImagesAtMostSix(db: Db, e: Id)
    requires MediaRules(db.media)
    ensures |ImagesOf(db.media, e)| <= 6
  {
    ImagesSplit(db, e);
    assert |ProfilesOf(db.media, e)| <= 1;
    assert |GalleryOf(db.media, e)| <= 5;
  }

  /** `findByEventId(e)`: the event's media rows in identity order. */
  function MediaRows(db: Db, e: Id): (r: seq<(Id, EventMedia)>)
    ensures forall i :: 0 <= i < |r| ==> r[i].0 in db.media && db.media[r[i].0] == r[i].1 && r[i].1.eventId == e
    ensures forall i, j :: 0 <= i < j < |r| ==> r[i].0 < r[j].0
    ensures IdsBelow(db.media, db.nextMedia) ==>
              forall m :: m in db.media && db.media[m].eventId == e ==> (m, db.media[m]) in r
  {
    FilterSorted(Seqs.Listing(db.media, db.nextMedia), e)
  }

  /** Rows in strictly increasing identity order. */
  predicate Ascending(rows: seq<(Id, EventMedia)>)
  {
    forall i, j :: 0 <= i < j < |rows| ==> rows[i].0 < rows[j].0
  }

  lemma AscendingCons(x: (Id, EventMedia), rest: seq<(Id, EventMedia)>)
    requires Ascending(rest) && forall i :: 0 <= i < |rest| ==> x.0 < rest[i].0
    ensures Ascending([x] + rest)
  {
    var r := [x] + rest;
    forall i, j | 0 <= i < j < |r|
      ensures r[i].0 < r[j].0
    {
      assert r[j] == rest[j - 1];
      if i > 0 {
        assert r[i] == rest[i - 1];
      }
    }
  }

  /** The rows of `rows` that belong to event `e`, keeping their order. */
  function FilterSorted(rows: seq<(Id, EventMedia)>, e: Id): (r: seq<(Id, EventMedia)>)
    requires Ascending(rows)
    ensures forall i :: 0 <= i < |r| ==> r[i] in rows && r[i].1.eventId == e
    ensures forall i :: 0 <= i < |rows| && rows[i].1.eventId == e ==> rows[i] in r
    ensures Ascending(r)
  {
    if rows == [] then []
    else
      var rest := FilterSorted(rows[1..], e);
      assert forall i :: 1 <= i < |rows| ==> rows[i] == rows[1..][i - 1];
      if rows[0].1.eventId == e then
        assert forall i :: 0 <= i < |rest| ==> rows[0].0 < rest[i].0;
        AscendingCons(rows[0], rest);
        [rows[0]] + rest
      else rest
  }
}
