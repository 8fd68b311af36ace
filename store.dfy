/** The services as they run: one `Store` object holds the tables the repositories
    update in place, and each state-changing service call is a method on it. Every
    method is proved to leave the tables exactly as the matching transition function
    of its service says and to answer what that function answers. The whole service
    calls, and the upload steps of `createEventWithMedia`, are also proved to keep
    the integrity rules of the schema; the inner steps `DoCheckIn`, `Commit`,
    `SaveAll` and `Respond` leave that to the call around them. */
module Services {
  import opened Base
  import opened Entities
  import opened Db
  import opened QrPayload
  import Tickets
  import CheckIns
  import Media
  import Events
  import Users

  class Store {
    var users: map<Id, User>
    var events: map<Id, Event>
    var tickets: map<Id, Ticket>
    var checkIns: map<Id, CheckIn>
    var media: map<Id, EventMedia>
    var nextUser: Id
    var nextEvent: Id
    var nextTicket: Id
    var nextCheckIn: Id
    var nextMedia: Id

    /** The tables and identity counters as one value. */
    function DbOf(): Db
      reads this
    {
      Db(users, events, tickets, checkIns, media, nextUser, nextEvent, nextTicket, nextCheckIn, nextMedia)
    }

    /** A fresh schema: every table empty, every counter at 1. */
    constructor()
      ensures DbOf() == Empty()
      ensures Valid(DbOf()) && MediaRules(media)
    {
      var db := Empty();
      users, events, tickets, checkIns, media := db.users, db.events, db.tickets, db.checkIns, db.media;
      nextUser, nextEvent, nextTicket, nextCheckIn, nextMedia := db.nextUser, db.nextEvent, db.nextTicket, db.nextCheckIn, db.nextMedia;
    }

    // -------------------------------------------------------------------------
    // TicketService

    /** `bookTickets(dto)`. The checks, then the seat decrement, then a loop that
        creates the tickets one by one and `saveAll`, which gives each the next
        identity and, through `Ticket.onCreate`, its drawn code; then the responses,
        one per ticket in creation order. A code collision makes `saveAll` fail and
        the transaction roll back, seat decrement included. */
    method BookTickets(req: Tickets.BookRequest, uuid: Id -> string, now: Time) returns (r: Result<seq<Tickets.Receipt>>)
      modifies this
      ensures DbOf() == Tickets.Book(old(DbOf()), req, uuid, now).db
      ensures r == Tickets.Book(old(DbOf()), req, uuid, now).result
      ensures Valid(old(DbOf())) ==> Valid(DbOf())
    {
      ghost var db0 := DbOf();
      if req.seatCount <= 0 {
        return Err(Raised(SeatCountNotPositive));
      }
      if req.userId !in users {
        return Err(Raised(UserNotFound));
      }
      if req.eventId !in events {
        return Err(Raised(EventNotFound));
      }
      var ev := events[req.eventId];
      if ev.availableSeats < req.seatCount {
        return Err(Raised(NotEnoughSeats));
      }
      if !Tickets.CodesFresh(tickets, uuid, nextTicket, req.seatCount) {
        return Err(Crashed);
      }
      var receipts := Commit(req, uuid, now);
      Tickets.BookPasses(db0, req, uuid, now);
      r := Ok(receipts);
      BookKeeps(db0, req, uuid, now, DbOf());
    }

    /** The part of `bookTickets` after its checks: the seat decrement, the saved
        tickets and the response built from them. */
    method Commit(req: Tickets.BookRequest, uuid: Id -> string, now: Time) returns (receipts: seq<Tickets.Receipt>)
      requires Tickets.CanBook(DbOf(), req, uuid)
      modifies this
      ensures DbOf() == Tickets.Booking(old(DbOf()), req, uuid, now)
      ensures receipts == Tickets.Receipts(tickets, old(nextTicket), req.seatCount, users[req.userId].name)
    {
      ghost var db0 := DbOf();
      var n: nat := req.seatCount;
      var ev := events[req.eventId];
      events := events[req.eventId := ev.(availableSeats := ev.availableSeats - n)];
      var first := nextTicket;
      SaveAll(n, req.userId, req.eventId, uuid, now);
      assert DbOf() == Tickets.Booking(db0, req, uuid, now);
      receipts := Respond(first, n, users[req.userId].name);
    }

    /** The loop of `bookTickets` and the `saveAll` after it: `n` new tickets of the
        user for the event, saved under the next `n` identities, each given its
        drawn code, status BOOKED and `bookedAt = now` by `Ticket.onCreate`. */
    method SaveAll(n: nat, userId: Id, eventId: Id, uuid: Id -> string, now: Time)
      modifies this
      ensures tickets == Tickets.AddTickets(old(tickets), old(nextTicket), n, userId, eventId, uuid, now)
      ensures nextTicket == old(nextTicket) + n
      ensures DbOf() == old(DbOf()).(tickets := tickets, nextTicket := nextTicket)
    {
      var first := nextTicket;
      var before := tickets;
      var saved := before;
      for i := 0 to n
        invariant saved == Tickets.AddTickets(before, first, i, userId, eventId, uuid, now)
        modifies {}
      {
        AddTicketsStep(before, first, i, userId, eventId, uuid, now);
        saved := saved[first + i := NewTicket(userId, eventId, uuid(first + i), now)];
      }
      tickets, nextTicket := saved, first + n;
    }

    /** The response of `bookTickets`: `toDTO` of the tickets saved under `first` ..
        `first + n - 1`, in that order, with the user's name. */
    method Respond(first: Id, n: nat, userName: string) returns (rs: seq<Tickets.Receipt>)
      requires forall k :: first <= k < first + n ==> k in tickets
      ensures rs == Tickets.Receipts(tickets, first, n, userName)
    {
      rs := [];
      for i := 0 to n
        invariant rs == Tickets.Receipts(tickets, first, i, userName)
      {
        rs := rs + [Tickets.ToReceipt(first + i, tickets[first + i], userName)];
      }
    }

    /** `cancelTicket(ticketId)`: the ticket's status and its event's seat count are
        updated in place. */
    method CancelTicket(ticketId: Id) returns (r: Result<Id>)
      modifies this
      ensures DbOf() == Tickets.Cancel(old(DbOf()), ticketId).db
      ensures r == Tickets.Cancel(old(DbOf()), ticketId).result
      ensures Valid(old(DbOf())) ==> Valid(DbOf())
    {
      ghost var db0 := DbOf();
      if ticketId !in tickets {
        return Err(Crashed);
      }
      var t := tickets[ticketId];
      if t.status == Cancelled {
        return Err(AlreadyCancelled);
      }
      if t.eventId !in events {
        return Err(Crashed);
      }
      tickets := tickets[ticketId := t.(status := Cancelled)];
      var ev := events[t.eventId];
      events := events[t.eventId := ev.(availableSeats := Wrap32(ev.availableSeats + 1))];
      r := Ok(ticketId);
      CancelKeeps(db0, ticketId, DbOf());
    }

    // -------------------------------------------------------------------------
    // CheckInService

    /** `doCheckIn(ticket)`: the status becomes CHECKED_IN and a `CheckIn` row is
        saved; a second row for the ticket is refused by the unique column and
        nothing changes. */
    method DoCheckIn(k: Id, now: Time) returns (r: Result<CheckIns.Admission>)
      requires k in tickets
      modifies this
      ensures DbOf() == CheckIns.DoCheckIn(old(DbOf()), k, now).db
      ensures r == CheckIns.DoCheckIn(old(DbOf()), k, now).result
    {
      if HasCheckIn(checkIns, k) {
        return Err(Crashed);
      }
      var t := tickets[k];
      tickets := tickets[k := t.(status := CheckedIn)];
      checkIns := checkIns[nextCheckIn := Entities.CheckIn(k, now)];
      nextCheckIn := nextCheckIn + 1;
      r := Ok(CheckIns.Admission(k, t.code, now));
    }

    /** `checkIn(ticketId)`: the validation chain, then `doCheckIn`. */
    method CheckIn(ticketId: int, now: Time) returns (r: Result<CheckIns.Admission>)
      modifies this
      ensures DbOf() == CheckIns.CheckInById(old(DbOf()), ticketId, now).db
      ensures r == CheckIns.CheckInById(old(DbOf()), ticketId, now).result
      ensures Valid(old(DbOf())) ==> Valid(DbOf())
    {
      ghost var db0 := DbOf();
      var v := CheckIns.Validate(DbOf(), ticketId, None, now);
      if v.Err? {
        return Err(v.failure);
      }
      r := DoCheckIn(v.value, now);
      CheckInKeeps(db0, ticketId, now, DbOf());
    }

    /** `checkInByQRCode(text)`: the text is parsed by the entry loop of
        `parseQRCodeJson`, the identity and code are read from the map, then the
        validation chain and `doCheckIn`; any failure is answered "Invalid QR code". */
    method CheckInByQr(text: string, now: Time) returns (r: Result<CheckIns.Admission>)
      modifies this
      ensures DbOf() == CheckIns.CheckInByQr(old(DbOf()), text, now).db
      ensures r == CheckIns.CheckInByQr(old(DbOf()), text, now).result
      ensures Valid(old(DbOf())) ==> Valid(DbOf())
    {
      ghost var db0 := DbOf();
      var m := ParseQrCodeJson(text);
      if m.None? {
        return Err(Raised(InvalidQrCode));
      }
      var cred := ReadCredentials(m.value);
      if cred.None? {
        return Err(Raised(InvalidQrCode));
      }
      var v := CheckIns.Validate(DbOf(), cred.value.ticketId, cred.value.code, now);
      if v.Err? {
        return Err(Raised(InvalidQrCode));
      }
      r := DoCheckIn(v.value, now);
      if r.Err? {
        r := Err(Raised(InvalidQrCode));
      }
      CheckInByQrKeeps(db0, text, now, DbOf());
    }

    // -------------------------------------------------------------------------
    // EventService

    /** `createEvent(event)`: the organizer is looked up, a null `availableSeats` is
        filled in, and the insert runs `Event.onCreate` and takes the next identity. */
    method CreateEvent(d: EventDraft, now: Time) returns (r: Result<Id>)
      modifies this
      ensures DbOf() == Events.CreateEvent(old(DbOf()), d, now).db
      ensures r == Events.CreateEvent(old(DbOf()), d, now).result
      ensures Valid(old(DbOf())) ==> Valid(DbOf())
    {
      ghost var db0 := DbOf();
      if d.organizer.None? {
        return Err(Crashed);
      }
      var o := d.organizer.value;
      if o !in users {
        return Err(Raised(OrganizerNotFound));
      }
      if Events.Rejected(d) {
        return Err(Crashed);
      }
      var available := if d.availableSeats.None? then d.totalSeats.value else d.availableSeats.value;
      var ev := Event(d.title.value, d.description, d.location.value, d.eventDate.value,
                      d.totalSeats.value, available, o, 0);
      events := events[nextEvent := EventOnCreate(ev, now)];
      r := Ok(nextEvent);
      nextEvent := nextEvent + 1;
      CreateEventKeeps(db0, d, now, DbOf());
    }

    /** `updateEvent(id, event)`: the stored row's fields are overwritten from the body. */
    method UpdateEvent(id: Id, d: EventDraft) returns (r: Result<Id>)
      modifies this
      ensures DbOf() == Events.UpdateEvent(old(DbOf()), id, d).db
      ensures r == Events.UpdateEvent(old(DbOf()), id, d).result
      ensures Valid(old(DbOf())) ==> Valid(DbOf())
    {
      ghost var db0 := DbOf();
      if id !in events {
        return Err(Raised(EventNotFound));
      }
      if d.organizer.Some? && d.organizer.value !in users {
        return Err(Raised(OrganizerNotFound));
      }
      if Events.Rejected(d) || d.availableSeats.None? {
        return Err(Crashed);
      }
      var current := events[id];
      var organizer := if d.organizer.Some? then d.organizer.value else current.organizerId;
      events := events[id := Event(d.title.value, d.description, d.location.value, d.eventDate.value,
                                   d.totalSeats.value, d.availableSeats.value, organizer, current.createdAt)];
      r := Ok(id);
      UpdateEventKeeps(db0, id, d, DbOf());
    }

    /** `deleteEvent(id)`. */
    method DeleteEvent(id: Id) returns (r: Result<()>)
      modifies this
      ensures DbOf() == Events.DeleteEvent(old(DbOf()), id).db
      ensures r == Events.DeleteEvent(old(DbOf()), id).result
      ensures Valid(old(DbOf())) ==> Valid(DbOf())
    {
      ghost var db0 := DbOf();
      if id !in events {
        return Err(Raised(EventNotFound));
      }
      if Events.HasTickets(tickets, id) {
        return Err(Crashed);
      }
      events := events - {id};
      r := Ok(());
      DeleteEventKeeps(db0, id, DbOf());
    }

    /** `createEventWithMedia(event, profileImage, images, video)`: the event, the
        profile image, a loop over at most the first five entries of `images`
        uploading each one present and not empty, the video, then the view of the
        saved event. Each upload is saved as it happens; the first failure ends the
        call and leaves what was saved before it. */
    method CreateEventWithMedia(d: EventDraft, profile: Option<Media.Part>, images: seq<Option<Media.Part>>,
                                video: Option<Media.Part>, destroyed: bool, now: Time)
      returns (r: Result<Events.EventView>)
      modifies this
      ensures DbOf() == Events.CreateEventWithMedia(old(DbOf()), d, profile, images, video, destroyed, now).db
      ensures r == Events.CreateEventWithMedia(old(DbOf()), d, profile, images, video, destroyed, now).result
      ensures Valid(old(DbOf())) ==> Valid(DbOf())
    {
      var created := CreateEvent(d, now);
      if created.Err? {
        return Err(created.failure);
      }
      var e := created.value;
      var attached := AttachMedia(e, profile, images, video, destroyed, now);
      if attached.Err? {
        return Err(attached.failure);
      }
      r := Ok(Events.View(DbOf(), e));
    }

    /** The uploads of `createEventWithMedia` for the saved event `e`: the profile
        image, the images, the video, the first failure ending the call. */
    method AttachMedia(e: Id, profile: Option<Media.Part>, images: seq<Option<Media.Part>>,
                       video: Option<Media.Part>, destroyed: bool, now: Time) returns (r: Result<()>)
      modifies this
      ensures DbOf() == Events.AttachMedia(old(DbOf()), e, profile, images, video, destroyed, now).db
      ensures r == Events.AttachMedia(old(DbOf()), e, profile, images, video, destroyed, now).result
      ensures Valid(old(DbOf())) ==> Valid(DbOf())
    {
      if Events.Given(profile) {
        var p := UploadImage(e, profile.value, true, destroyed, now);
        if p.Err? {
          return Err(p.failure);
        }
      }
      var g := UploadGallery(e, images, now);
      if g.Err? {
        return Err(g.failure);
      }
      if Events.Given(video) {
        var v := UploadVideo(e, video.value, now);
        if v.Err? {
          return Err(v.failure);
        }
      }
      r := Ok(());
    }

    /** The loop of `createEventWithMedia` over `images`: at most the first five
        entries are visited, and each that is present and not empty is uploaded as
        a non-profile image; the first failure ends the loop. */
    method UploadGallery(e: Id, images: seq<Option<Media.Part>>, now: Time) returns (r: Result<()>)
      modifies this
      ensures DbOf() == Events.Gallery(old(DbOf()), e, images, 0, now).db
      ensures r == Events.Gallery(old(DbOf()), e, images, 0, now).result
      ensures Valid(old(DbOf())) ==> Valid(DbOf())
    {
      var i := 0;
      while i < |images| && i < Events.IMAGES_EXAMINED
        invariant 0 <= i <= Events.Examined(images)
        invariant Events.Gallery(DbOf(), e, images, i, now) == Events.Gallery(old(DbOf()), e, images, 0, now)
        invariant Valid(old(DbOf())) ==> Valid(DbOf())
        decreases |images| - i
      {
        if Events.Given(images[i]) {
          var u := UploadImage(e, images[i].value, false, true, now);
          if u.Err? {
            return Err(u.failure);
          }
        }
        i := i + 1;
      }
      r := Ok(());
    }

    // -------------------------------------------------------------------------
    // EventMediaService

    /** `uploadImage(e, file, profile)`: the cap, the upload, for a profile image the
        deletion of the previous profile from the store and the table, then the save. */
    method UploadImage(e: Id, part: Media.Part, profile: bool, destroyed: bool, now: Time) returns (r: Result<Id>)
      modifies this
      ensures DbOf() == Media.UploadImage(old(DbOf()), e, part, profile, destroyed, now).db
      ensures r == Media.UploadImage(old(DbOf()), e, part, profile, destroyed, now).result
      ensures Valid(old(DbOf())) ==> Valid(DbOf())
      ensures Counters(old(DbOf())) && MediaRules(old(media)) ==> MediaRules(media)
    {
      ghost var db0 := DbOf();
      if !profile && |ImagesOf(media, e)| >= Media.IMAGE_CAP {
        return Err(Raised(TooManyImages));
      }
      if part.stored.None? {
        return Err(Crashed);
      }
      var up := part.stored.value;
      var row := EventMedia(e, up.url, up.publicId, Image, profile, now);
      if profile {
        var previous := ProfilesOf(media, e);
        if |previous| > 1 {
          return Err(Crashed);
        }
        if previous != {} && !destroyed {
          return Err(Crashed);
        }
        media := media - previous;
      }
      media := media[nextMedia := row];
      r := Ok(nextMedia);
      nextMedia := nextMedia + 1;
      UploadImageKeeps(db0, e, part, profile, destroyed, now, DbOf());
    }

    /** `uploadVideo(e, file)`: the size limit, the upload, then the save. */
    method UploadVideo(e: Id, part: Media.Part, now: Time) returns (r: Result<Id>)
      modifies this
      ensures DbOf() == Media.UploadVideo(old(DbOf()), e, part, now).db
      ensures r == Media.UploadVideo(old(DbOf()), e, part, now).result
      ensures Valid(old(DbOf())) ==> Valid(DbOf())
      ensures Counters(old(DbOf())) && MediaRules(old(media)) ==> MediaRules(media)
    {
      ghost var db0 := DbOf();
      if part.file.size > Media.VIDEO_LIMIT {
        return Err(Raised(VideoTooLarge));
      }
      if part.stored.None? {
        return Err(Crashed);
      }
      var up := part.stored.value;
      media := media[nextMedia := EventMedia(e, up.url, up.publicId, Video, false, now)];
      r := Ok(nextMedia);
      nextMedia := nextMedia + 1;
      UploadVideoKeeps(db0, e, part, now, DbOf());
    }

    /** `deleteMedia(id)`: the file is deleted from the store, then the row. */
    method DeleteMedia(id: Id, destroyed: bool) returns (r: Result<()>)
      modifies this
      ensures DbOf() == Media.DeleteMedia(old(DbOf()), id, destroyed).db
      ensures r == Media.DeleteMedia(old(DbOf()), id, destroyed).result
      ensures Valid(old(DbOf())) ==> Valid(DbOf())
      ensures MediaRules(old(media)) ==> MediaRules(media)
    {
      ghost var db0 := DbOf();
      if id !in media {
        return Err(Raised(MediaNotFound));
      }
      if !destroyed {
        return Err(Crashed);
      }
      media := media - {id};
      r := Ok(());
      DeleteMediaKeeps(db0, id, destroyed, DbOf());
    }

    // -------------------------------------------------------------------------
    // UserService

    /** `createUser(dto)`: the fields are set, the role forced to USER, and the row saved. */
    method CreateUser(d: UserDraft, now: Time) returns (r: Result<Users.UserView>)
      modifies this
      ensures DbOf() == Users.CreateUser(old(DbOf()), d, now).db
      ensures r == Users.CreateUser(old(DbOf()), d, now).result
      ensures Valid(old(DbOf())) ==> Valid(DbOf())
    {
      ghost var db0 := DbOf();
      if Users.Incomplete(d) {
        return Err(Crashed);
      }
      if Users.EmailTaken(users, d.email.value) {
        return Err(Crashed);
      }
      var user := User(d.name.value, d.email.value, d.password.value, USER_ROLE, now);
      users := users[nextUser := user];
      r := Ok(Users.ToView((nextUser, user)));
      nextUser := nextUser + 1;
      CreateUserKeeps(db0, d, now, DbOf());
    }
  }

  /** One more ticket saved is one more step of `AddTickets`. */
  lemma AddTicketsStep(tickets: map<Id, Ticket>, first: Id, i: nat, userId: Id, eventId: Id, uuid: Id -> string, now: Time)
    ensures Tickets.AddTickets(tickets, first, i + 1, userId, eventId, uuid, now)
         == Tickets.AddTickets(tickets, first, i, userId, eventId, uuid, now)[first + i := NewTicket(userId, eventId, uuid(first + i), now)]
  {
  }

  // ---------------------------------------------------------------------------
  // What each method keeps, for the state it reaches: the preservation lemmas of
  // the services, applied to that state.

  lemma BookKeeps(db0: Db, req: Tickets.BookRequest, uuid: Id -> string, now: Time, db1: Db)
    requires db1 == Tickets.Book(db0, req, uuid, now).db
    ensures Valid(db0) ==> Valid(db1)
  {
    if Valid(db0) {
      Tickets.BookKeepsValid(db0, req, uuid, now);
    }
  }

  lemma CancelKeeps(db0: Db, ticketId: Id, db1: Db)
    requires db1 == Tickets.Cancel(db0, ticketId).db
    ensures Valid(db0) ==> Valid(db1)
  {
    if Valid(db0) {
      Tickets.CancelKeepsValid(db0, ticketId);
    }
  }

  lemma CheckInKeeps(db0: Db, ticketId: int, now: Time, db1: Db)
    requires db1 == CheckIns.CheckInById(db0, ticketId, now).db
    ensures Valid(db0) ==> Valid(db1)
  {
    if Valid(db0) {
      CheckIns.CheckInKeepsValid(db0, ticketId, now);
    }
  }

  lemma CheckInByQrKeeps(db0: Db, text: string, now: Time, db1: Db)
    requires db1 == CheckIns.CheckInByQr(db0, text, now).db
    ensures Valid(db0) ==> Valid(db1)
  {
    if Valid(db0) {
      CheckIns.CheckInByQrKeepsValid(db0, text, now);
    }
  }

  lemma CreateEventKeeps(db0: Db, d: EventDraft, now: Time, db1: Db)
    requires db1 == Events.CreateEvent(db0, d, now).db
    ensures Valid(db0) ==> Valid(db1)
  {
    if Valid(db0) {
      Events.CreateEventKeepsValid(db0, d, now);
    }
  }

  lemma UpdateEventKeeps(db0: Db, id: Id, d: EventDraft, db1: Db)
    requires db1 == Events.UpdateEvent(db0, id, d).db
    ensures Valid(db0) ==> Valid(db1)
  {
    if Valid(db0) {
      Events.UpdateEventKeepsValid(db0, id, d);
    }
  }

  lemma DeleteEventKeeps(db0: Db, id: Id, db1: Db)
    requires db1 == Events.DeleteEvent(db0, id).db
    ensures Valid(db0) ==> Valid(db1)
  {
    if Valid(db0) {
      Events.DeleteEventKeepsValid(db0, id);
    }
  }

  lemma CreateUserKeeps(db0: Db, d: UserDraft, now: Time, db1: Db)
    requires db1 == Users.CreateUser(db0, d, now).db
    ensures Valid(db0) ==> Valid(db1)
  {
    if Valid(db0) {
      Users.CreateUserKeepsValid(db0, d, now);
    }
  }

  lemma UploadVideoKeeps(db0: Db, e: Id, part: Media.Part, now: Time, db1: Db)
    requires db1 == Media.UploadVideo(db0, e, part, now).db
    ensures Valid(db0) ==> Valid(db1)
    ensures Counters(db0) && MediaRules(db0.media) ==> MediaRules(db1.media)
  {
    if Valid(db0) {
      Media.UploadVideoKeepsValid(db0, e, part, now);
    }
    if Counters(db0) && MediaRules(db0.media) {
      Media.UploadVideoKeepsRules(db0, e, part, now);
    }
  }

  lemma DeleteMediaKeeps(db0: Db, id: Id, destroyed: bool, db1: Db)
    requires db1 == Media.DeleteMedia(db0, id, destroyed).db
    ensures Valid(db0) ==> Valid(db1)
    ensures MediaRules(db0.media) ==> MediaRules(db1.media)
  {
    if Valid(db0) {
      Media.DeleteMediaKeepsValid(db0, id, destroyed);
    }
    if MediaRules(db0.media) {
      Media.DeleteMediaKeepsRules(db0, id, destroyed);
    }
  }

  lemma UploadImageKeeps(db0: Db, e: Id, part: Media.Part, profile: bool, destroyed: bool, now: Time, db1: Db)
    requires db1 == Media.UploadImage(db0, e, part, profile, destroyed, now).db
    ensures Valid(db0) ==> Valid(db1)
    ensures Counters(db0) && MediaRules(db0.media) ==> MediaRules(db1.media)
  {
    if Valid(db0) {
      Media.UploadImageKeepsValid(db0, e, part, profile, destroyed, now);
    }
    if Counters(db0) && MediaRules(db0.media) {
      Media.UploadImageKeepsRules(db0, e, part, profile, destroyed, now);
    }
  }
}
