/** `EventService`: creating, reading, listing, updating and deleting events, and
    the event view that joins an event with its media. */
module Events {
  import opened Base
  import opened Entities
  import opened Db
  import opened Ledger
  import opened Paging
  import opened Media
  import Seqs

  /** The `length` of the `description` column. */
  const DESCRIPTION_MAX: nat := 1000

  /** How many entries of `images` `createEventWithMedia` looks at. */
  const IMAGES_EXAMINED: nat := 5

  predicate DescriptionFits(d: Option<string>)
  {
    d.None? || |d.value| <= DESCRIPTION_MAX
  }

  /** Whether `save` would meet a null in a mandatory column, a title or location
      longer than its 255-character column, or an overlong description (ticket price
      aside). `availableSeats` is checked separately: `createEvent`
      and the `onCreate` hook fill it before the insert. */
  predicate Rejected(d: EventDraft)
  {
    d.title.None? || d.location.None? || d.eventDate.None? || d.totalSeats.None? || !DescriptionFits(d.description)
    || !FitsColumn(d.title.value) || !FitsColumn(d.location.value)
  }

  /** `createEvent(event)`: the organizer is looked up by the id the body carries (a
      body without an organizer throws a `NullPointerException`); a null
      `availableSeats` is filled with `totalSeats`; on insert the `onCreate` hook
      stamps `createdAt` and sets `availableSeats` to `totalSeats` anyway. The new
      event takes the next identity. */
  function CreateEvent(db: Db, d: EventDraft, now: Time): (o: Outcome<Id>)
    ensures o.result.Err? ==> o.db == db
    ensures o.result.Ok? ==>
      && o.result.value == db.nextEvent && o.db.nextEvent == db.nextEvent + 1 && o.result.value in o.db.events
      && o.db.events[o.result.value].availableSeats == o.db.events[o.result.value].totalSeats
  {
    match d.organizer
    case None => Fail(db, Crashed)
    case Some(o) =>
      if o !in db.users then Fail(db, Raised(OrganizerNotFound))
      else if Rejected(d) then Fail(db, Crashed)
      else
        var available := if d.availableSeats.None? then d.totalSeats.value else d.availableSeats.value;
        // `createdAt` is still unset when the hook runs; 0 stands for it here.
        var ev := Event(d.title.value, d.description, d.location.value, d.eventDate.value,
                        d.totalSeats.value, available, o, 0);
        Outcome(db.(events := db.events[db.nextEvent := EventOnCreate(ev, now)], nextEvent := db.nextEvent + 1),
                Ok(db.nextEvent))
  }

  /** `updateEvent(id, event)`: every field is copied from the body as it is, seat
      counts included; the organizer changes only when the body names one. Nothing
      re-derives `availableSeats` (there is no update hook). */
  function UpdateEvent(db: Db, id: Id, d: EventDraft): (o: Outcome<Id>)
    ensures o.result.Err? ==> o.db == db
    ensures o.result.Ok? ==>
      o.result.value == id && id in db.events && o.db.events.Keys == db.events.Keys && o.db.tickets == db.tickets
  {
    if id !in db.events then Fail(db, Raised(EventNotFound))
    else if d.organizer.Some? && d.organizer.value !in db.users then Fail(db, Raised(OrganizerNotFound))
    else if Rejected(d) || d.availableSeats.None? then Fail(db, Crashed)
    else
      var current := db.events[id];
      var organizer := if d.organizer.Some? then d.organizer.value else current.organizerId;
      var ev := Event(d.title.value, d.description, d.location.value, d.eventDate.value,
                      d.totalSeats.value, d.availableSeats.value, organizer, current.createdAt);
      Outcome(db.(events := db.events[id := ev]), Ok(id))
  }

  /** Whether some ticket references event `e` through its `event_id` foreign key. */
  predicate HasTickets(tickets: map<Id, Ticket>, e: Id)
  {
    exists k :: k in tickets && tickets[k].eventId == e
  }

  /** `deleteEvent(id)`: the row is deleted; while tickets reference it the foreign key
      refuses. Media rows carry a plain event number and stay behind. */
  function DeleteEvent(db: Db, id: Id): (o: Outcome<()>)
    ensures o.result.Err? ==> o.db == db
    ensures o.result.Ok? ==> id in db.events && !HasTickets(db.tickets, id) && o.db.events.Keys == db.events.Keys - {id}
  {
    if id !in db.events then Fail(db, Raised(EventNotFound))
    else if HasTickets(db.tickets, id) then Fail(db, Crashed)
    else Outcome(db.(events := db.events - {id}), Ok(()))
  }

  // ---------------------------------------------------------------------------
  // The event view

  /** An `EventResponse` (the ticket price aside). */
  datatype EventView = EventView(
    id: Id,
    title: string,
    description: Option<string>,
    location: string,
    eventDate: Time,
    totalSeats: Int32,
    availableSeats: Int32,
    organizerId: Id,
    profileImageUrl: Option<string>,
    imageUrls: seq<string>,
    videoUrl: Option<string>)

  predicate IsProfileImage(m: EventMedia) { m.mediaType == Image && m.profile }

  predicate IsGalleryImage(m: EventMedia) { m.mediaType == Image && !m.profile }

  predicate IsVideo(m: EventMedia) { m.mediaType == Video }

  /** `stream().filter(p).findFirst()`: the position of the first row satisfying `p`. */
  function FindFirst(rows: seq<(Id, EventMedia)>, p: EventMedia -> bool): (r: Option<nat>)
    ensures r.Some? ==> r.value < |rows| && p(rows[r.value].1)
    ensures r.Some? ==> forall j :: 0 <= j < r.value ==> !p(rows[j].1)
    ensures r.None? ==> forall j :: 0 <= j < |rows| ==> !p(rows[j].1)
  {
    if rows == [] then None
    else if p(rows[0].1) then Some(0)
    else
      match FindFirst(rows[1..], p)
      case None => None
      case Some(i) => Some(i + 1)
  }

  /** The url of the first row satisfying `p`, if any. */
  function FirstUrl(rows: seq<(Id, EventMedia)>, p: EventMedia -> bool): Option<string>
  {
    match FindFirst(rows, p)
    case None => None
    case Some(i) => Some(rows[i].1.url)
  }

  function Url(row: (Id, EventMedia)): string { row.1.url }

  function IsGalleryRow(row: (Id, EventMedia)): bool { IsGalleryImage(row.1) }

  /** `mapToResponse(event)`: the event's fields, the first profile image, the urls of
      the other images in listing order, and the first video. */
  function View(db: Db, id: Id): (v: EventView)
    requires id in db.events
    ensures v.id == id && |v.imageUrls| <= |MediaRows(db, id)|
  {
    var ev := db.events[id];
    var rows := MediaRows(db, id);
    EventView(id, ev.title, ev.description, ev.location, ev.eventDate, ev.totalSeats, ev.availableSeats,
              ev.organizerId, FirstUrl(rows, IsProfileImage),
              Seqs.Map(Seqs.Filter(rows, IsGalleryRow), Url), FirstUrl(rows, IsVideo))
  }

  /** `getEventById(id)`. */
  function GetEvent(db: Db, id: Id): (r: Result<EventView>)
    ensures r.Err? <==> id !in db.events
    ensures r.Ok? ==> r.value.id == id
  {
    if id !in db.events then Err(Raised(EventNotFound)) else Ok(View(db, id))
  }

  /** `getAllEvents(page, size)`: `findAll` in identity order, then the page. */
  function GetAllEvents(db: Db, page: Int32, size: Int32): (r: Result<Paged<(Id, Event)>>)
    ensures r.Err? ==> r.failure == Crashed
    ensures r.Ok? ==>
      forall i :: 0 <= i < |r.value.content| ==>
        r.value.content[i].0 in db.events && db.events[r.value.content[i].0] == r.value.content[i].1
  {
    Paginate(Seqs.Listing(db.events, db.nextEvent), page, size)
  }

  // ---------------------------------------------------------------------------
  // createEventWithMedia

  /** A part that is present and not empty. */
  predicate Given(p: Option<Part>)
  {
    p.Some? && !IsEmptyFile(p.value.file)
  }

  /** How many entries of `images` the loop visits. */
  function Examined(images: seq<Option<Part>>): nat
  {
    Min(|images|, IMAGES_EXAMINED)
  }

  /** The loop over `images` from entry `i` on: a missing or empty entry is skipped,
      any other is uploaded as a non-profile image, and the first failure ends the
      call with the uploads so far already saved. */
  function Gallery(db: Db, e: Id, images: seq<Option<Part>>, i: nat, now: Time): (o: Outcome<()>)
    decreases Examined(images) - i
    ensures o.db.nextMedia >= db.nextMedia
    ensures o.result.Err? ==> o.result.failure == Raised(TooManyImages) || o.result.failure == Crashed
  {
    if i >= Examined(images) then Outcome(db, Ok(()))
    else if !Given(images[i]) then Gallery(db, e, images, i + 1, now)
    else
      var o := UploadImage(db, e, images[i].value, false, true, now);
      if o.result.Err? then Outcome(o.db, Err(o.result.failure))
      else Gallery(o.db, e, images, i + 1, now)
  }

  /** The uploads of `createEventWithMedia` for the new event `e`: its profile image,
      its images, its video, each saved on its own, the first failure ending the call.
      Only the media table changes. */
  function AttachMedia(db: Db, e: Id, profile: Option<Part>, images: seq<Option<Part>>,
                       video: Option<Part>, destroyed: bool, now: Time): (o: Outcome<()>)
    ensures o.db.events == db.events && o.db.users == db.users && o.db.tickets == db.tickets
    ensures o.db.checkIns == db.checkIns && o.db.nextEvent == db.nextEvent
  {
    var withProfile := if Given(profile) then UploadImage(db, e, profile.value, true, destroyed, now)
                       else Outcome(db, Ok(0));
    if withProfile.result.Err? then Outcome(withProfile.db, Err(withProfile.result.failure))
    else
      var withImages := Gallery(withProfile.db, e, images, 0, now);
      GalleryKeepsEvents(withProfile.db, e, images, 0, now);
      if withImages.result.Err? then withImages
      else
        var withVideo := if Given(video) then UploadVideo(withImages.db, e, video.value, now)
                         else Outcome(withImages.db, Ok(0));
        if withVideo.result.Err? then Outcome(withVideo.db, Err(withVideo.result.failure))
        else Outcome(withVideo.db, Ok(()))
  }

  /** `createEventWithMedia(event, profileImage, images, video)`: the event, then its
      media, then the view of the saved event. The method runs in no transaction:
      when an upload fails, the event and the media saved before it stay. */
  function CreateEventWithMedia(db: Db, d: EventDraft, profile: Option<Part>, images: seq<Option<Part>>,
                                video: Option<Part>, destroyed: bool, now: Time): (o: Outcome<EventView>)
    ensures CreateEvent(db, d, now).result.Err? ==> o.db == db && o.result.Err?
    ensures o.result.Ok? ==> o.result.value.id == db.nextEvent && db.nextEvent in o.db.events
  {
    var created := CreateEvent(db, d, now);
    if created.result.Err? then Fail(db, created.result.failure)
    else
      var e := created.result.value;
      var attached := AttachMedia(created.db, e, profile, images, video, destroyed, now);
      if attached.result.Err? then Outcome(attached.db, Err(attached.result.failure))
      else Outcome(attached.db, Ok(View(attached.db, e)))
  }

  /** The image loop touches nothing but the media table. */
  lemma {:induction false} GalleryKeepsEvents(db: Db, e: Id, images: seq<Option<Part>>, i: nat, now: Time)
    decreases Examined(images) - i
    ensures var o := Gallery(db, e, images, i, now);
      o.db.events == db.events && o.db.users == db.users && o.db.tickets == db.tickets
      && o.db.checkIns == db.checkIns && o.db.nextEvent == db.nextEvent
  {
    if i < Examined(images) {
      if !Given(images[i]) {
        GalleryKeepsEvents(db, e, images, i + 1, now);
      } else {
        var o := UploadImage(db, e, images[i].value, false, true, now);
        if o.result.Ok? {
          GalleryKeepsEvents(o.db, e, images, i + 1, now);
        }
      }
    }
  }

  // ---------------------------------------------------------------------------
  // Creating

  /** An unknown organizer is NOT_FOUND, a body without one crashes, and a failed
      creation saves nothing. */
  lemma CreateEventRefusals(db: Db, d: EventDraft, now: Time)
    ensures var o := CreateEvent(db, d, now);
      (o.result == Err(Raised(OrganizerNotFound)) <==> d.organizer.Some? && d.organizer.value !in db.users)
      && (o.result.Ok? <==> d.organizer.Some? && d.organizer.value in db.users && !Rejected(d))
      && (o.result.Err? ==> o.db == db)
    ensures var o := CreateEvent(db, d, now);
      (d.title.Some? && !FitsColumn(d.title.value)) || (d.location.Some? && !FitsColumn(d.location.value))
      ==> o.result.Err?
  {
  }

  /** A new event holds all its seats, whatever `availableSeats` the body carried, null
      or not; its other fields are the body's, its organizer the one looked up, and
      it takes a fresh identity. */
  lemma CreateEventSeats(db: Db, d: EventDraft, now: Time)
    requires Counters(db)
    ensures var o := CreateEvent(db, d, now);
      o.result.Ok? ==>
        var id := o.result.value;
        var ev := o.db.events[id];
        && id == db.nextEvent && id !in db.events && o.db.events == db.events[id := ev]
        && ev.availableSeats == ev.totalSeats == d.totalSeats.value
        && ev.title == d.title.value && ev.description == d.description && ev.location == d.location.value
        && ev.eventDate == d.eventDate.value && ev.organizerId == d.organizer.value && ev.createdAt == now
        && o.db.tickets == db.tickets && o.db.users == db.users && o.db.media == db.media
  {
  }

  /** The seat ledgers hold for a new event: it has no tickets yet. A negative
      `totalSeats` is accepted as it is, so the range rule holds afterwards exactly
      when the body's `totalSeats` is not negative. */
  lemma CreateEventBalances(db: Db, d: EventDraft, now: Time)
    requires Counters(db) && Holders(db.tickets, db.users, db.events) && Admitted(db.checkIns, db.tickets)
    ensures var o := CreateEvent(db, d, now);
      Conserved(db.events, db.tickets) ==> Conserved(o.db.events, o.db.tickets)
    ensures var o := CreateEvent(db, d, now);
      Occupied(db.events, db.tickets, db.checkIns) ==> Occupied(o.db.events, o.db.tickets, o.db.checkIns)
    ensures var o := CreateEvent(db, d, now);
      o.result.Ok? && SeatsInRange(db.events) ==> (SeatsInRange(o.db.events) <==> d.totalSeats.value >= 0)
  {
    var o := CreateEvent(db, d, now);
    if o.result.Ok? {
      var id := db.nextEvent;
      var ev := o.db.events[id];
      NoTicketsYet(db, id);
      assert o.db.tickets == db.tickets && o.db.checkIns == db.checkIns;
      assert o.db.events == db.events[id := ev];
      assert ev.availableSeats == ev.totalSeats == d.totalSeats.value;
      NewEventLedgers(db.events, db.tickets, db.checkIns, id, ev);
    }
  }

  /** An identity not issued yet has no tickets and no admissions. */
  lemma NoTicketsYet(db: Db, id: Id)
    requires Counters(db) && Holders(db.tickets, db.users, db.events) && Admitted(db.checkIns, db.tickets)
    requires id >= db.nextEvent
    ensures Count(db.tickets, id, LIVE) == 0 && Count(db.tickets, id, {Booked}) == 0
    ensures |Admissions(db.checkIns, db.tickets, id)| == 0
  {
    assert TicketsWith(db.tickets, id, LIVE) == {};
    assert TicketsWith(db.tickets, id, {Booked}) == {};
    assert Admissions(db.checkIns, db.tickets, id) == {};
  }

  lemma CreateEventKeepsValid(db: Db, d: EventDraft, now: Time)
    requires Valid(db)
    ensures Valid(CreateEvent(db, d, now).db)
  {
  }

  /** A new event starts without media, so long as media rows only name issued events. */
  lemma CreateEventNoMedia(db: Db, d: EventDraft, now: Time)
    requires MediaIssued(db.media, db.nextEvent)
    ensures var o := CreateEvent(db, d, now);
      o.result.Ok? ==> ImagesOf(o.db.media, o.result.value) == {} && ProfilesOf(o.db.media, o.result.value) == {}
                       && GalleryOf(o.db.media, o.result.value) == {}
                       && MediaIssued(o.db.media, o.db.nextEvent)
  {
  }

  // ---------------------------------------------------------------------------
  // Updating

  /** The refusals, in order; a refused update changes nothing. */
  lemma UpdateEventRefusals(db: Db, id: Id, d: EventDraft)
    ensures var o := UpdateEvent(db, id, d);
      (o.result == Err(Raised(EventNotFound)) <==> id !in db.events)
      && (o.result == Err(Raised(OrganizerNotFound)) <==> id in db.events && d.organizer.Some? && d.organizer.value !in db.users)
      && (o.result.Err? ==> o.db == db)
    ensures var o := UpdateEvent(db, id, d);
      o.result.Ok? <==>
        id in db.events && (d.organizer.None? || d.organizer.value in db.users)
        && !Rejected(d) && d.availableSeats.Some?
    ensures var o := UpdateEvent(db, id, d);
      (d.title.Some? && !FitsColumn(d.title.value)) || (d.location.Some? && !FitsColumn(d.location.value))
      ==> o.result.Err?
  {
  }

  /** The body's fields replace the event's verbatim; the organizer is kept unless the
      body names one; nothing else changes. */
  lemma UpdateEventCopies(db: Db, id: Id, d: EventDraft)
    ensures var o := UpdateEvent(db, id, d);
      o.result.Ok? ==>
        var ev := o.db.events[id];
        && id in db.events && o.db.events == db.events[id := ev] && o.db == db.(events := o.db.events)
        && Some(ev.title) == d.title && ev.description == d.description && Some(ev.location) == d.location
        && Some(ev.eventDate) == d.eventDate && Some(ev.totalSeats) == d.totalSeats
        && Some(ev.availableSeats) == d.availableSeats && ev.createdAt == db.events[id].createdAt
        && ev.organizerId == (if d.organizer.Some? then d.organizer.value else db.events[id].organizerId)
  {
  }

  /** The live-ticket ledger holds after an update exactly when the body's seat counts
      agree with the tickets already sold: nothing checks that they do. */
  lemma UpdateEventLedger(db: Db, id: Id, d: EventDraft)
    requires Conserved(db.events, db.tickets)
    ensures var o := UpdateEvent(db, id, d);
      o.result.Ok? ==>
        (Conserved(o.db.events, o.db.tickets)
         <==> d.availableSeats.value + Count(db.tickets, id, LIVE) == d.totalSeats.value)
  {
    var o := UpdateEvent(db, id, d);
    if o.result.Ok? && !Conserved(o.db.events, o.db.tickets) {
      var e :| e in o.db.events && o.db.events[e].availableSeats + Count(o.db.tickets, e, LIVE) != o.db.events[e].totalSeats;
      assert e == id;
    }
  }

  /** For instance, resetting an event with live tickets to "all seats free" leaves it
      overbookable by as many seats as are already sold. */
  lemma UpdateResetBreaksLedger(db: Db, id: Id, d: EventDraft)
    requires Conserved(db.events, db.tickets) && id in db.events && Count(db.tickets, id, LIVE) > 0
    requires d.organizer.None? && !Rejected(d) && d.availableSeats == d.totalSeats
    ensures var o := UpdateEvent(db, id, d);
      o.result.Ok? && !Conserved(o.db.events, o.db.tickets)
  {
    UpdateEventLedger(db, id, d);
  }

  /** The range rule holds after an update exactly when the body's own seat counts
      are in range: nothing compares `availableSeats` with `totalSeats` or with 0. */
  lemma UpdateEventRange(db: Db, id: Id, d: EventDraft)
    requires SeatsInRange(db.events)
    ensures var o := UpdateEvent(db, id, d);
      o.result.Ok? ==>
        (SeatsInRange(o.db.events) <==> 0 <= d.availableSeats.value <= d.totalSeats.value)
  {
    var o := UpdateEvent(db, id, d);
    if o.result.Ok? {
      assert o.db.events[id].availableSeats == d.availableSeats.value;
      assert o.db.events[id].totalSeats == d.totalSeats.value;
      if !SeatsInRange(o.db.events) {
        var e :| e in o.db.events && !(0 <= o.db.events[e].availableSeats <= o.db.events[e].totalSeats);
        assert e == id;
      }
    }
  }

  lemma UpdateEventKeepsValid(db: Db, id: Id, d: EventDraft)
    requires Valid(db)
    ensures Valid(UpdateEvent(db, id, d).db)
  {
    var o := UpdateEvent(db, id, d);
    if o.result.Ok? {
      EventRewriteKeepsValid(db, id, o.db.events[id]);
    }
  }

  // ---------------------------------------------------------------------------
  // Reading and deleting

  /** An unknown id is NOT_FOUND; a known one is viewed with the event's own fields. */
  lemma GetEventOutcomes(db: Db, id: Id)
    ensures GetEvent(db, id).Err? <==> id !in db.events
    ensures GetEvent(db, id).Err? ==> GetEvent(db, id) == Err(Raised(EventNotFound))
    ensures GetEvent(db, id).Ok? ==>
      var v := GetEvent(db, id).value;
      var ev := db.events[id];
      && v.id == id && v.title == ev.title && v.description == ev.description && v.location == ev.location
      && v.eventDate == ev.eventDate && v.totalSeats == ev.totalSeats && v.availableSeats == ev.availableSeats
      && v.organizerId == ev.organizerId
  {
  }

  /** The view has a profile url exactly when the event has a profile image, and it
      is the url of one (under the media rules there is at most one). */
  lemma ViewProfile(db: Db, id: Id)
    requires id in db.events && Counters(db) && MediaRules(db.media)
    ensures var v := View(db, id);
      (v.profileImageUrl.Some? <==> ProfilesOf(db.media, id) != {})
      && (v.profileImageUrl.Some? ==> exists m :: m in ProfilesOf(db.media, id) && db.media[m].url == v.profileImageUrl.value)
  {
    FirstProfile(MediaRows(db, id), db.media, id);
  }

  lemma FirstProfile(all: seq<(Id, EventMedia)>, media: map<Id, EventMedia>, id: Id)
    requires forall i :: 0 <= i < |all| ==> all[i].0 in media && media[all[i].0] == all[i].1 && all[i].1.eventId == id
    requires forall m :: m in media && media[m].eventId == id ==> (m, media[m]) in all
    requires forall m :: m in media && media[m].profile ==> media[m].mediaType == Image
    ensures var r := FirstUrl(all, IsProfileImage);
      (r.Some? <==> ProfilesOf(media, id) != {})
      && (r.Some? ==> exists m :: m in ProfilesOf(media, id) && media[m].url == r.value)
  {
    if ProfilesOf(media, id) != {} {
      var m :| m in ProfilesOf(media, id);
      assert (m, media[m]) in all;
      var i :| 0 <= i < |all| && all[i] == (m, media[m]);
      assert IsProfileImage(all[i].1);
    }
    match FindFirst(all, IsProfileImage)
    case None =>
    case Some(i) =>
      assert IsProfileImage(all[i].1) && media[all[i].0] == all[i].1;
      assert all[i].0 in ProfilesOf(media, id);
  }

  /** The event's VIDEO rows. */
  function VideosOf(media: map<Id, EventMedia>, e: Id): set<Id>
  {
    set m | m in media && media[m].eventId == e && IsVideo(media[m])
  }

  /** The view has a video url exactly when the event has a VIDEO row, and it is the
      url of the one with the lowest identity (nothing caps the number of videos). */
  lemma ViewVideo(db: Db, id: Id)
    requires id in db.events && Counters(db)
    ensures var v := View(db, id);
      (v.videoUrl.Some? <==> VideosOf(db.media, id) != {})
      && (v.videoUrl.Some? ==>
            exists m :: m in VideosOf(db.media, id) && db.media[m].url == v.videoUrl.value
                        && forall m' :: m' in VideosOf(db.media, id) ==> m <= m')
  {
    FirstVideo(MediaRows(db, id), db.media, id);
  }

  lemma FirstVideo(all: seq<(Id, EventMedia)>, media: map<Id, EventMedia>, id: Id)
    requires forall i :: 0 <= i < |all| ==> all[i].0 in media && media[all[i].0] == all[i].1 && all[i].1.eventId == id
    requires forall i, j :: 0 <= i < j < |all| ==> all[i].0 < all[j].0
    requires forall m :: m in media && media[m].eventId == id ==> (m, media[m]) in all
    ensures var r := FirstUrl(all, IsVideo);
      (r.Some? <==> VideosOf(media, id) != {})
      && (r.Some? ==>
            exists m :: m in VideosOf(media, id) && media[m].url == r.value
                        && forall m' :: m' in VideosOf(media, id) ==> m <= m')
  {
    if VideosOf(media, id) != {} {
      var m :| m in VideosOf(media, id);
      assert (m, media[m]) in all;
      var i :| 0 <= i < |all| && all[i] == (m, media[m]);
      assert IsVideo(all[i].1);
    }
    match FindFirst(all, IsVideo)
    case None =>
    case Some(i) =>
      var m := all[i].0;
      assert m in VideosOf(media, id);
      forall m' | m' in VideosOf(media, id)
        ensures m <= m'
      {
        assert (m', media[m']) in all;
        var j :| 0 <= j < |all| && all[j] == (m', media[m']);
        assert IsVideo(all[j].1);
        assert !(j < i);
      }
  }

  /** The event's non-profile image rows, in listing order. */
  function GalleryRows(db: Db, id: Id): seq<(Id, EventMedia)>
  {
    Seqs.Filter(MediaRows(db, id), IsGalleryRow)
  }

  /** The view's image urls are the urls of the gallery rows. */
  lemma ViewImageUrls(db: Db, id: Id)
    requires id in db.events
    ensures var rows := GalleryRows(db, id);
      |View(db, id).imageUrls| == |rows| && forall i :: 0 <= i < |rows| ==> View(db, id).imageUrls[i] == rows[i].1.url
  {
  }

  /** The gallery rows are the event's non-profile images, each once, in identity order. */
  lemma GalleryRowsExact(db: Db, id: Id)
    requires Counters(db)
    ensures var rows := GalleryRows(db, id);
      && (forall i :: 0 <= i < |rows| ==> rows[i].0 in GalleryOf(db.media, id) && rows[i].1 == db.media[rows[i].0])
      && (forall m :: m in GalleryOf(db.media, id) ==> (m, db.media[m]) in rows)
      && (forall i, j :: 0 <= i < j < |rows| ==> rows[i].0 < rows[j].0)
  {
    FilteredRows(MediaRows(db, id), db.media, id);
  }

  lemma FilteredRows(all: seq<(Id, EventMedia)>, media: map<Id, EventMedia>, id: Id)
    requires forall i :: 0 <= i < |all| ==> all[i].0 in media && media[all[i].0] == all[i].1 && all[i].1.eventId == id
    requires forall i, j :: 0 <= i < j < |all| ==> all[i].0 < all[j].0
    requires forall m :: m in media && media[m].eventId == id ==> (m, media[m]) in all
    ensures var rows := Seqs.Filter(all, IsGalleryRow);
      && (forall i :: 0 <= i < |rows| ==> rows[i].0 in GalleryOf(media, id) && rows[i].1 == media[rows[i].0])
      && (forall m :: m in GalleryOf(media, id) ==> (m, media[m]) in rows)
      && (forall i, j :: 0 <= i < j < |rows| ==> rows[i].0 < rows[j].0)
  {
    var rows := Seqs.Filter(all, IsGalleryRow);
    Seqs.FilterIsSubsequence(all, IsGalleryRow);
    SubsequenceSorted(rows, all);
    forall m | m in GalleryOf(media, id)
      ensures (m, media[m]) in rows
    {
      assert (m, media[m]) in all;
    }
  }

  /** Under the media rules the view lists at most five image urls. */
  lemma ViewImagesCapped(db: Db, id: Id)
    requires id in db.events && Counters(db) && MediaRules(db.media)
    ensures |View(db, id).imageUrls| <= 5
  {
    ViewImageUrls(db, id);
    GalleryRowsExact(db, id);
    SortedCard(GalleryRows(db, id), GalleryOf(db.media, id));
  }

  /** A subsequence of a row list in increasing identity order is in increasing order. */
  lemma {:induction false} SubsequenceSorted(a: seq<(Id, EventMedia)>, b: seq<(Id, EventMedia)>)
    requires Seqs.IsSubsequence(a, b)
    requires forall i, j :: 0 <= i < j < |b| ==> b[i].0 < b[j].0
    ensures forall i, j :: 0 <= i < j < |a| ==> a[i].0 < a[j].0
    ensures forall i :: 0 <= i < |a| ==> a[i] in b
    decreases |b|
  {
    if a != [] && b != [] {
      if a[0] == b[0] {
        SubsequenceSorted(a[1..], b[1..]);
        forall j | 0 < j < |a|
          ensures a[0].0 < a[j].0
        {
          assert a[j] == a[1..][j - 1];
          var k :| 0 <= k < |b[1..]| && b[1..][k] == a[j];
          assert b[k + 1] == a[j];
        }
        forall i | 0 <= i < |a|
          ensures a[i] in b
        {
          if i > 0 {
            assert a[i] == a[1..][i - 1];
          }
        }
      } else {
        SubsequenceSorted(a, b[1..]);
        forall i | 0 <= i < |a|
          ensures a[i] in b
        {
          var k :| 0 <= k < |b[1..]| && b[1..][k] == a[i];
          assert b[k + 1] == a[i];
        }
      }
    }
  }

  /** Rows in strictly increasing identity order, each naming a member of `s`, are no
      more than `s` has members. */
  lemma {:induction false} SortedCard(rows: seq<(Id, EventMedia)>, s: set<Id>)
    requires forall i, j :: 0 <= i < j < |rows| ==> rows[i].0 < rows[j].0
    requires forall i :: 0 <= i < |rows| ==> rows[i].0 in s
    ensures |rows| <= |s|
  {
    if rows != [] {
      var rest := rows[1..];
      forall i | 0 <= i < |rest|
        ensures rest[i].0 in s - {rows[0].0}
      {
        assert rest[i] == rows[i + 1];
      }
      SortedCard(rest, s - {rows[0].0});
    }
  }

  /** `getAllEvents`: without overflow, the page is the slice
      `[min(page*size, n), min(page*size+size, n))` of the events in identity order,
      `totalElements` is the number of events and `totalPages` the least number of
      pages holding them all. */
  lemma AllEventsPage(db: Db, page: Int32, size: Int32)
    requires Counters(db) && |db.events| <= INT_MAX
    requires 0 <= page && 0 < size && page * size + size <= INT_MAX
    ensures var rows := Seqs.Listing(db.events, db.nextEvent);
      var r := GetAllEvents(db, page, size);
      && r.Ok? && r.value.totalElements == |db.events| == |rows|
      && r.value.content == rows[Min(Offset(page, size), |rows|)..Min(Offset(page, size) + size, |rows|)]
      && |r.value.content| <= size
      && (Offset(page, size) >= |rows| ==> r.value.content == [])
      && r.value.totalPages * size >= |rows| && (r.value.totalPages == 0 || (r.value.totalPages - 1) * size < |rows|)
  {
    Seqs.ListingAll(db.events, db.nextEvent);
    PaginateInRange(Seqs.Listing(db.events, db.nextEvent), page, size);
  }

  /** Deleting: an unknown id is NOT_FOUND, an event with tickets cannot be deleted,
      and otherwise exactly that event goes while its media rows stay. */
  lemma DeleteEventOutcomes(db: Db, id: Id)
    ensures var o := DeleteEvent(db, id);
      (o.result == Err(Raised(EventNotFound)) <==> id !in db.events)
      && (o.result == Err(Crashed) <==> id in db.events && HasTickets(db.tickets, id))
      && (o.result.Err? ==> o.db == db)
      && (o.result.Ok? ==> o.db.events.Keys == db.events.Keys - {id}
                           && (forall e :: e in o.db.events ==> o.db.events[e] == db.events[e])
                           && o.db.tickets == db.tickets && o.db.media == db.media)
  {
  }

  /** Deleting keeps both seat ledgers: the other events are untouched. */
  lemma DeleteEventBalances(db: Db, id: Id)
    ensures Conserved(db.events, db.tickets) ==> Conserved(DeleteEvent(db, id).db.events, db.tickets)
    ensures Occupied(db.events, db.tickets, db.checkIns) ==>
              Occupied(DeleteEvent(db, id).db.events, db.tickets, db.checkIns)
  {
  }

  /** Deleting keeps every schema rule: the foreign key check is what keeps tickets
      from pointing at a deleted event. */
  lemma DeleteEventKeepsValid(db: Db, id: Id)
    requires Valid(db)
    ensures Valid(DeleteEvent(db, id).db)
  {
    var o := DeleteEvent(db, id);
    if o.result.Ok? {
      RemoveEventHolders(db.tickets, db.users, db.events, id);
      RemoveEventKeeps(db, id);
    }
  }

  lemma RemoveEventHolders(tickets: map<Id, Ticket>, users: map<Id, User>, events: map<Id, Event>, id: Id)
    requires Holders(tickets, users, events) && !HasTickets(tickets, id)
    ensures Holders(tickets, users, events - {id})
  {
    forall k | k in tickets
      ensures tickets[k].eventId in events - {id}
    {
      assert tickets[k].eventId != id;
    }
  }

  lemma RemoveEventKeeps(db: Db, id: Id)
    requires Valid(db) && Holders(db.tickets, db.users, db.events - {id})
    ensures Valid(db.(events := db.events - {id}))
  {
  }

  // ---------------------------------------------------------------------------
  // createEventWithMedia

  /** Only the first five entries of `images` matter. */
  lemma {:induction false} GalleryFirstFive(db: Db, e: Id, images: seq<Option<Part>>, i: nat, now: Time)
    decreases Examined(images) - i
    ensures Gallery(db, e, images, i, now) == Gallery(db, e, images[..Examined(images)], i, now)
  {
    var cut := images[..Examined(images)];
    assert Examined(cut) == Examined(images);
    if i < Examined(images) {
      assert cut[i] == images[i];
      if !Given(images[i]) {
        GalleryFirstFive(db, e, images, i + 1, now);
      } else {
        var o := UploadImage(db, e, images[i].value, false, true, now);
        if o.result.Ok? {
          GalleryFirstFive(o.db, e, images, i + 1, now);
        }
      }
    }
  }

  /** Missing and empty entries are skipped: the loop saves nothing for them. */
  lemma {:induction false} GallerySkipsMissing(db: Db, e: Id, images: seq<Option<Part>>, now: Time)
    requires forall i :: 0 <= i < |images| ==> !Given(images[i])
    ensures Gallery(db, e, images, 0, now) == Outcome(db, Ok(()))
  {
    GallerySkipsFrom(db, e, images, 0, now);
  }

  lemma {:induction false} GallerySkipsFrom(db: Db, e: Id, images: seq<Option<Part>>, i: nat, now: Time)
    requires forall j :: 0 <= j < |images| ==> !Given(images[j])
    decreases Examined(images) - i
    ensures Gallery(db, e, images, i, now) == Outcome(db, Ok(()))
  {
    if i < Examined(images) {
      GallerySkipsFrom(db, e, images, i + 1, now);
    }
  }

  /** The call is not atomic: once the event is created, a later failure still
      leaves the event (and the media saved so far) in place. */
  lemma WithMediaNotAtomic(db: Db, d: EventDraft, profile: Option<Part>, images: seq<Option<Part>>,
                           video: Option<Part>, destroyed: bool, now: Time)
    requires Counters(db)
    ensures var o := CreateEventWithMedia(db, d, profile, images, video, destroyed, now);
      CreateEvent(db, d, now).result.Ok? ==> db.nextEvent in o.db.events && db.nextEvent !in db.events
    ensures var o := CreateEventWithMedia(db, d, profile, images, video, destroyed, now);
      CreateEvent(db, d, now).result.Err? ==> o == Fail(db, CreateEvent(db, d, now).result.failure)
  {
  }

  /** A profile image and five other images: the profile counts towards the cap, so
      the fifth image is refused, and the call answers 400 with the event, its
      profile and four images already saved. */
  lemma WithMediaFifthImageRefused(db: Db, d: EventDraft, profile: Part, images: seq<Option<Part>>,
                                   video: Option<Part>, now: Time)
    requires Counters(db) && MediaIssued(db.media, db.nextEvent)
    requires CreateEvent(db, d, now).result.Ok?
    requires !IsEmptyFile(profile.file) && profile.stored.Some?
    requires |images| == 5 && forall i :: 0 <= i < 5 ==> Given(images[i]) && images[i].value.stored.Some?
    ensures var o := CreateEventWithMedia(db, d, Some(profile), images, video, true, now);
      && o.result == Err(Raised(TooManyImages))
      && db.nextEvent in o.db.events
      && |ProfilesOf(o.db.media, db.nextEvent)| == 1 && |GalleryOf(o.db.media, db.nextEvent)| == 4
  {
    var created := CreateEvent(db, d, now);
    var e := db.nextEvent;
    CreateEventNoMedia(db, d, now);
    var p := UploadImage(created.db, e, profile, true, true, now);
    assert created.db.nextMedia !in created.db.media;
    ProfilesInsert(created.db.media, created.db.nextMedia, p.db.media[created.db.nextMedia], e);
    GalleryInsert(created.db.media, created.db.nextMedia, p.db.media[created.db.nextMedia], e);
    assert p.db.media == created.db.media[created.db.nextMedia := p.db.media[created.db.nextMedia]];
    assert ProfilesOf(p.db.media, e) == {created.db.nextMedia};
    assert |GalleryOf(p.db.media, e)| == 0;
    GalleryFillsUp(p.db, e, images, 0, now);
    GalleryKeepsEvents(p.db, e, images, 0, now);
  }

  /** From entry `i` on, with one profile and `i` other images saved for `e`, each
      entry is saved until the fifth. */
  lemma {:induction false} GalleryFillsUp(db: Db, e: Id, images: seq<Option<Part>>, i: nat, now: Time)
    requires Counters(db) && i <= 4
    requires |images| == 5 && forall j :: 0 <= j < 5 ==> Given(images[j]) && images[j].value.stored.Some?
    requires |ProfilesOf(db.media, e)| == 1 && |GalleryOf(db.media, e)| == i
    requires forall m :: m in ProfilesOf(db.media, e) ==> db.media[m].mediaType == Image
    decreases 5 - i
    ensures var o := Gallery(db, e, images, i, now);
      && o.result == Err(Raised(TooManyImages))
      && |ProfilesOf(o.db.media, e)| == 1 && |GalleryOf(o.db.media, e)| == 4
  {
    var part := images[i].value;
    ImagesCount(db.media, e);
    if i < 4 {
      GalleryStep(db, e, part, now);
      var o := UploadImage(db, e, part, false, true, now);
      assert Gallery(db, e, images, i, now) == Gallery(o.db, e, images, i + 1, now);
      GalleryFillsUp(o.db, e, images, i + 1, now);
    } else {
      assert Gallery(db, e, images, i, now) == Outcome(db, Err(Raised(TooManyImages)));
    }
  }

  /** One non-profile image below the cap is saved: one more in the gallery, the
      profile unchanged. */
  lemma GalleryStep(db: Db, e: Id, part: Part, now: Time)
    requires Counters(db) && |ImagesOf(db.media, e)| < IMAGE_CAP && part.stored.Some?
    requires forall m :: m in ProfilesOf(db.media, e) ==> db.media[m].mediaType == Image
    ensures var o := UploadImage(db, e, part, false, true, now);
      && o.result.Ok? && Counters(o.db)
      && ProfilesOf(o.db.media, e) == ProfilesOf(db.media, e)
      && |GalleryOf(o.db.media, e)| == |GalleryOf(db.media, e)| + 1
      && forall m :: m in ProfilesOf(o.db.media, e) ==> o.db.media[m].mediaType == Image
  {
    var row := EventMedia(e, part.stored.value.url, part.stored.value.publicId, Image, false, now);
    assert UploadImage(db, e, part, false, true, now) == Save(db, row);
    assert db.nextMedia !in db.media;
    ProfilesInsert(db.media, db.nextMedia, row, e);
    GalleryInsert(db.media, db.nextMedia, row, e);
  }

  /** When the event's profiles are images, its images are its gallery and its profiles. */
  lemma ImagesCount(media: map<Id, EventMedia>, e: Id)
    requires forall m :: m in ProfilesOf(media, e) ==> media[m].mediaType == Image
    ensures |ImagesOf(media, e)| == |GalleryOf(media, e)| + |ProfilesOf(media, e)|
  {
    assert ImagesOf(media, e) == GalleryOf(media, e) + ProfilesOf(media, e);
    assert GalleryOf(media, e) !! ProfilesOf(media, e);
  }
}
