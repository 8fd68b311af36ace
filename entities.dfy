/** The persisted entities (one datatype per table row) and the request bodies
    from which new rows are built. */
module Entities {
  import opened Base

  datatype TicketStatus = Booked | CheckedIn | Cancelled

  datatype MediaType = Image | Video

  /** The role assigned to every user created through the service (`Role.USER`). */
  const USER_ROLE: string := "USER"

  /** The length of a `String` column that declares none: 255 characters. */
  const COLUMN_MAX: nat := 255

  /** Whether `s` fits a `String` column of the default length. */
  predicate FitsColumn(s: string) { |s| <= COLUMN_MAX }

  /** A row of `users`; `role` is the name of the `Role` constant. */
  datatype User = User(name: string, email: string, password: string, role: string, createdAt: Time)

  /** A row of `events` (the ticket price is not modelled). */
  datatype Event = Event(
    title: string,
    description: Option<string>,
    location: string,
    eventDate: Time,
    totalSeats: Int32,
    availableSeats: Int32,
    organizerId: Id,
    createdAt: Time)

  /** A row of `tickets`. */
  datatype Ticket = Ticket(code: string, userId: Id, eventId: Id, status: TicketStatus, bookedAt: Time)

  /** A row of `CheckIn`. */
  datatype CheckIn = CheckIn(ticketId: Id, checkInTime: Time)

  /** A row of `event_media`. */
  datatype EventMedia = EventMedia(
    eventId: Id,
    url: string,
    publicId: string,
    mediaType: MediaType,
    profile: bool,
    createdAt: Time)

  /** An `Event` object as it arrives in a request body: any field may be null.
      `organizer` is None when the body carries no organizer object. The body's own
      `id` is not modelled: every draft is taken to carry none. */
  datatype EventDraft = EventDraft(
    title: Option<string>,
    description: Option<string>,
    location: Option<string>,
    eventDate: Option<Time>,
    totalSeats: Option<Int32>,
    availableSeats: Option<Int32>,
    organizer: Option<Id>)

  /** A `UserCreateDTO`: name, email and password may be null. */
  datatype UserDraft = UserDraft(name: Option<string>, email: Option<string>, password: Option<string>)

  /** What the image store answers for an uploaded file (`secure_url`, `public_id`). */
  datatype Uploaded = Uploaded(url: string, publicId: string)

  /** An uploaded multipart file, by its size in bytes (`isEmpty()` means size 0). */
  datatype File = File(size: nat)

  predicate IsEmptyFile(f: File) { f.size == 0 }

  /** `Event.onCreate`: on first persist `createdAt` becomes `now` and
      `availableSeats` is overwritten with `totalSeats`, whatever the caller set. */
  function EventOnCreate(e: Event, now: Time): (r: Event)
    ensures r.availableSeats == r.totalSeats == e.totalSeats && r.createdAt == now
    ensures r.(availableSeats := e.availableSeats, createdAt := e.createdAt) == e
  {
    e.(createdAt := now, availableSeats := e.totalSeats)
  }

  /** `Ticket.onCreate`: on persist the ticket gets a freshly generated code,
      status BOOKED and `bookedAt = now`, whatever it held before. */
  function NewTicket(userId: Id, eventId: Id, code: string, now: Time): (t: Ticket)
    ensures t.status == Booked && t.code == code && t.bookedAt == now
    ensures t.userId == userId && t.eventId == eventId
  {
    Ticket(code, userId, eventId, Booked, now)
  }
}
