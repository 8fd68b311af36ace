# Event management: a verified model of the ticketing services

This project models the service layer of a Spring Boot event-ticketing backend in
Dafny and proves properties of that model.

- Organizers create events with a fixed number of seats.
- Users book and cancel tickets.
- Staff check tickets in at the door, by ticket id or by the JSON text held in the
  ticket's QR code.
- Events carry a profile image, up to five gallery images and videos, all kept in an
  external image store.
- Users can be created, fetched and listed with filters and paging.

How the model is built:

- **Tables.** The database is one value, `Db.Db`. Each table (`users`, `events`,
  `tickets`, `CheckIn`, `event_media`) is a map from identity to row. Each identity
  sequence is a counter that starts at 1.
- **Integrity rules.** `Db.Valid` holds the rules the schema enforces: counters, the
  foreign keys of the `@ManyToOne` columns, the unique `ticketCode`, `email` and
  `CheckIn.ticket_id` columns, and "no check-in for a BOOKED ticket".
- **Media rules.** The media service keeps its own invariant, `Db.MediaRules`: only
  images are profiles, and an event has at most one profile image and five other
  images.
- **Seat ledgers.** `Ledger.Conserved` says free seats plus live (not cancelled)
  tickets equal the capacity. `Ledger.Occupied` says free seats plus BOOKED tickets
  plus admitted holders equal the capacity.
- **Operations.** Each service operation is a pure transition function from a `Db` to
  an `Outcome`: the database afterwards and what the caller receives. A failure is one
  of three kinds:
  - an `AppException` with its reason;
  - any other exception (answered 500 by the global handler), which rolls back the
    call's transaction;
  - the 400 answer that `cancelTicket` builds itself.
- **The `Store` class.** `Services.Store` holds the tables as fields the repositories
  update in place. Each state-changing call is a method on it, with loops where the
  service loops: the ticket loop and `saveAll` of `bookTickets`, the entry loop of
  `parseQRCodeJson`, and the image loop of `createEventWithMedia`. Each method is
  proved to leave exactly the tables its transition function describes and to
  return that function's answer. Keeping `Valid` is proved for every whole service
  call (`BookTickets`, `CancelTicket`, `CheckIn`, `CheckInByQr`, `CreateEvent`,
  `UpdateEvent`, `DeleteEvent`, `CreateEventWithMedia`, `UploadImage`,
  `UploadVideo`, `DeleteMedia`, `CreateUser`) and for the loops and upload steps
  inside `createEventWithMedia`. The inner steps `DoCheckIn`, `Commit`, `SaveAll`
  and `Respond` state their new tables and answer only.
- **Outside inputs.** The clock (`now`, in whole seconds) is a parameter. So is the
  UUID generator (`uuid`: the code drawn for the ticket saved under a given
  identity). For the image store, the model is told what it answers: an upload
  result or a failure, and whether a deletion works.

Where the system's design and its code differ, the model follows the code:

- Cancelling adds one seat back with plain `Integer` arithmetic. Nothing clamps it
  to `totalSeats`.
- A CHECKED_IN ticket can be cancelled, and then its seat is handed back
  (`Tickets.CancelCheckedInOverbooks`).
- `updateEvent` copies both seat counts from the request body unchecked
  (`Events.UpdateResetBreaksLedger`).
- `createEventWithMedia` runs without a transaction
  (`Events.WithMediaNotAtomic`).
- `getUserById` answers with the stored user, password included.

## Model

Source paths are relative to the repository root.

| member | source | states |
|---|---|---|
| Base.Wrap32 | event-management/event-management/src/main/java/com/sup/event_management/service/TicketService.java:117 | Java `int` arithmetic: inside the 32-bit range the value is unchanged; otherwise it is the value congruent modulo 2^32 |
| Base.Wrap32Above | event-management/event-management/src/main/java/com/sup/event_management/service/TicketService.java:117 | a seat count one past `Integer.MAX_VALUE` wraps to a negative number |
| Base.HttpStatus | event-management/event-management/src/main/java/com/sup/event_management/exceptions/GlobalExceptionHandler.java:12-38 | the answer is 404 exactly for a RESOURCE_NOT_FOUND `AppException`, and 500 exactly for an exception that is not an `AppException` |
| Entities.EventOnCreate | event-management/event-management/src/main/java/com/sup/event_management/entity/Event.java:43-47 | on first persist, `availableSeats` becomes `totalSeats` whatever it held, `createdAt` becomes now, and every other field is kept |
| Entities.NewTicket | event-management/event-management/src/main/java/com/sup/event_management/entity/Ticket.java:34-39 | a persisted ticket gets the drawn code, status BOOKED and `bookedAt` = now, for the given user and event |
| Db.MediaRows | event-management/event-management/src/main/java/com/sup/event_management/service/EventMediaService.java:101-103 | `findByEventId`: every listed row is a stored row of that event; rows come in strictly increasing identity order; every row of the event is listed |
| Db.ImagesAtMostSix | event-management/event-management/src/main/java/com/sup/event_management/service/EventMediaService.java:28-59 | under the media rules, no event holds more than six images |
| Paging.Paginate | event-management/event-management/src/main/java/com/sup/event_management/service/EventService.java:164-178 | the response echoes `page` and `size`, `totalElements` is the list size, and the content is the `subList` page; the only failure is an exception answered 500 |
| Paging.TotalPages | event-management/event-management/src/main/java/com/sup/event_management/service/EventService.java:177 | a zero page size gives no pages exactly when the list is empty (NaN cast to 0; otherwise infinity cast to `Integer.MAX_VALUE`) |
| Paging.PageOf | event-management/event-management/src/main/java/com/sup/event_management/service/EventService.java:165-170 | without overflow `subList` never throws; a page that comes back is never longer than the list |
| Paging.TotalPagesCeil | event-management/event-management/src/main/java/com/sup/event_management/service/EventService.java:177 | for a positive size, `totalPages` is the least number of pages of that size holding every row |
| Paging.PageIsShortSlice | event-management/event-management/src/main/java/com/sup/event_management/service/EventService.java:165-170 | whatever the `int` arithmetic does, a page that comes back is a run of consecutive rows no longer than `size` |
| Paging.PageInRange | event-management/event-management/src/main/java/com/sup/event_management/service/EventService.java:165-170 | without overflow, the page is exactly rows `[min(page*size, n), min(page*size+size, n))` |
| Paging.PaginateInRange | event-management/event-management/src/main/java/com/sup/event_management/service/EventService.java:164-178 | without overflow the response is the page slice, at most `size` long and empty past the end, with `totalElements` = n and the ceiling page count |
| Paging.PastEndIsEmpty | event-management/event-management/src/main/java/com/sup/event_management/service/EventService.java:165-170 | a page starting at or after the last row is empty and not an error |
| Paging.PageWrapsAround | event-management/event-management/src/main/java/com/sup/event_management/service/EventService.java:165 | `page * size` wraps: page 2^30 of size 4 repeats the first page |
| Paging.NegativePageFails | event-management/event-management/src/main/java/com/sup/event_management/service/EventService.java:167-170 | a negative page with a positive size makes `subList` throw |
| Paging.PagesArePrefix | event-management/event-management/src/main/java/com/sup/event_management/service/EventService.java:165-170 | pages 0 to k-1, joined, are the first k*size rows |
| Paging.AllPagesCoverList | event-management/event-management/src/main/java/com/sup/event_management/service/EventService.java:165-177 | walking all `totalPages` pages visits every row exactly once, in order |
| Text.ParseDecimal | event-management/event-management/src/main/java/com/sup/event_management/service/CheckInService.java:52 | `Long.valueOf` reads a decimal-printed non-negative `long` back as the same number |
| Text.ContainsAt | event-management/event-management/src/main/java/com/sup/event_management/service/UserService.java:73 | `contains` holds exactly when the text occurs at some position |
| QrPayload.ParseQrCodeJson | event-management/event-management/src/main/java/com/sup/event_management/service/CheckInService.java:69-82 | the imperative parser (trim, strip the outer characters, split on ',', loop over the entries) computes the specification `Parse`: None where Java throws, else the filled map (text cut by characters, not UTF-16 units; see "## Left out") |
| QrPayload.Parse | event-management/event-management/src/main/java/com/sup/event_management/service/CheckInService.java:69-82 | a text of fewer than two characters fails: after `trim` there is no first and last character to cut, and `substring` throws |
| QrPayload.Encode | event-management/event-management/src/main/java/com/sup/event_management/service/TicketService.java:134-139 | the payload is one object text, opening with `{` and closing with `}` |
| QrPayload.CollectEntries | event-management/event-management/src/main/java/com/sup/event_management/service/CheckInService.java:73-79 | the entry loop yields the map filled in order, a later key overwriting an earlier one, or None once an entry has no value |
| QrPayload.FillStops | event-management/event-management/src/main/java/com/sup/event_management/service/CheckInService.java:77 | one entry without a ':' (`kv[1]` missing) makes the whole parse fail |
| QrPayload.ReadCredentials | event-management/event-management/src/main/java/com/sup/event_management/service/CheckInService.java:52-53 | credentials exist exactly when `ticketId` is present and parses as a `long`; the code is present exactly when the key is |
| QrPayload.ParsePairs | event-management/event-management/src/main/java/com/sup/event_management/service/CheckInService.java:71-79 | any non-empty list of separator-free pairs, written as an object, parses to those pairs with quotes removed, a later key winning |
| QrPayload.ParseEncode | event-management/event-management/src/main/java/com/sup/event_management/service/TicketService.java:134-139 | round trip: parsing the payload `toDTO` writes gives back all four fields, provided the code has no ',', ':' or '"' |
| QrPayload.QrRoundTrip | event-management/event-management/src/main/java/com/sup/event_management/service/CheckInService.java:50-53 | the check-in path reads a ticket's own payload as exactly that ticket's id and code |
| QrPayload.CodeMayBeOmitted | event-management/event-management/src/main/java/com/sup/event_management/service/CheckInService.java:53 | a payload holding only `ticketId` gives credentials with no code, so the code check is skipped |
| Tickets.AddTickets | event-management/event-management/src/main/java/com/sup/event_management/service/TicketService.java:85-94 | `saveAll` of n new tickets: exactly identities first to first+n-1 are added, each a BOOKED ticket of that user and event with its drawn code; no other row changes |
| Tickets.Receipts | event-management/event-management/src/main/java/com/sup/event_management/service/TicketService.java:97-99 | one response row per saved ticket, in creation order, row i being `toDTO` of ticket first+i |
| Tickets.ReceiptRoundTrip | event-management/event-management/src/main/java/com/sup/event_management/service/TicketService.java:122-139 | a response row's QR text reads back, through the check-in parser, as that row's id and code |
| Tickets.BookFailures | event-management/event-management/src/main/java/com/sup/event_management/service/TicketService.java:45-81 | the four checks run in order (seat count, user, event, availability) and the first that fails decides the answer; a failed booking changes nothing |
| Tickets.Book | event-management/event-management/src/main/java/com/sup/event_management/service/TicketService.java:42-102 | a booking succeeds exactly when every check passes and the drawn codes are new; it then answers one row per seat and issues that many ticket identities; a failure changes nothing |
| Tickets.BookSucceeds | event-management/event-management/src/main/java/com/sup/event_management/service/TicketService.java:83-94 | a booking that succeeds takes exactly `seatCount` seats, never leaves the count negative, adds exactly `seatCount` BOOKED tickets of that user and event, and changes nothing else |
| Tickets.BookPasses | event-management/event-management/src/main/java/com/sup/event_management/service/TicketService.java:83-101 | once every check passes, the call is the seat decrement, the saved tickets and their responses |
| Tickets.BookResponse | event-management/event-management/src/main/java/com/sup/event_management/service/TicketService.java:97-101 | the response has one row per seat: row i is the new BOOKED ticket `nextTicket + i` with its code, user, event, time and the user's name |
| Tickets.BookQrReadsBack | event-management/event-management/src/main/java/com/sup/event_management/service/TicketService.java:134-139 | every booked row's QR text reads back as that row's ticket id and code |
| Tickets.AddTicketsCount | event-management/event-management/src/main/java/com/sup/event_management/service/TicketService.java:85-94 | adding n tickets to an event adds n to its BOOKED count and its live count, and leaves every other event's counts alone |
| Tickets.BookBalances | event-management/event-management/src/main/java/com/sup/event_management/service/TicketService.java:83-94 | seat conservation: a booking keeps both seat ledgers balanced |
| Tickets.BookKeepsRange | event-management/event-management/src/main/java/com/sup/event_management/service/TicketService.java:73-83 | every event keeps its free seats between 0 and its capacity across a booking |
| Tickets.BookKeepsValid | event-management/event-management/src/main/java/com/sup/event_management/service/TicketService.java:42-102 | a booking keeps every integrity rule, unique codes and foreign keys included |
| Tickets.BookLastSeats | event-management/event-management/src/main/java/com/sup/event_management/service/TicketService.java:73-83 | booking all remaining seats succeeds and leaves exactly zero; a further one-seat booking is refused as "not enough seats" |
| Tickets.CancelOutcomes | event-management/event-management/src/main/java/com/sup/event_management/service/TicketService.java:104-120 | an unknown ticket is a plain exception (500), an already cancelled one gets the 400 answer, any other ticket is cancelled; only a cancellation changes anything |
| Tickets.Cancel | event-management/event-management/src/main/java/com/sup/event_management/service/TicketService.java:104-120 | a refused cancel changes nothing; a successful one answers the ticket id, and the ticket, not CANCELLED before, is CANCELLED after |
| Tickets.CancelReturnsOneSeat | event-management/event-management/src/main/java/com/sup/event_management/service/TicketService.java:115-117 | cancelling a live ticket returns exactly one seat to its event and marks only that ticket |
| Tickets.CancelTwice | event-management/event-management/src/main/java/com/sup/event_management/service/TicketService.java:110-113 | a second cancel of the same ticket is refused, so a ticket returns at most one seat |
| Tickets.CancelConserves | event-management/event-management/src/main/java/com/sup/event_management/service/TicketService.java:115-117 | cancelling keeps the live-ticket ledger balanced, whatever the ticket's status was |
| Tickets.CancelKeepsRange | event-management/event-management/src/main/java/com/sup/event_management/service/TicketService.java:115-117 | while the live-ticket ledger balances, every event keeps its free seats between 0 and its capacity across a cancel: the returned seat never passes `totalSeats` |
| Tickets.CancelBookedOccupied | event-management/event-management/src/main/java/com/sup/event_management/service/TicketService.java:115-117 | cancelling a BOOKED ticket also keeps the occupancy ledger balanced |
| Tickets.CancelCheckedInOverbooks | event-management/event-management/src/main/java/com/sup/event_management/service/TicketService.java:110-117 | where seat conservation breaks: cancelling a CHECKED_IN ticket returns its seat although the holder is inside, so free + booked + admitted is one over capacity |
| Tickets.CancelKeepsValid | event-management/event-management/src/main/java/com/sup/event_management/service/TicketService.java:104-120 | cancelling keeps every integrity rule |
| CheckIns.Validate | event-management/event-management/src/main/java/com/sup/event_management/service/CheckInService.java:84-160 | a ticket passes validation only as the requested, existing ticket |
| CheckIns.ValidateOrder | event-management/event-management/src/main/java/com/sup/event_management/service/CheckInService.java:84-156 | the ordered chain: not found, then wrong code, then cancelled, then checked in, then too early, then too late; each refusal happens exactly when every earlier guard passed and its own failed; success exactly inside [start - 60 s, start + 7200 s] |
| CheckIns.DoCheckIn | event-management/event-management/src/main/java/com/sup/event_management/service/CheckInService.java:163-179 | the step fails exactly when the ticket already has a `CheckIn` row (the unique column), and then changes nothing; otherwise the ticket is CHECKED_IN and the answer carries its id and code |
| CheckIns.CheckInById | event-management/event-management/src/main/java/com/sup/event_management/service/CheckInService.java:39-44 | a refused check-in changes nothing; a successful one passed validation for that very ticket and answers its id |
| CheckIns.CheckInByQr | event-management/event-management/src/main/java/com/sup/event_management/service/CheckInService.java:46-67 | every failure is "Invalid QR code" with nothing changed; a success admits a ticket that was BOOKED and is CHECKED_IN after |
| CheckIns.ByIdSkipsCode | event-management/event-management/src/main/java/com/sup/event_management/service/CheckInService.java:39-44 | checking in by id never compares the code |
| CheckIns.WindowEnds | event-management/event-management/src/main/java/com/sup/event_management/service/CheckInService.java:30-31 | the window is inclusive: exactly 60 s before and exactly 7200 s after the start are accepted; one second outside either end is refused |
| CheckIns.CheckInFailureChangesNothing | event-management/event-management/src/main/java/com/sup/event_management/service/CheckInService.java:39-44 | a refused check-in leaves the database unchanged |
| CheckIns.CheckInEffect | event-management/event-management/src/main/java/com/sup/event_management/service/CheckInService.java:163-179 | a successful check-in moves exactly that ticket from BOOKED to CHECKED_IN, adds exactly one `CheckIn` row stamped now, and answers with its id, code and time |
| CheckIns.ValidatedHasNoCheckIn | event-management/event-management/src/main/java/com/sup/event_management/entity/CheckIn.java:16-18 | under the integrity rules, a validated ticket has no `CheckIn` row yet, so the unique column never fires |
| CheckIns.NoEntryTwice | event-management/event-management/src/main/java/com/sup/event_management/service/CheckInService.java:109-129 | cancelled and checked-in tickets are refused, so a ticket just checked in is refused at any later time |
| CheckIns.CheckInKeepsValid | event-management/event-management/src/main/java/com/sup/event_management/service/CheckInService.java:39-44 | check-in keeps every integrity rule, one `CheckIn` per ticket included |
| CheckIns.CheckInByQrKeepsValid | event-management/event-management/src/main/java/com/sup/event_management/service/CheckInService.java:46-67 | QR check-in keeps every integrity rule |
| CheckIns.CheckInBalances | event-management/event-management/src/main/java/com/sup/event_management/service/CheckInService.java:163-169 | check-in keeps both seat ledgers: the BOOKED ticket becomes an admitted holder of the same event |
| CheckIns.QrFailuresAreInvalidQr | event-management/event-management/src/main/java/com/sup/event_management/service/CheckInService.java:46-67 | every failure on the QR path is answered "Invalid QR code" (400) and changes nothing |
| CheckIns.QrAgreesWithId | event-management/event-management/src/main/java/com/sup/event_management/service/CheckInService.java:46-67 | a ticket's own QR text checks it in exactly as its id does; a refusal is reported as an invalid QR code |
| CheckIns.QrCredentialsAgree | event-management/event-management/src/main/java/com/sup/event_management/service/CheckInService.java:52-56 | any text that parses to a ticket's own id and code behaves as checking in by that id |
| CheckIns.QrWrongCodeRefused | event-management/event-management/src/main/java/com/sup/event_management/service/CheckInService.java:98-107 | a payload whose code is not the ticket's is refused, even inside the window |
| Media.Save | event-management/event-management/src/main/java/com/sup/event_management/service/EventMediaService.java:58 | a saved row takes the next media identity; only the media table and its counter change |
| Media.UploadImage | event-management/event-management/src/main/java/com/sup/event_management/service/EventMediaService.java:28-59 | a failure is "too many images" or a 500 and changes nothing; a success saves an IMAGE row of that event under the next media identity |
| Media.UploadVideo | event-management/event-management/src/main/java/com/sup/event_management/service/EventMediaService.java:62-83 | a failure is "video too large" or a 500 and changes nothing; a success saves a VIDEO row of that event under the next media identity |
| Media.DeleteMedia | event-management/event-management/src/main/java/com/sup/event_management/service/EventMediaService.java:86-98 | a failure changes nothing; a success removes exactly that existing row |
| Media.UploadImageRefusals | event-management/event-management/src/main/java/com/sup/event_management/service/EventMediaService.java:28-59 | "too many images" exactly for a non-profile upload when the event holds five or more images; success exactly when the store accepts and the cap or profile replacement allows; a failed upload changes nothing |
| Media.ProfileCountsTowardCap | event-management/event-management/src/main/java/com/sup/event_management/service/EventMediaService.java:29-31 | with a profile and four other images, another non-profile image is refused, but a new profile is still taken |
| Media.UploadImageSaves | event-management/event-management/src/main/java/com/sup/event_management/service/EventMediaService.java:41-58 | a saved image is an IMAGE of the event with the requested profile flag and the store's url and id; a profile upload first removes the previous profile; no other row changes |
| Media.ProfileReplaced | event-management/event-management/src/main/java/com/sup/event_management/service/EventMediaService.java:51-58 | after a profile upload, the event's one profile is the new row |
| Media.UploadImageKeepsRules | event-management/event-management/src/main/java/com/sup/event_management/service/EventMediaService.java:28-59 | image uploads keep the media rules: at most one profile and five other images per event |
| Media.VideoLimitInclusive | event-management/event-management/src/main/java/com/sup/event_management/service/EventMediaService.java:63-71 | the 1 GiB limit is inclusive: 1073741824 bytes is uploaded, one byte more is refused and changes nothing |
| Media.UploadVideoSaves | event-management/event-management/src/main/java/com/sup/event_management/service/EventMediaService.java:62-83 | a video is saved exactly when it is within the limit and the store accepts it; the row is a non-profile VIDEO under the next identity; a failure changes nothing |
| Media.UploadVideoKeepsRules | event-management/event-management/src/main/java/com/sup/event_management/service/EventMediaService.java:62-83 | videos are not capped, and uploading one keeps the media rules |
| Media.DeleteMediaOutcomes | event-management/event-management/src/main/java/com/sup/event_management/service/EventMediaService.java:86-98 | an unknown id is NOT_FOUND; once the store deletes the file, exactly that row goes; otherwise nothing changes |
| Media.DeleteMediaKeepsRules | event-management/event-management/src/main/java/com/sup/event_management/service/EventMediaService.java:86-98 | deleting media keeps the media rules |
| Media.UploadImageKeepsValid | event-management/event-management/src/main/java/com/sup/event_management/service/EventMediaService.java:28-59 | image uploads keep every integrity rule |
| Media.UploadVideoKeepsValid | event-management/event-management/src/main/java/com/sup/event_management/service/EventMediaService.java:62-83 | video uploads keep every integrity rule |
| Media.DeleteMediaKeepsValid | event-management/event-management/src/main/java/com/sup/event_management/service/EventMediaService.java:86-98 | deleting media keeps every integrity rule |
| Media.MediaForEventExact | event-management/event-management/src/main/java/com/sup/event_management/service/EventMediaService.java:101-103 | a media row is listed for an event exactly when it belongs to that event |
| Events.FindFirst | event-management/event-management/src/main/java/com/sup/event_management/service/EventService.java:82-85 | `filter(p).findFirst()` finds the first row satisfying `p`, or reports that no row does |
| Events.CreateEvent | event-management/event-management/src/main/java/com/sup/event_management/service/EventService.java:39-63 | a failure saves nothing; a success saves the event under the next identity with every seat free; a null mandatory column, a title or location over 255 characters or a description over 1000 is refused |
| Events.UpdateEvent | event-management/event-management/src/main/java/com/sup/event_management/service/EventService.java:184-225 | a failure changes nothing; a success rewrites that existing event in place and keeps the set of events and the tickets; the same null and length refusals as an insert apply, and a null `availableSeats` too |
| Events.DeleteEvent | event-management/event-management/src/main/java/com/sup/event_management/service/EventService.java:227-245 | a failure changes nothing; a success removes exactly that event, which had no tickets |
| Events.View | event-management/event-management/src/main/java/com/sup/event_management/service/EventService.java:66-102 | the view is of the requested event and lists no more image urls than the event has media rows |
| Events.GetEvent | event-management/event-management/src/main/java/com/sup/event_management/service/EventService.java:140-158 | NOT_FOUND exactly for an unknown id; otherwise the view of that event |
| Events.GetAllEvents | event-management/event-management/src/main/java/com/sup/event_management/service/EventService.java:161-182 | the only failure is a 500; every listed row is a stored event under its own identity |
| Events.Gallery | event-management/event-management/src/main/java/com/sup/event_management/service/EventService.java:121-127 | the image loop never moves the media sequence back and stops early only on "too many images" or a 500 |
| Events.CreateEventWithMedia | event-management/event-management/src/main/java/com/sup/event_management/service/EventService.java:105-137 | when the event itself is refused nothing is saved; a success answers the view of the newly saved event |
| Events.CreateEventRefusals | event-management/event-management/src/main/java/com/sup/event_management/service/EventService.java:42-52 | an unknown organizer is NOT_FOUND; the insert succeeds exactly when the organizer is known and no mandatory column is null or overlong, so a title or location over 255 characters is refused; a failed creation saves nothing |
| Events.CreateEventSeats | event-management/event-management/src/main/java/com/sup/event_management/service/EventService.java:54-60 | a new event has all its seats free, whatever `availableSeats` the body carried; its fields are the body's, its organizer the one looked up, and it takes a fresh identity |
| Events.CreateEventBalances | event-management/event-management/src/main/java/com/sup/event_management/service/EventService.java:56-60 | a new event keeps both seat ledgers; the seat range rule holds afterwards exactly when `totalSeats` is not negative |
| Events.CreateEventKeepsValid | event-management/event-management/src/main/java/com/sup/event_management/service/EventService.java:39-63 | creating an event keeps every integrity rule |
| Events.CreateEventNoMedia | event-management/event-management/src/main/java/com/sup/event_management/service/EventService.java:60 | a new event starts without media rows |
| Events.UpdateEventRefusals | event-management/event-management/src/main/java/com/sup/event_management/service/EventService.java:187-220 | refusals come in order (unknown event, then unknown organizer, then a null or overlong column); the update succeeds exactly when the event exists, a named organizer is known, no mandatory column is null and title and location fit 255 characters; a refused update changes nothing |
| Events.UpdateEventCopies | event-management/event-management/src/main/java/com/sup/event_management/service/EventService.java:199-220 | the body's fields, both seat counts included, replace the event's verbatim; the organizer is kept unless the body names one; nothing else changes |
| Events.UpdateEventLedger | event-management/event-management/src/main/java/com/sup/event_management/service/EventService.java:203-204 | after an update, the live-ticket ledger holds exactly when the body's seat counts agree with the tickets already sold |
| Events.UpdateResetBreaksLedger | event-management/event-management/src/main/java/com/sup/event_management/service/EventService.java:203-204 | resetting an event with sold tickets to "all seats free" makes it overbookable by the seats already sold |
| Events.UpdateEventRange | event-management/event-management/src/main/java/com/sup/event_management/service/EventService.java:203-204 | after an update every event keeps its free seats in [0, capacity] exactly when the body's own seat counts are; nothing checks them |
| Events.UpdateEventKeepsValid | event-management/event-management/src/main/java/com/sup/event_management/service/EventService.java:184-225 | updating an event keeps every integrity rule |
| Events.GetEventOutcomes | event-management/event-management/src/main/java/com/sup/event_management/service/EventService.java:140-158 | an unknown id is NOT_FOUND; a known one is viewed with the event's own fields |
| Events.ViewProfile | event-management/event-management/src/main/java/com/sup/event_management/service/EventService.java:81-85 | the view has a profile url exactly when the event has a profile image, and it is that image's url |
| Events.ViewVideo | event-management/event-management/src/main/java/com/sup/event_management/service/EventService.java:96-99 | the view has a video url exactly when the event has a VIDEO row, and it is the url of the VIDEO row with the lowest identity |
| Events.ViewImageUrls | event-management/event-management/src/main/java/com/sup/event_management/service/EventService.java:87-93 | the view's image urls are the urls of the event's non-profile image rows, in listing order |
| Events.GalleryRowsExact | event-management/event-management/src/main/java/com/sup/event_management/service/EventService.java:87-93 | those rows are exactly the event's non-profile images, each once, in identity order |
| Events.ViewImagesCapped | event-management/event-management/src/main/java/com/sup/event_management/service/EventService.java:87-93 | under the media rules, the view lists at most five image urls |
| Events.AllEventsPage | event-management/event-management/src/main/java/com/sup/event_management/service/EventService.java:161-182 | without overflow, `getAllEvents` answers the page slice of the events in identity order, with the event count and the ceiling page count |
| Events.DeleteEventOutcomes | event-management/event-management/src/main/java/com/sup/event_management/service/EventService.java:227-245 | an unknown id is NOT_FOUND; an event with tickets hits the foreign key (500); otherwise exactly that event goes and its media rows stay |
| Events.DeleteEventBalances | event-management/event-management/src/main/java/com/sup/event_management/service/EventService.java:242 | deleting an event keeps both seat ledgers |
| Events.DeleteEventKeepsValid | event-management/event-management/src/main/java/com/sup/event_management/service/EventService.java:227-245 | deleting an event keeps every integrity rule |
| Events.AttachMedia | event-management/event-management/src/main/java/com/sup/event_management/service/EventService.java:115-132 | the uploads of `createEventWithMedia` touch only the media table |
| Events.GalleryKeepsEvents | event-management/event-management/src/main/java/com/sup/event_management/service/EventService.java:121-127 | the image loop changes only the media table |
| Events.GalleryFirstFive | event-management/event-management/src/main/java/com/sup/event_management/service/EventService.java:122 | only the first five entries of `images` matter |
| Events.GallerySkipsMissing | event-management/event-management/src/main/java/com/sup/event_management/service/EventService.java:123 | missing or empty entries are skipped and save nothing |
| Events.GalleryStep | event-management/event-management/src/main/java/com/sup/event_management/service/EventService.java:124 | one non-profile image below the cap is saved: the gallery grows by one and the profile is unchanged |
| Events.GalleryFillsUp | event-management/event-management/src/main/java/com/sup/event_management/service/EventService.java:121-127 | with a profile saved and five images offered, the loop saves four of them and refuses the fifth with "too many images" |
| Events.WithMediaNotAtomic | event-management/event-management/src/main/java/com/sup/event_management/service/EventService.java:105-137 | the call is not atomic: once the event exists, a later upload failure leaves the event and the media saved so far |
| Events.WithMediaFifthImageRefused | event-management/event-management/src/main/java/com/sup/event_management/service/EventService.java:115-127 | a profile plus five images: the fifth image is refused (400), with the event, its profile and four images already saved |
| Users.ToView | event-management/event-management/src/main/java/com/sup/event_management/service/UserService.java:98-106 | the response carries the user's id, name, email, role and creation time, and no password |
| Users.CreateUser | event-management/event-management/src/main/java/com/sup/event_management/service/UserService.java:32-45 | a failure is a 500 and saves nothing; a success saves a user with role USER under the next identity; a null or overlong name, email or password is refused |
| Users.GetUser | event-management/event-management/src/main/java/com/sup/event_management/service/UserService.java:47-64 | found exactly for a stored id; otherwise NOT_FOUND |
| Users.Filtered | event-management/event-management/src/main/java/com/sup/event_management/service/UserService.java:72-75 | the filters only remove users from the listing |
| Users.GetAllUsers | event-management/event-management/src/main/java/com/sup/event_management/service/UserService.java:66-96 | the only failure is a 500; `totalElements` counts the filtered users |
| Users.CreateUserOutcomes | event-management/event-management/src/main/java/com/sup/event_management/service/UserService.java:32-45 | a user is created exactly when name, email and password are present, each fits its 255-character column, and the email is new; the role is USER whatever the body says; the user takes a fresh identity; a failure is a 500 that changes nothing |
| Users.CreateUserKeepsValid | event-management/event-management/src/main/java/com/sup/event_management/service/UserService.java:32-45 | creating a user keeps every integrity rule, unique emails included |
| Users.GetUserOutcomes | event-management/event-management/src/main/java/com/sup/event_management/service/UserService.java:47-64 | an unknown id is NOT_FOUND; a known one answers the stored row itself |
| Users.FilteredExact | event-management/event-management/src/main/java/com/sup/event_management/service/UserService.java:72-75 | a user is listed exactly when it passes both filters, and each listed row is the stored user |
| Users.FilteredInOrder | event-management/event-management/src/main/java/com/sup/event_management/service/UserService.java:72-75 | the filtered users keep the order of `findAll` |
| Users.UnfilteredCountsAll | event-management/event-management/src/main/java/com/sup/event_management/service/UserService.java:72-75 | without filters, every user is counted |
| Users.NameFilterIgnoresCase | event-management/event-management/src/main/java/com/sup/event_management/service/UserService.java:73 | two name queries that agree up to ASCII case select the same users, in the same order |
| Users.NameFilterLowerQuery | event-management/event-management/src/main/java/com/sup/event_management/service/UserService.java:73 | a name query selects exactly what its lower-case form selects |
| Users.ViewPageBounds | event-management/event-management/src/main/java/com/sup/event_management/service/UserService.java:77-91 | without overflow, the page is the views of the filtered slice, at most `size` long and empty past the end, with the filtered count and the ceiling page count |
| Services.Store.constructor | event-management/event-management/src/main/java/com/sup/event_management/entity/Event.java:12-14 | the initial state, not a service call: every table empty and every IDENTITY sequence (the generated ids of Event, User, Ticket, CheckIn and EventMedia alike) at 1, with the integrity and media rules holding |
| Services.Store.BookTickets | event-management/event-management/src/main/java/com/sup/event_management/service/TicketService.java:42-102 | the checks, the decrement and the ticket loop leave the tables `Tickets.Book` describes, answer what it answers, and keep the integrity rules |
| Services.Store.Commit | event-management/event-management/src/main/java/com/sup/event_management/service/TicketService.java:83-101 | after the checks: the seat decrement and saved tickets are the booking, and the receipts are the responses for the new tickets |
| Services.Store.SaveAll | event-management/event-management/src/main/java/com/sup/event_management/service/TicketService.java:85-94 | the loop leaves the tickets table as `AddTickets` says and advances the ticket sequence by n; no other table changes |
| Services.Store.Respond | event-management/event-management/src/main/java/com/sup/event_management/service/TicketService.java:97-99 | the loop builds `Receipts` of the saved tickets |
| Services.Store.CancelTicket | event-management/event-management/src/main/java/com/sup/event_management/service/TicketService.java:104-120 | the in-place status and seat updates are `Tickets.Cancel`, and they keep the integrity rules |
| Services.Store.DoCheckIn | event-management/event-management/src/main/java/com/sup/event_management/service/CheckInService.java:163-179 | the status update and `CheckIn` insert are `CheckIns.DoCheckIn` |
| Services.Store.CheckIn | event-management/event-management/src/main/java/com/sup/event_management/service/CheckInService.java:39-44 | validation then check-in is `CheckIns.CheckInById`, keeping the integrity rules |
| Services.Store.CheckInByQr | event-management/event-management/src/main/java/com/sup/event_management/service/CheckInService.java:46-67 | parsing with the entry loop, then validation and check-in, is `CheckIns.CheckInByQr`, keeping the integrity rules |
| Services.Store.CreateEvent | event-management/event-management/src/main/java/com/sup/event_management/service/EventService.java:39-63 | the insert is `Events.CreateEvent`, keeping the integrity rules |
| Services.Store.UpdateEvent | event-management/event-management/src/main/java/com/sup/event_management/service/EventService.java:184-225 | the in-place update is `Events.UpdateEvent`, keeping the integrity rules |
| Services.Store.DeleteEvent | event-management/event-management/src/main/java/com/sup/event_management/service/EventService.java:227-245 | the deletion is `Events.DeleteEvent`, keeping the integrity rules |
| Services.Store.CreateEventWithMedia | event-management/event-management/src/main/java/com/sup/event_management/service/EventService.java:105-137 | the event, profile, image loop and video uploads leave the tables and the answer `Events.CreateEventWithMedia` describes, and keep the integrity rules |
| Services.Store.AttachMedia | event-management/event-management/src/main/java/com/sup/event_management/service/EventService.java:115-132 | the profile, image-loop and video uploads for the saved event leave the tables and the answer `Events.AttachMedia` describes, and keep the integrity rules |
| Services.Store.UploadGallery | event-management/event-management/src/main/java/com/sup/event_management/service/EventService.java:120-127 | the image loop is `Events.Gallery` from the first entry, and keeps the integrity rules |
| Services.Store.UploadImage | event-management/event-management/src/main/java/com/sup/event_management/service/EventMediaService.java:28-59 | the upload is `Media.UploadImage`, keeping the integrity rules and the media rules |
| Services.Store.UploadVideo | event-management/event-management/src/main/java/com/sup/event_management/service/EventMediaService.java:62-83 | the upload is `Media.UploadVideo`, keeping the integrity rules and the media rules |
| Services.Store.DeleteMedia | event-management/event-management/src/main/java/com/sup/event_management/service/EventMediaService.java:86-98 | the deletion is `Media.DeleteMedia`, keeping the integrity rules and the media rules |
| Services.Store.CreateUser | event-management/event-management/src/main/java/com/sup/event_management/service/UserService.java:32-45 | the insert is `Users.CreateUser`, keeping the integrity rules |

## Left out

- Read-only calls (`getEventById`, `getAllEvents`, `getUserById`, `getAllUsers`, `getMediaForEvent`, `mapToResponse`) are pure functions (`Events.GetEvent`, `Events.View`, `Events.GetAllEvents`, `Users.GetUser`, `Users.GetAllUsers`, `Db.MediaRows`) with no `Store` method, because they change nothing.
- `Event.ticketPrice` (a `Double`) is not modelled; a missing price is not among the insert's refusals.
- Log statements, exception severities, messages and detail strings are not modelled; failures keep their reason, and with it the exception type and HTTP status.
- Locking and concurrency: each call runs alone, as one step, so the races that a per-event lock would prevent do not arise in the model.
- Transaction rollback is modelled by leaving the database unchanged on failure; `createEventWithMedia` has no transaction, and its saved steps stay.
- The image store (Cloudinary) is reduced to what it answers: an upload result or a failure, and whether a deletion works. Folders and resource types are not modelled.
- QR PNG rendering is not modelled; a response row carries the JSON text the image would encode (`Tickets.QrText`).
- `toLowerCase` and `equalsIgnoreCase` follow ASCII case mapping only; other Unicode case mappings are not modelled.
- The 2048-character `url` column limit is not checked.
- `findAll` and `findByEventId` list rows in identity order; the database does not promise this order.
- Email uniqueness compares exact strings; a case-insensitive database collation is not modelled.
- `totalPages` is `Math.ceil` over `double` division, modelled as the exact integer ceiling. That is exact for sizes that fit an `int`.
- Time is whole seconds; sub-second timestamps are not modelled.
- In `bookTickets`, building the ticket list is merged into the `saveAll` loop (`Services.Store.SaveAll`); nothing can be observed in between.
- A request body whose organizer object has a null id cannot be expressed: an `EventDraft` either names an organizer id or has no organizer. In the source, `createEvent` and `updateEvent` then pass a null id to `findById`, which throws `IllegalArgumentException`, answered 500 (`EventService.java:42` and `:208`). The model has no such input, so it never gives that 500.
- QrPayload.Parse: text is a sequence of Unicode scalar values, while Java's `trim`, `substring` and `split` work on UTF-16 code units. A QR text whose first or last character lies outside the Basic Multilingual Plane is therefore cut differently: `substring(1, length() - 1)` (`CheckInService.java:72`) keeps half of its surrogate pair in the first key or the last value, so, for instance, a ticket's own payload framed by U+1F600 instead of braces is refused as an invalid QR code by the source but read as that ticket by the model. The same holds for `QrPayload.ParseQrCodeJson`, `CheckIns.CheckInByQr` and `Services.Store.CheckInByQr`, which use it.
- Text.ParseLong: reads ASCII digits only. `Long.valueOf` also accepts the other Unicode decimal digits (`Character.digit`), so a QR `ticketId` written with, say, Arabic-Indic digits parses in the source and fails in the model.
- Paging.TotalPages: its own contract covers a zero page size only; the positive case is `Paging.TotalPagesCeil`, and a negative size (rounding towards zero) has no stated property.
- Services.Store.DoCheckIn: states the new tables and the answer only; keeping the rules is stated for the whole call (`Services.Store.CheckIn`).
- QrPayload.ParseEncode: requires the ticket code to have no ',', ':' or '"'. The UUID text of real codes has none.
- Events.CreateEvent: assumes the body carries no `id`. The `Event` is bound from the request part with all its setters (`EventController.java:25`), so a body `id` reaches `createEvent`, and `save` (`EventService.java:60`) then merges the body into the stored event of that identity instead of inserting: the `onCreate` hook does not run, the body's `availableSeats` (or `totalSeats` when null) and `createdAt` are kept, and the answer carries that old identity. What `save` does with an `id` that has no stored event depends on the persistence provider's version and is not modelled either.
- Events.CreateEventSeats: states the insert only. For a body with an `id` (see `Events.CreateEvent`) the source keeps that identity and the body's `availableSeats` rather than taking the next identity with every seat free.
- Events.CreateEventWithMedia: for a body with an `id`, the source attaches the profile image, the gallery images and the video to the existing event of that identity; in the model the uploads always go to the newly inserted event.
- The 255-character limits (`Entities.COLUMN_MAX`) and the 1000-character description limit are refusals of the database's column widths; a database that silently truncates instead is not modelled.
- Paging.PaginateInRange: states the slice only when `page * size + size` does not overflow; `Paging.PageIsShortSlice` covers the wrapping case.
