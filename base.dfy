/** Shared vocabulary of the event-management backend: identifiers, time,
    Java's 32- and 64-bit integer ranges, and the failures a service call can end in. */
module Base {

  /** Database identities (`Long id` with IDENTITY generation, starting at 1). */
  type Id = nat

  /** Instants, as a count of seconds. */
  type Time = int

  const INT_MIN: int := -0x8000_0000
  const INT_MAX: int := 0x7fff_ffff
  const LONG_MIN: int := -0x8000_0000_0000_0000
  const LONG_MAX: int := 0x7fff_ffff_ffff_ffff

  /** A Java `int`. */
  type Int32 = x: int | INT_MIN <= x <= INT_MAX

  /** Java `int` arithmetic: the mathematical result wrapped into 32 bits. */
  function Wrap32(x: int): (r: Int32)
    ensures INT_MIN <= x <= INT_MAX ==> r == x
    ensures (r - x) % 0x1_0000_0000 == 0
  {
    if INT_MIN <= x <= INT_MAX then x else (x - INT_MIN) % 0x1_0000_0000 + INT_MIN
  }

  /** An `int` sum or product just above the range wraps to the negative side. */
  lemma Wrap32Above(x: int)
    requires INT_MAX < x < 0x1_0000_0000
    ensures Wrap32(x) == x - 0x1_0000_0000 && Wrap32(x) < 0
  {
    var y := x - INT_MIN;
    assert 0x1_0000_0000 <= y < 0x1_8000_0000;
    assert y / 0x1_0000_0000 == 1;
    assert y % 0x1_0000_0000 == y - 0x1_0000_0000;
  }

  datatype Option<+T> = None | Some(value: T)

  /** `ExceptionType`: the kind carried by every `AppException`. */
  datatype ExceptionType = Validation | Business | Authorization | ResourceNotFound | System

  /** Why a service raised an `AppException` (one constructor per message the services use). */
  datatype Reason =
    | SeatCountNotPositive
    | UserNotFound
    | EventNotFound
    | NotEnoughSeats
    | TicketNotFound
    | InvalidTicketCode
    | TicketCancelled
    | TicketAlreadyCheckedIn
    | CheckInNotOpen(opensAt: Time)
    | CheckInClosed
    | InvalidQrCode
    | OrganizerNotFound
    | TooManyImages
    | VideoTooLarge
    | MediaNotFound

  /** The exception type each `AppException` is raised with. */
  function KindOf(r: Reason): ExceptionType
  {
    match r
    case SeatCountNotPositive | InvalidTicketCode | CheckInNotOpen(_) | CheckInClosed | InvalidQrCode => Validation
    case NotEnoughSeats | TicketCancelled | TicketAlreadyCheckedIn | TooManyImages | VideoTooLarge => Business
    case UserNotFound | EventNotFound | TicketNotFound | OrganizerNotFound | MediaNotFound => ResourceNotFound
  }

  /** The HTTP status each `AppException` is raised with. */
  function StatusOf(r: Reason): int
  {
    if KindOf(r) == ResourceNotFound then 404 else 400
  }

  /** How a service call fails.
      Raised: an `AppException`, rendered with its own type and status.
      Crashed: any other exception (a `RuntimeException`, a violated database constraint),
               rendered by the global handler as SYSTEM with status 500.
      AlreadyCancelled: the 400 response `cancelTicket` builds itself, without an exception. */
  datatype Failure = Raised(reason: Reason) | Crashed | AlreadyCancelled

  function HttpStatus(f: Failure): (s: int)
    ensures f.Raised? && KindOf(f.reason) == ResourceNotFound <==> s == 404
    ensures s == 500 <==> f.Crashed?
  {
    match f
    case Raised(r) => StatusOf(r)
    case Crashed => 500
    case AlreadyCancelled => 400
  }

  datatype Result<+T> = Ok(value: T) | Err(failure: Failure)
}
