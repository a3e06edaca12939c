/** The state selector of the booking listings, by its enumeration names. */
module BookingStates {
  import opened Common

  datatype BookingState = All | Current | Past | Future | Waiting | Rejected

  /** The enumeration constant's name. */
  function Name(st: BookingState): string {
    match st
    case All => "ALL"
    case Current => "CURRENT"
    case Past => "PAST"
    case Future => "FUTURE"
    case Waiting => "WAITING"
    case Rejected => "REJECTED"
  }

  /** No two states share a name. */
  lemma NamesDistinct(a: BookingState, b: BookingState)
    ensures Name(a) == Name(b) ==> a == b
  {
  }

  /** The constant with this exact name, as `Enum.valueOf` looks it up. */
  function ValueOf(name: string): (r: Option<BookingState>)
    ensures r.Some? ==> Name(r.value) == name
    ensures r.None? ==> forall st: BookingState :: Name(st) != name
  {
    if name == "ALL" then Some(All)
    else if name == "CURRENT" then Some(Current)
    else if name == "PAST" then Some(Past)
    else if name == "FUTURE" then Some(Future)
    else if name == "WAITING" then Some(Waiting)
    else if name == "REJECTED" then Some(Rejected)
    else None
  }
}

/** The gateway's converter from the `state` request parameter to a
    booking state. */
module StateConverter {
  import opened Common
  import opened Text
  import BookingStates

  type BookingState = BookingStates.BookingState

  /** Upper-cases the text and looks the constant up by name; a text that
      names no constant is rejected with the enum-converter error. */
  function Convert(s: string): (r: Result<BookingState>)
    ensures r.Ok? <==> exists st: BookingState :: BookingStates.Name(st) == Upper(s)
    ensures r.Ok? ==> BookingStates.Name(r.value) == Upper(s)
    ensures r.Err? ==> r.error == EnumConverter
  {
    match BookingStates.ValueOf(Upper(s))
    case Some(st) => Ok(st)
    case None => Err(EnumConverter)
  }

  /** A state's name converts back to that state. */
  lemma ConvertName(st: BookingState)
    ensures Convert(BookingStates.Name(st)) == Ok(st)
  {
    UpperOfUpperCase(BookingStates.Name(st));
    BookingStates.NamesDistinct(Convert(BookingStates.Name(st)).value, st);
  }

  /** Upper-casing the text first changes nothing. */
  lemma ConvertIgnoresCase(s: string)
    ensures Convert(Upper(s)) == Convert(s)
  {
    UpperIdempotent(s);
  }

  /** Any text whose upper case is a state's name converts to that state,
      whatever its casing. */
  lemma ConvertAnyCasing(s: string, st: BookingState)
    requires Upper(s) == BookingStates.Name(st)
    ensures Convert(s) == Ok(st)
  {
    ConvertIgnoresCase(s);
    ConvertName(st);
  }

  /** `current` converts to the current state. */
  lemma ConvertsLowerCase()
    ensures Convert("current") == Ok(BookingStates.Current)
  {
    assert Upper("current") == "CURRENT";
    ConvertAnyCasing("current", BookingStates.Current);
  }

  /** `UNSUPPORTED_STATUS` names no state and is rejected. */
  lemma RejectsUnknownName()
    ensures Convert("UNSUPPORTED_STATUS") == Err(EnumConverter)
  {
    UpperOfUpperCase("UNSUPPORTED_STATUS");
  }
}
