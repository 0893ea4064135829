/**
 * The booking app's package `main`: the ticket pool and booking list it keeps as global
 * state, the booking operation that changes them, the two first-name projections, and
 * the validate-book-stop loop of `main`, one iteration at a time and over a finite
 * sequence of requests.
 */
module BookingApp {
  import opened GoStrings
  import opened Strconv
  import opened Helper

  /** `conferenceTickets`: the capacity of the conference. */
  const ConferenceTickets: nat := 50

  /**
   * One booking record. The source keeps it as a map from the keys "firstName",
   * "lastName", "email" and "numberOfTickets" to strings; the ticket count is stored
   * as its decimal rendering.
   */
  datatype Booking = Booking(firstName: string, lastName: string, email: string, numberOfTickets: string)

  /** The record `bookTickets` stores for one booking. */
  function MakeBooking(userTickets: Uint, firstName: string, lastName: string, email: string): (b: Booking)
    ensures Numeral(b.numberOfTickets) && DecimalValue(b.numberOfTickets) == userTickets
    ensures b.firstName == firstName && b.lastName == lastName && b.email == email
  {
    DecimalValueOfFormatUint(userTickets);
    Booking(firstName, lastName, email, FormatUint(userTickets))
  }

  /** Every record's ticket count is a decimal numeral. */
  predicate WellFormed(bookings: seq<Booking>) {
    forall k :: 0 <= k < |bookings| ==> Numeral(bookings[k].numberOfTickets)
  }

  /** Total number of tickets the records account for. */
  function TicketsSold(bookings: seq<Booking>): nat
    requires WellFormed(bookings)
  {
    if bookings == [] then 0
    else TicketsSold(bookings[..|bookings| - 1]) + DecimalValue(bookings[|bookings| - 1].numberOfTickets)
  }

  /** Appending a record adds its ticket count to the total. */
  lemma {:induction false} TicketsSoldAppend(bookings: seq<Booking>, b: Booking)
    requires WellFormed(bookings) && Numeral(b.numberOfTickets)
    ensures WellFormed(bookings + [b])
    ensures TicketsSold(bookings + [b]) == TicketsSold(bookings) + DecimalValue(b.numberOfTickets)
  {
    assert (bookings + [b])[..|bookings|] == bookings;
  }

  /** Every record is for at least one ticket. */
  predicate AllPositive(bookings: seq<Booking>)
    requires WellFormed(bookings)
  {
    forall k :: 0 <= k < |bookings| ==> DecimalValue(bookings[k].numberOfTickets) >= 1
  }

  /** When every record is for at least one ticket, there are no more records than tickets sold. */
  lemma {:induction false} BookingsAtMostTicketsSold(bookings: seq<Booking>)
    requires WellFormed(bookings) && AllPositive(bookings)
    ensures |bookings| <= TicketsSold(bookings)
  {
    if bookings != [] {
      var init := bookings[..|bookings| - 1];
      assert WellFormed(init) && AllPositive(init);
      BookingsAtMostTicketsSold(init);
    }
  }

  /** The global state of package `main`: `remainingTickets` and `bookings`. */
  class Ledger {
    var remainingTickets: Uint
    var bookings: seq<Booking>

    /**
     * The ledger invariant: every record holds a numeral, and the remaining tickets and
     * the tickets the records account for add up to the capacity.
     */
    ghost predicate Valid()
      reads this
    {
      && WellFormed(bookings)
      && remainingTickets <= ConferenceTickets
      && remainingTickets + TicketsSold(bookings) == ConferenceTickets
    }

    /** The initial values of the globals: the full capacity and no bookings. */
    constructor ()
      ensures Valid()
      ensures remainingTickets == ConferenceTickets && bookings == []
    {
      remainingTickets := ConferenceTickets;
      bookings := [];
    }

    /**
     * bookTickets: subtracts the request from the pool with `uint` arithmetic and appends
     * one record. It does not check the request; when the request fits the pool the
     * invariant is kept, otherwise the subtraction wraps around.
     */
    method BookTickets(userTickets: Uint, firstName: string, lastName: string, email: string)
      requires Valid()
      modifies this
      ensures remainingTickets == UintSub(old(remainingTickets), userTickets)
      ensures bookings == old(bookings) + [MakeBooking(userTickets, firstName, lastName, email)]
      ensures userTickets <= old(remainingTickets) ==>
        Valid() && remainingTickets == old(remainingTickets) - userTickets
    {
      remainingTickets := UintSub(remainingTickets, userTickets);

      var userData := Booking(firstName, lastName, email, FormatUint(userTickets));
      bookings := bookings + [userData];

      TicketsSoldAppend(old(bookings), userData);
      DecimalValueOfFormatUint(userTickets);
    }

    /** getFirstNamesFromBookings: the first name of every record, in booking order. */
    method GetFirstNamesFromBookings() returns (firstNames: seq<string>)
      ensures |firstNames| == |bookings|
      ensures forall i :: 0 <= i < |bookings| ==> firstNames[i] == bookings[i].firstName
    {
      firstNames := [];
      for i := 0 to |bookings|
        invariant |firstNames| == i
        invariant forall k :: 0 <= k < i ==> firstNames[k] == bookings[k].firstName
      {
        firstNames := firstNames + [bookings[i].firstName];
      }
    }

    /** The "Tickets sold" figure of the booking summary: capacity minus remaining tickets. */
    method TicketsSoldFigure() returns (sold: nat)
      requires Valid()
      ensures sold == TicketsSold(bookings)
      ensures sold <= ConferenceTickets
    {
      sold := ConferenceTickets - remainingTickets;
    }
  }

  /** The invariant of the session loop: the ledger's, and every record is for at least one ticket. */
  ghost predicate SessionInvariant(ledger: Ledger)
    reads ledger
  {
    ledger.Valid() && AllPositive(ledger.bookings)
  }

  /** Under the session invariant there are at most as many bookings as the conference has tickets. */
  lemma AtMostCapacityBookings(ledger: Ledger)
    requires SessionInvariant(ledger)
    ensures |ledger.bookings| <= ConferenceTickets
  {
    BookingsAtMostTicketsSold(ledger.bookings);
  }

  /** getFirstNames (legacy): the first field of every non-blank entry, blank entries skipped. */
  function FirstFields(entries: seq<string>): (r: seq<string>)
    ensures |r| <= |entries|
    ensures forall w :: w in r ==> w != [] && NoSpace(w)
  {
    if entries == [] then []
    else
      var names := Fields(entries[|entries| - 1]);
      FirstFields(entries[..|entries| - 1]) + (if |names| > 0 then [names[0]] else [])
  }

  /** Number of entries that are not all white space. */
  function NonBlankCount(entries: seq<string>): nat {
    if entries == [] then 0
    else NonBlankCount(entries[..|entries| - 1]) + (if AllSpace(entries[|entries| - 1]) then 0 else 1)
  }

  /** getFirstNames yields exactly one name per non-blank entry. */
  lemma {:induction false} FirstFieldsCount(entries: seq<string>)
    ensures |FirstFields(entries)| == NonBlankCount(entries)
  {
    if entries != [] {
      FirstFieldsCount(entries[..|entries| - 1]);
    }
  }

  /** getFirstNames: for each entry, its first whitespace-separated field, if it has one. */
  method GetFirstNames(entries: seq<string>) returns (firstNames: seq<string>)
    ensures firstNames == FirstFields(entries)
    ensures |firstNames| == NonBlankCount(entries)
  {
    firstNames := [];
    for i := 0 to |entries|
      invariant firstNames == FirstFields(entries[..i])
    {
      var names := Fields(entries[i]);
      if |names| > 0 {
        firstNames := firstNames + [names[0]];
      }
      assert entries[..i + 1][..i] == entries[..i];
    }
    assert entries[..|entries|] == entries;
    FirstFieldsCount(entries);
  }

  /** What the console supplies in one iteration of the loop. */
  datatype Request = Request(firstName: string, lastName: string, email: string, userTickets: Uint)

  /**
   * What one iteration ends with: a booking, with the first names it displays and whether
   * the conference is now sold out; or a rejection, with the verdicts it displays.
   */
  datatype Outcome = Booked(firstNames: seq<string>, soldOut: bool) | Rejected(checks: Checks)

  /**
   * One iteration of the loop in `main`: validate the request against the remaining tickets;
   * when every check passes, book it and report whether the pool is now empty; otherwise
   * report the verdicts and change nothing.
   */
  method SessionStep(ledger: Ledger, request: Request) returns (outcome: Outcome)
    requires ledger.Valid()
    modifies ledger
    ensures ledger.Valid()
    ensures outcome.Booked? <==>
      Validation(request.firstName, request.lastName, request.email, request.userTickets,
                 old(ledger.remainingTickets)).AllValid()
    ensures outcome.Booked? ==>
      && 0 < request.userTickets <= old(ledger.remainingTickets)
      && ledger.remainingTickets == old(ledger.remainingTickets) - request.userTickets
      && ledger.bookings == old(ledger.bookings)
           + [MakeBooking(request.userTickets, request.firstName, request.lastName, request.email)]
      && |outcome.firstNames| == |ledger.bookings|
      && (forall i :: 0 <= i < |ledger.bookings| ==> outcome.firstNames[i] == ledger.bookings[i].firstName)
      && (outcome.soldOut <==> ledger.remainingTickets == 0)
    ensures outcome.Rejected? ==>
      && outcome.checks == Validation(request.firstName, request.lastName, request.email,
                                      request.userTickets, old(ledger.remainingTickets))
      && ledger.remainingTickets == old(ledger.remainingTickets)
      && ledger.bookings == old(ledger.bookings)
    ensures old(AllPositive(ledger.bookings)) ==> AllPositive(ledger.bookings)
  {
    var isValidName, isValidEmail, isValidTicketNumber :=
      ValidateUserInputs(request.firstName, request.lastName, request.email,
                         request.userTickets, ledger.remainingTickets);

    if isValidName && isValidEmail && isValidTicketNumber {
      ledger.BookTickets(request.userTickets, request.firstName, request.lastName, request.email);
      var firstNames := ledger.GetFirstNamesFromBookings();
      outcome := Booked(firstNames, ledger.remainingTickets == 0);
    } else {
      outcome := Rejected(Checks(isValidName, isValidEmail, isValidTicketNumber));
    }
  }

  /** Where a session ends: the pool, the records, how many requests it took, and whether it sold out. */
  datatype SessionResult = SessionResult(remaining: Uint, bookings: seq<Booking>, consumed: nat, soldOut: bool)

  /** `r` with `k` more requests counted as taken. */
  function Later(r: SessionResult, k: nat): SessionResult {
    r.(consumed := r.consumed + k)
  }

  /**
   * The loop of `main` as a function of its inputs: each request in turn is validated against
   * the pool; a passing one is booked (`uint` subtraction, one record appended), and the session
   * ends right after the booking that leaves the pool at 0; a failing one changes nothing.
   */
  function Session(remaining: Uint, bookings: seq<Booking>, requests: seq<Request>): (r: SessionResult)
    ensures r.consumed <= |requests|
    ensures !r.soldOut ==> r.consumed == |requests|
    ensures remaining > 0 ==> (r.soldOut <==> r.remaining == 0)
    ensures r.remaining <= remaining
    ensures bookings <= r.bookings && |r.bookings| - |bookings| <= r.consumed
  {
    if requests == [] then SessionResult(remaining, bookings, 0, false)
    else
      var q := requests[0];
      if Validation(q.firstName, q.lastName, q.email, q.userTickets, remaining).AllValid() then
        var left := UintSub(remaining, q.userTickets);
        var records := bookings + [MakeBooking(q.userTickets, q.firstName, q.lastName, q.email)];
        if left == 0 then SessionResult(left, records, 1, true)
        else Later(Session(left, records, requests[1..]), 1)
      else
        Later(Session(remaining, bookings, requests[1..]), 1)
  }

  /** A session only moves tickets from the pool into records: pool plus tickets sold is unchanged. */
  lemma {:induction false} SessionConservesTickets(remaining: Uint, bookings: seq<Booking>, requests: seq<Request>)
    requires WellFormed(bookings)
    ensures WellFormed(Session(remaining, bookings, requests).bookings)
    ensures Session(remaining, bookings, requests).remaining + TicketsSold(Session(remaining, bookings, requests).bookings)
         == remaining + TicketsSold(bookings)
  {
    if requests != [] {
      var q := requests[0];
      if Validation(q.firstName, q.lastName, q.email, q.userTickets, remaining).AllValid() {
        var b := MakeBooking(q.userTickets, q.firstName, q.lastName, q.email);
        TicketsSoldAppend(bookings, b);
        SessionConservesTickets(UintSub(remaining, q.userTickets), bookings + [b], requests[1..]);
      } else {
        SessionConservesTickets(remaining, bookings, requests[1..]);
      }
    }
  }

  /** One request's effect on the pool and the records: booked when every check passes, else nothing. */
  predicate Stepped(q: Request, remaining: Uint, bookings: seq<Booking>, left: Uint, records: seq<Booking>) {
    if Validation(q.firstName, q.lastName, q.email, q.userTickets, remaining).AllValid() then
      left == UintSub(remaining, q.userTickets)
      && records == bookings + [MakeBooking(q.userTickets, q.firstName, q.lastName, q.email)]
    else
      left == remaining && records == bookings
  }

  /** Taking request `k` advances the session by one: it ends there when the request sold out the pool. */
  lemma SessionAdvance(requests: seq<Request>, k: nat, remaining: Uint, bookings: seq<Booking>,
                       left: Uint, records: seq<Booking>, soldOut: bool)
    requires k < |requests|
    requires Stepped(requests[k], remaining, bookings, left, records)
    requires soldOut <==> left == 0 && |records| > |bookings|
    ensures soldOut ==>
      Later(Session(remaining, bookings, requests[k..]), k) == SessionResult(left, records, k + 1, true)
    ensures !soldOut ==>
      Later(Session(remaining, bookings, requests[k..]), k) == Later(Session(left, records, requests[k + 1..]), k + 1)
  {
    var rest := requests[k..];
    assert rest[0] == requests[k] && rest[1..] == requests[k + 1..];
  }

  /**
   * The loop of `main` over the requests the console supplies, in order: it stops after the
   * booking that empties the pool, or when the requests run out.
   */
  method RunSession(ledger: Ledger, requests: seq<Request>) returns (consumed: nat, soldOut: bool)
    requires SessionInvariant(ledger) && ledger.remainingTickets > 0
    modifies ledger
    ensures Session(old(ledger.remainingTickets), old(ledger.bookings), requests)
         == SessionResult(ledger.remainingTickets, ledger.bookings, consumed, soldOut)
    ensures consumed <= |requests| && (!soldOut ==> consumed == |requests|)
    ensures soldOut <==> ledger.remainingTickets == 0
    ensures SessionInvariant(ledger)
    ensures |ledger.bookings| <= ConferenceTickets
  {
    consumed, soldOut := 0, false;
    while consumed < |requests| && !soldOut
      invariant SessionInvariant(ledger)
      invariant consumed <= |requests|
      invariant soldOut ==>
        Session(old(ledger.remainingTickets), old(ledger.bookings), requests)
          == SessionResult(ledger.remainingTickets, ledger.bookings, consumed, true)
      invariant !soldOut ==> ledger.remainingTickets > 0
      invariant !soldOut ==>
        Session(old(ledger.remainingTickets), old(ledger.bookings), requests)
          == Later(Session(ledger.remainingTickets, ledger.bookings, requests[consumed..]), consumed)
      decreases |requests| - consumed
    {
      ghost var remaining, bookings := ledger.remainingTickets, ledger.bookings;
      var outcome := SessionStep(ledger, requests[consumed]);
      SessionAdvance(requests, consumed, remaining, bookings, ledger.remainingTickets, ledger.bookings,
                     outcome.Booked? && outcome.soldOut);
      consumed := consumed + 1;
      if outcome.Booked? && outcome.soldOut {
        soldOut := true;
      }
    }
    if !soldOut {
      assert requests[consumed..] == [];
    }
    AtMostCapacityBookings(ledger);
  }
}
