/**
 * Example sessions of the booking app, replayed on the model: a first booking from a full
 * pool (in general, and for Jane Doe's five tickets), a request larger than the pool, a
 * booking that empties the pool, and a session whose first request takes the whole pool.
 */
module Scenarios {
  import opened GoStrings
  import opened Helper
  import opened BookingApp

  /** The sample guest's names need no trimming and pass the name rule. */
  lemma JaneNamesValid()
    ensures ValidName(TrimSpace("Jane")) && ValidName(TrimSpace("Doe"))
  {
    TrimSpaceOfTrimmed("Jane");
    TrimSpaceOfTrimmed("Doe");
  }

  /** The sample guest's address needs no trimming and matches the e-mail pattern. */
  lemma JaneEmailValid()
    ensures IsValidEmail(TrimSpace("jane@x.co"))
  {
    var mail := "jane@x.co";
    assert mail[0] == 'j' && mail[8] == 'o';
    TrimSpaceOfTrimmed(mail);
    assert mail[4] == '@' && mail[6] == '.';
    assert EmailSplit(mail, 4, 6);
    IsValidEmailCorrect(mail);
  }

  /** The sample guest's request passes every check whenever it fits the pool. */
  lemma JaneRequestAccepted(userTickets: Uint, remainingTickets: Uint)
    requires 0 < userTickets <= remainingTickets
    ensures Validation("Jane", "Doe", "jane@x.co", userTickets, remainingTickets).AllValid()
  {
    JaneNamesValid();
    JaneEmailValid();
  }

  /**
   * An accepted request from a full pool (the sample guest's five tickets, say): the booking
   * goes through, the pool drops by the request, and the guest's first name is the one listed.
   */
  method FirstBooking(request: Request) returns (ledger: Ledger, outcome: Outcome)
    requires Validation(request.firstName, request.lastName, request.email, request.userTickets, 50).AllValid()
    ensures ledger.Valid()
    ensures outcome == Booked([request.firstName], request.userTickets == 50)
    ensures ledger.remainingTickets == 50 - request.userTickets
  {
    ledger := new Ledger();
    outcome := SessionStep(ledger, request);
    assert |outcome.firstNames| == 1 && outcome.firstNames[0] == request.firstName;
  }

  /** Jane Doe books five tickets from a full pool: 45 remain and "Jane" is the one name listed. */
  method JaneBooking() returns (ledger: Ledger, outcome: Outcome)
    ensures ledger.Valid()
    ensures ledger.remainingTickets == 45
    ensures outcome == Booked(["Jane"], false)
  {
    JaneRequestAccepted(5, 50);
    ledger, outcome := FirstBooking(Request("Jane", "Doe", "jane@x.co", 5));
  }

  /**
   * A request for more than the three tickets left: the ticket rule fails and the pool stays
   * at three. The loop of `main` shows only the generic ticket message of
   * `displayValidationErrors`; `errors` is what the detailed validator, which the loop does
   * not call, reports for the same request: not enough tickets.
   */
  method OversizedRequest(request: Request) returns (ledger: Ledger, outcome: Outcome, errors: seq<string>)
    requires request.userTickets > 3
    ensures ledger.Valid()
    ensures outcome.Rejected? && !outcome.checks.ticketValid
    ensures NotEnoughTicketsError in errors && ZeroTicketsError !in errors
    ensures ledger.remainingTickets == 3
  {
    ledger := new Ledger();
    ledger.BookTickets(47, "Early", "Bird", "early@bird.org");
    outcome := SessionStep(ledger, request);
    var _, _, _, report := ValidateUserInputsDetailed(request.firstName, request.lastName, request.email,
                                                      request.userTickets, ledger.remainingTickets);
    errors := report;
  }

  /**
   * An accepted request for the last two tickets: the booking goes through, empties the
   * pool and ends the session.
   */
  method LastTickets(request: Request) returns (ledger: Ledger, outcome: Outcome)
    requires request.userTickets == 2
    requires Validation(request.firstName, request.lastName, request.email, 2, 2).AllValid()
    ensures ledger.Valid()
    ensures outcome.Booked? && outcome.soldOut
    ensures ledger.remainingTickets == 0
  {
    ledger := new Ledger();
    ledger.BookTickets(48, "Early", "Bird", "early@bird.org");
    outcome := SessionStep(ledger, request);
  }

  /**
   * A session whose first request is accepted for the whole pool ends right after it, sold out,
   * with that one booking, whatever requests follow.
   */
  lemma WholePoolSession(request: Request, later: seq<Request>)
    requires request.userTickets == 50
    requires Validation(request.firstName, request.lastName, request.email, 50, 50).AllValid()
    ensures Session(50, [], [request] + later)
         == SessionResult(0, [MakeBooking(50, request.firstName, request.lastName, request.email)], 1, true)
  {
  }
}
