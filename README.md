# Conference booking app — a Dafny model

This project models the core of a command-line conference-ticket booking program
written in Go. The program has two parts:

- The validator in `helper/helper.go`. It checks a first name, a last name, an
  e-mail address and a ticket count against the tickets that remain. Names are
  trimmed and must have at least two characters, each an ASCII letter or a space.
  An address is trimmed, must have at least five characters, and must match
  `^[a-zA-Z0-9._%+-]+@[a-zA-Z0-9.-]+\.[a-zA-Z]{2,}$`. A ticket count must be
  positive and no larger than the remaining stock. A detailed variant also builds
  the list of error messages, in a fixed order.
- The booking ledger and the session loop in `main.go`. Two globals hold the state:
  the remaining tickets (initially the capacity, 50) and the list of booking records.
  `bookTickets` subtracts from the pool and appends a record. Two helpers project first
  names out of the records and out of free-form strings. The loop in `main` validates
  each request, books it when every check passes, and stops when the pool reaches zero.

Modules:

- `GoStrings` (`gostrings.dfy`) models the two `strings` functions that the validator
  and `getFirstNames` use. `TrimSpace` and `Fields` are defined over ASCII white space.
- `Strconv` (`strconv.dfy`) models `strconv.FormatUint(n, 10)`. It also defines the
  value of a decimal numeral, which is its inverse.
- `Helper` (`helper.dfy`) models `helper/helper.go`. `IsValidName` is a method with
  the source's loop and early return. The e-mail regular expression is written as
  the predicate `MatchesEmailPattern`: some split of the string fits
  local part + `@` + domain + `.` + top-level domain. The search-free matcher
  `MatchEmailPattern` is proved to decide exactly that language. Both validation
  routines are methods, because they call `IsValidName`. Each is proved to return the
  verdicts of the function `Validation`, so the two routines agree.
- `BookingApp` (`booking.dfy`) models `main.go`. The class `Ledger` holds the two
  globals. Its invariant says that the remaining tickets plus the tickets in the
  records equal the capacity. `SessionStep` is one iteration of the loop in `main`.
  `RunSession` is the loop over a finite sequence of requests. It is proved equal to
  the function `Session`, which folds the validate-and-book step over the requests and
  ends after the booking that leaves the pool at 0.
- `Scenarios` (`scenarios.dfy`) replays example sessions on the model. They cover any
  accepted request from a full pool, and its instance Jane Doe booking five tickets
  (`JaneBooking`: 45 remain, "Jane" listed). They also cover any request for more than
  the three tickets left, an accepted request for the last two tickets, and a session
  whose first request is accepted for all 50 tickets.

A few things in the code are worth knowing. The model follows the code in each case.

- Every string the e-mail pattern accepts has at least six characters. So the
  five-character guard in `IsValidEmail` never decides the answer, and "a@b.c"
  (which the guard's comment calls the minimum) is rejected.
- In `ValidateUserInputsDetailed` a failed ticket check with a non-zero count always
  has more tickets than remain. The `else if userTickets > remainingTickets` test is
  therefore always true when it is reached, and exactly one ticket message is added.
- `ValidateUserInputs` does not call `IsValidTicketCount`. It writes out the same
  expression instead.
- The loop validates the trimmed fields but books the untrimmed ones.
- `bookTickets` (main.go:102) returns nothing. The record it appends is visible only
  through `bookings`.

## Model

| member | source | states |
|---|---|---|
| GoStrings.TrimSpace | helper/helper.go:11-13 | the trimmed string is no longer than the input and is empty or starts and ends with a non-space character (TrimSpaceIsSlice pins it down completely) |
| GoStrings.TrimSpaceIsSlice | helper/helper.go:11-13 | trimming keeps one contiguous slice of the input. Only white space is cut off before and after it, and the result is empty or starts and ends with a non-space character |
| GoStrings.TrimSpaceEmpty | helper/helper.go:11-13 | trimming yields the empty string exactly when the input is all white space |
| GoStrings.TrimSpaceOfTrimmed | helper/helper.go:66-68 | a string with no white space at either end is left unchanged |
| GoStrings.TrimSpaceIdempotent | helper/helper.go:66-68 | trimming twice gives the same result as trimming once |
| GoStrings.Fields | main.go:138 | every field is non-empty and contains no white space; there are no fields exactly when the string is all white space |
| GoStrings.FirstField | main.go:138-140 | for a non-blank string, the first field is the run of non-space characters that starts after the leading white space and ends at the next space or at the end |
| Strconv.FormatUint | main.go:109 | the rendering is a non-empty string of decimal digits, with no leading zero unless the number is 0 |
| Strconv.DecimalValueOfFormatUint | main.go:109 | reading back the stored ticket count gives the number it was written from |
| Strconv.FormatUintInjective | main.go:109 | different ticket counts are stored as different strings |
| Helper.UintSub | main.go:103 | `uint` subtraction is exact when the subtrahend is not larger, and otherwise wraps modulo 2^64 |
| Helper.IsValidName | helper/helper.go:28-41 | true exactly when the name has at least two characters and each one is an ASCII letter or a space; always false below two characters |
| Helper.MatchEmailPattern | helper/helper.go:50-51 | a string it accepts has at least six characters and ends in two letters (MatchEmailPatternCorrect: it accepts exactly the pattern's language) |
| Helper.IsValidEmail | helper/helper.go:44-54 | false below five characters, and otherwise the pattern match; since every match has six or more characters, the verdict always equals the pattern match (IsValidEmailCorrect states it against the pattern's language) |
| Helper.EmailSplitUnique | helper/helper.go:50 | a split that fits the pattern is unique: its '@' is the first '@' and its dot is the last '.' |
| Helper.MatchEmailPatternCorrect | helper/helper.go:50-51 | the search-free matcher accepts exactly the strings in the pattern's language |
| Helper.IsValidEmailCorrect | helper/helper.go:44-54 | IsValidEmail accepts exactly the strings of at least five characters that match the pattern |
| Helper.PatternMinimumLength | helper/helper.go:45-50 | every string that matches the pattern has at least six characters |
| Helper.EmailLengthGuardRedundant | helper/helper.go:45-53 | the five-character guard never changes the answer: IsValidEmail equals the pattern match |
| Helper.AcceptedEmailShape | helper/helper.go:44-54 | an accepted address has exactly one '@', at least one character before it, and ends in '.' followed by two or more ASCII letters |
| Helper.ShortestEmailAccepted | helper/helper.go:50 | "a@b.co" is accepted |
| Helper.SampleEmailAccepted | helper/helper.go:84 | "user@example.com", the example in the error message, is accepted |
| Helper.EmailExamplesRejected | helper/helper.go:45-53 | "", "a@b" and "a@b.c" are rejected |
| Helper.IsValidTicketCount | helper/helper.go:57-59 | false for zero tickets and for more than remain; true for any count from one up to the remaining tickets |
| Helper.ValidationIgnoresSurroundingSpace | helper/helper.go:10-13 | the verdicts for padded fields equal the verdicts for the trimmed fields |
| Helper.AcceptedRequestFits | helper/helper.go:15-22 | an accepted request asks for between one ticket and all the remaining ones; its trimmed names have at least two characters and its trimmed address at least six |
| Helper.ValidateUserInputs | helper/helper.go:9-25 | the name verdict is the conjunction of both trimmed-name checks, the e-mail verdict is the check of the trimmed address, and the ticket verdict is the bound check |
| Helper.MessagesDistinct | helper/helper.go:74-93 | the five error messages are pairwise different |
| Helper.ErrorListMembers | helper/helper.go:71-95 | each message is in the list exactly when its rule fails: the zero-ticket message exactly for zero tickets, the not-enough message exactly for more than remain; the list is empty exactly when every rule passes |
| Helper.ErrorListOrdered | helper/helper.go:71-95 | the list has at most four entries, all known messages, in strictly increasing order: first name, last name, e-mail, tickets |
| Helper.DetailedReport | helper/helper.go:62-97 | a list built rule by rule from the trimmed fields has every property of the detailed report |
| Helper.ValidateUserInputsDetailed | helper/helper.go:62-97 | returns the same three verdicts as ValidateUserInputs; its error list is empty exactly when all three pass, holds at most four messages in the fixed order, and holds each message exactly when its rule fails |
| BookingApp.MakeBooking | main.go:105-109 | the record holds the given names and address, and a ticket count that reads back as the requested number |
| BookingApp.TicketsSoldAppend | main.go:111 | appending a record adds its ticket count to the total the records account for |
| BookingApp.BookingsAtMostTicketsSold | main.go:29-45 | when every record is for at least one ticket, there are no more records than tickets sold |
| BookingApp.AtMostCapacityBookings | main.go:14-17 | under the session invariant there are at most 50 bookings |
| BookingApp.Ledger.constructor | main.go:14-17 | the pool starts at the capacity of 50 with no bookings, and the ledger invariant holds |
| BookingApp.Ledger.BookTickets | main.go:102-111 | the pool becomes the `uint` difference and exactly one record is appended at the end; when the request fits the pool, the invariant `remaining + sold == 50` is kept |
| BookingApp.Ledger.GetFirstNamesFromBookings | main.go:123-131 | one name per booking, the i-th being the i-th booking's first name |
| BookingApp.Ledger.TicketsSoldFigure | main.go:156 | capacity minus remaining equals the tickets the records account for, and is at most 50 |
| BookingApp.FirstFields | main.go:134-145 | at most one name per entry; each name is non-empty and has no white space |
| BookingApp.FirstFieldsCount | main.go:134-145 | exactly one name per non-blank entry |
| BookingApp.GetFirstNames | main.go:134-145 | the loop returns the first field of each non-blank entry, in order, with blank entries skipped |
| BookingApp.SessionStep | main.go:27-48 | books exactly when all three verdicts pass. A booking takes between one and all remaining tickets, appends the record and reports sold out exactly when the pool is 0. A rejection returns the verdicts and changes nothing. The invariants are kept |
| BookingApp.Session | main.go:26-49 | the session takes at most all the requests, and every one of them unless it sold out. Starting from a non-empty pool it sells out exactly when the pool ends at 0. The pool never grows, records are only appended, and there is at most one record per request taken |
| BookingApp.SessionConservesTickets | main.go:29-34 | a session only moves tickets from the pool into records: the pool plus the tickets sold is the same at the end as at the start |
| BookingApp.SessionAdvance | main.go:27-45 | taking one request advances the session by one. The session ends there exactly when that request was booked and left the pool at 0 |
| BookingApp.RunSession | main.go:26-49 | the final pool, records, number of requests taken and sold-out flag are exactly those of `Session` on the initial pool, records and requests: each request is validated and booked as in `SessionStep`, and the loop stops right after the booking that empties the pool. It keeps `remaining + sold == 50` and the positive-count invariant, and there are at most 50 bookings |
| Scenarios.JaneNamesValid | helper/helper.go:11-16 | "Jane" and "Doe" pass the name rule after trimming |
| Scenarios.JaneEmailValid | helper/helper.go:13-19 | "jane@x.co" passes the e-mail rule after trimming |
| Scenarios.JaneRequestAccepted | helper/helper.go:9-25 | the request Jane / Doe / jane@x.co passes every check for any count from one up to the remaining tickets |
| Scenarios.FirstBooking | main.go:14-49 | from a fresh ledger, an accepted request is booked. The pool drops to 50 minus the count, the listed first names are exactly the requester's, and the session is sold out only for 50 tickets |
| Scenarios.JaneBooking | main.go:26-39 | Jane / Doe / jane@x.co booking five tickets from a fresh ledger leaves 45 tickets, lists exactly "Jane" and does not sell out |
| Scenarios.OversizedRequest | main.go:26-48 | with three tickets left, a larger request is rejected on the ticket rule and the pool stays at three. The detailed validator, which the loop does not call, would report the not-enough message and not the zero-tickets one. The loop itself shows only the generic ticket message |
| Scenarios.LastTickets | main.go:26-45 | with two tickets left, an accepted request for two is booked, empties the pool and reports sold out |
| Scenarios.WholePoolSession | main.go:29-45 | a session whose first request is accepted for all 50 tickets ends right after it, sold out, holding just that booking, whatever requests follow |

## Left out

- Console input and output are not modelled. This covers `greetUsers`, `getUserInput`, `displayValidationErrors`, the printing in `displayBookingSummary`, the `%T` line, the separator lines drawn with `strings.Repeat` (main.go:58, main.go:119) and every print in `bookTickets` and in the loop. A request is a parameter of `SessionStep`, and `RunSession` takes a sequence of requests.
- RunSession: the unbounded loop of `main` is modelled over a finite sequence of requests. A console that never sells out makes the loop run forever, and that run is not modelled.
- `sendTicket` and its goroutine are not modelled. It sleeps, prints and touches no shared state. Concurrency is outside the model.
- The regular-expression engine is not modelled. The one fixed pattern is written as an explicit predicate on the string.
- TrimSpace and Fields treat only ASCII white space as white space: space, tab, line feed, vertical tab, form feed and carriage return. Go's versions also treat Unicode spaces such as U+0085 and U+00A0 as white space.
- IsValidName: Go measures the length in bytes and iterates over runes, while the model counts characters. Any non-ASCII character makes both reject, so the results are the same.
- A booking record is a typed datatype instead of a `map[string]string`.
- Helper.Uint assumes that Go's `uint` is 64 bits wide, as on 64-bit platforms.
- BookTickets requires the ledger invariant and keeps it when the request fits the pool. Validation guarantees that at its only call site (main.go:29-34). A request larger than the pool wraps the `uint` subtraction and breaks the invariant.
