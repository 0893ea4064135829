/**
 * The validator of the booking app (package `helper`): name, e-mail and ticket-count
 * checks, and the detailed variant that also lists an error message per failed rule.
 */
module Helper {
  import opened GoStrings
  import opened Strconv

  /** One more than the largest value of Go's `uint` on a 64-bit platform. */
  const UintLimit: int := 0x1_0000_0000_0000_0000

  /** Go's `uint` (64 bits). */
  type Uint = x: int | 0 <= x < UintLimit

  /** Go's `a - b` on `uint`: subtraction modulo 2^64, which wraps when `b > a`. */
  function UintSub(a: Uint, b: Uint): (r: Uint)
    ensures b <= a ==> r == a - b
    ensures b > a ==> r == UintLimit - (b - a)
  {
    (a - b) % UintLimit
  }

  // ---------------------------------------------------------------------------
  // Character classes
  // ---------------------------------------------------------------------------

  /** `[a-zA-Z]` */
  predicate IsLetter(c: char) {
    'a' <= c <= 'z' || 'A' <= c <= 'Z'
  }

  /** A character IsValidName accepts: an ASCII letter or a space. */
  predicate NameChar(c: char) {
    IsLetter(c) || c == ' '
  }

  /** The class `[a-zA-Z0-9._%+-]` of the e-mail pattern's local part. */
  predicate LocalChar(c: char) {
    IsLetter(c) || IsDigit(c) || c == '.' || c == '_' || c == '%' || c == '+' || c == '-'
  }

  /** The class `[a-zA-Z0-9.-]` of the e-mail pattern's domain part. */
  predicate DomainChar(c: char) {
    IsLetter(c) || IsDigit(c) || c == '.' || c == '-'
  }

  // ---------------------------------------------------------------------------
  // Names
  // ---------------------------------------------------------------------------

  /** What IsValidName accepts: at least two characters, each a letter or a space. */
  predicate ValidName(name: string) {
    |name| >= 2 && forall i :: 0 <= i < |name| ==> NameChar(name[i])
  }

  /**
   * IsValidName: rejects names shorter than two characters, then scans the name and
   * rejects at the first character that is neither a letter nor a space.
   */
  method IsValidName(name: string) returns (ok: bool)
    ensures ok <==> ValidName(name)
    ensures |name| < 2 ==> !ok
  {
    if |name| < 2 {
      return false;
    }
    for i := 0 to |name|
      invariant forall k :: 0 <= k < i ==> NameChar(name[k])
    {
      var c := name[i];
      if !(('a' <= c <= 'z') || ('A' <= c <= 'Z') || c == ' ') {
        return false;
      }
    }
    return true;
  }

  // ---------------------------------------------------------------------------
  // E-mail addresses
  // ---------------------------------------------------------------------------

  /**
   * `s` splits at position `at` (the '@') and `dot` (the final '.') as the pattern
   * `^[a-zA-Z0-9._%+-]+@[a-zA-Z0-9.-]+\.[a-zA-Z]{2,}$` requires: a non-empty local part,
   * '@', a non-empty domain, '.', and at least two letters up to the end.
   */
  predicate EmailSplit(s: string, at: int, dot: int) {
    && 1 <= at && at + 2 <= dot && dot + 3 <= |s|
    && s[at] == '@' && s[dot] == '.'
    && (forall i :: 0 <= i < at ==> LocalChar(s[i]))
    && (forall i :: at < i < dot ==> DomainChar(s[i]))
    && (forall i :: dot < i < |s| ==> IsLetter(s[i]))
  }

  /** The language of the e-mail pattern: some split of `s` fits it. */
  ghost predicate MatchesEmailPattern(s: string) {
    exists at, dot :: EmailSplit(s, at, dot)
  }

  /** Position of the first `c` in `s`, or `|s|` when there is none. */
  function IndexOf(s: string, c: char): (k: nat)
    ensures k <= |s|
    ensures k < |s| ==> s[k] == c
    ensures forall i :: 0 <= i < k ==> s[i] != c
  {
    if s == [] then 0
    else if s[0] == c then 0
    else 1 + IndexOf(s[1..], c)
  }

  /** Position of the last `c` in `s`, or -1 when there is none. */
  function LastIndexOf(s: string, c: char): (k: int)
    ensures -1 <= k < |s|
    ensures 0 <= k ==> s[k] == c
    ensures forall i :: k < i < |s| ==> s[i] != c
  {
    if s == [] then -1
    else if s[|s| - 1] == c then |s| - 1
    else LastIndexOf(s[..|s| - 1], c)
  }

  /**
   * A split that fits the pattern is unique: the local part has no '@', so the '@' is the
   * first one; the top-level domain has no '.', so the dot is the last one.
   */
  lemma EmailSplitUnique(s: string, at: int, dot: int)
    requires EmailSplit(s, at, dot)
    ensures at == IndexOf(s, '@') && dot == LastIndexOf(s, '.')
  {
    assert forall i :: 0 <= i < at ==> s[i] != '@';
    assert forall i :: dot < i < |s| ==> s[i] != '.';
  }

  /** Matching the e-mail pattern without search: try the first '@' and the last '.'. */
  function MatchEmailPattern(s: string): (r: bool)
    ensures r ==> |s| >= 6 && IsLetter(s[|s| - 2]) && IsLetter(s[|s| - 1])
  {
    EmailSplit(s, IndexOf(s, '@'), LastIndexOf(s, '.'))
  }

  /** The search-free matcher decides exactly the pattern's language. */
  lemma MatchEmailPatternCorrect(s: string)
    ensures MatchEmailPattern(s) <==> MatchesEmailPattern(s)
  {
    if MatchesEmailPattern(s) {
      var a, d :| EmailSplit(s, a, d);
      EmailSplitUnique(s, a, d);
    }
  }

  /** IsValidEmail: at least five characters, and the whole string matches the e-mail pattern. */
  function IsValidEmail(email: string): (r: bool)
    ensures |email| < 5 ==> !r
    ensures r == MatchEmailPattern(email)
  {
    if |email| < 5 then false
    else MatchEmailPattern(email)
  }

  /** IsValidEmail accepts exactly the strings of five or more characters in the pattern's language. */
  lemma IsValidEmailCorrect(email: string)
    ensures IsValidEmail(email) <==> |email| >= 5 && MatchesEmailPattern(email)
  {
    MatchEmailPatternCorrect(email);
  }

  /**
   * An accepted address has exactly one '@' (at `at`), at least one character before it,
   * and ends in a '.' (at `dot`) followed by two or more ASCII letters. It is at least six
   * characters long, so the five-character guard never decides the answer on its own.
   */
  lemma AcceptedEmailShape(email: string) returns (at: nat, dot: nat)
    requires IsValidEmail(email)
    ensures 1 <= at < dot && dot + 3 <= |email| && |email| >= 6
    ensures email[at] == '@'
    ensures forall i :: 0 <= i < |email| && i != at ==> email[i] != '@'
    ensures email[dot] == '.'
    ensures forall i :: dot < i < |email| ==> IsLetter(email[i])
  {
    IsValidEmailCorrect(email);
    var a, d :| EmailSplit(email, a, d);
    at, dot := a, d;
  }

  /** Every string in the pattern's language has at least six characters ("a@b.cd"). */
  lemma PatternMinimumLength(s: string)
    ensures MatchesEmailPattern(s) ==> |s| >= 6
  {
    if MatchesEmailPattern(s) {
      var a, d :| EmailSplit(s, a, d);
    }
  }

  /** The length guard is redundant: IsValidEmail is exactly the pattern match. */
  lemma EmailLengthGuardRedundant(email: string)
    ensures IsValidEmail(email) == MatchEmailPattern(email)
  {
    MatchEmailPatternCorrect(email);
    PatternMinimumLength(email);
  }

  /** The shortest address IsValidEmail accepts: "a@b.co". */
  lemma ShortestEmailAccepted()
    ensures IsValidEmail("a@b.co")
  {
    assert EmailSplit("a@b.co", 1, 3);
    IsValidEmailCorrect("a@b.co");
  }

  /** The sample address of the error message is accepted: "user@example.com". */
  lemma SampleEmailAccepted()
    ensures IsValidEmail("user@example.com")
  {
    var s := "user@example.com";
    assert s[4] == '@' && s[12] == '.';
    assert forall i :: 0 <= i < 4 ==> LocalChar(s[i]);
    assert forall i :: 4 < i < 12 ==> DomainChar(s[i]);
    assert forall i :: 12 < i < 16 ==> IsLetter(s[i]);
    assert EmailSplit(s, 4, 12);
    IsValidEmailCorrect(s);
  }

  /** Addresses it rejects: "", "a@b" (no top-level domain) and "a@b.c" (a one-letter one). */
  lemma EmailExamplesRejected()
    ensures !IsValidEmail("")
    ensures !IsValidEmail("a@b")
    ensures !IsValidEmail("a@b.c")
  {
    PatternMinimumLength("a@b.c");
    IsValidEmailCorrect("a@b.c");
  }


  // ---------------------------------------------------------------------------
  // Ticket counts
  // ---------------------------------------------------------------------------

  /** IsValidTicketCount: at least one ticket and no more than remain. */
  function IsValidTicketCount(userTickets: Uint, remainingTickets: Uint): (r: bool)
    ensures userTickets == 0 ==> !r
    ensures userTickets > remainingTickets ==> !r
    ensures 0 < userTickets <= remainingTickets ==> r
  {
    userTickets > 0 && userTickets <= remainingTickets
  }

  // ---------------------------------------------------------------------------
  // Whole requests
  // ---------------------------------------------------------------------------

  /** The three verdicts of a validation: names, e-mail, ticket count. */
  datatype Checks = Checks(nameValid: bool, emailValid: bool, ticketValid: bool) {
    predicate AllValid() {
      nameValid && emailValid && ticketValid
    }
  }

  /** The verdicts both validation routines must return: each rule applied to the trimmed fields. */
  function Validation(firstName: string, lastName: string, email: string,
                      userTickets: Uint, remainingTickets: Uint): Checks
  {
    Checks(ValidName(TrimSpace(firstName)) && ValidName(TrimSpace(lastName)),
           IsValidEmail(TrimSpace(email)),
           IsValidTicketCount(userTickets, remainingTickets))
  }

  /** Surrounding white space never changes a verdict: validating trimmed fields gives the same answer. */
  lemma ValidationIgnoresSurroundingSpace(firstName: string, lastName: string, email: string,
                                          userTickets: Uint, remainingTickets: Uint)
    ensures Validation(TrimSpace(firstName), TrimSpace(lastName), TrimSpace(email), userTickets, remainingTickets)
         == Validation(firstName, lastName, email, userTickets, remainingTickets)
  {
    TrimSpaceIdempotent(firstName);
    TrimSpaceIdempotent(lastName);
    TrimSpaceIdempotent(email);
    assert ValidName(TrimSpace(TrimSpace(firstName))) == ValidName(TrimSpace(firstName));
    assert ValidName(TrimSpace(TrimSpace(lastName))) == ValidName(TrimSpace(lastName));
    assert IsValidEmail(TrimSpace(TrimSpace(email))) == IsValidEmail(TrimSpace(email));
  }

  /** An accepted request asks for between one ticket and all the remaining ones. */
  lemma AcceptedRequestFits(firstName: string, lastName: string, email: string,
                            userTickets: Uint, remainingTickets: Uint)
    requires Validation(firstName, lastName, email, userTickets, remainingTickets).AllValid()
    ensures 1 <= userTickets <= remainingTickets
    ensures |TrimSpace(firstName)| >= 2 && |TrimSpace(lastName)| >= 2 && |TrimSpace(email)| >= 6
  {
    var _, _ := AcceptedEmailShape(TrimSpace(email));
  }

  /** ValidateUserInputs: trims the three strings and applies the three rules. */
  method ValidateUserInputs(firstName: string, lastName: string, email: string,
                            userTickets: Uint, remainingTickets: Uint)
    returns (isValidName: bool, isValidEmail: bool, isValidTicketNumber: bool)
    ensures Checks(isValidName, isValidEmail, isValidTicketNumber)
         == Validation(firstName, lastName, email, userTickets, remainingTickets)
  {
    var first := TrimSpace(firstName);
    var last := TrimSpace(lastName);
    var mail := TrimSpace(email);

    isValidName := IsValidName(first);
    if isValidName {
      isValidName := IsValidName(last);
    }
    isValidEmail := IsValidEmail(mail);
    isValidTicketNumber := userTickets > 0 && userTickets <= remainingTickets;
  }

  // ---------------------------------------------------------------------------
  // Detailed validation
  // ---------------------------------------------------------------------------

  const FirstNameError: string := "First name must be at least 2 characters and contain only letters"
  const LastNameError: string := "Last name must be at least 2 characters and contain only letters"
  const EmailError: string := "Please enter a valid email address (e.g., user@example.com)"
  const ZeroTicketsError: string := "Number of tickets must be greater than 0"
  const NotEnoughTicketsError: string := "Not enough tickets available"

  /** Position of a message in the fixed reporting order: first name, last name, e-mail, tickets. */
  function Rank(message: string): nat {
    if message == FirstNameError then 0
    else if message == LastNameError then 1
    else if message == EmailError then 2
    else 3
  }

  /** The five messages are pairwise different. */
  lemma MessagesDistinct()
    ensures FirstNameError != LastNameError && FirstNameError != EmailError
    ensures FirstNameError != ZeroTicketsError && FirstNameError != NotEnoughTicketsError
    ensures LastNameError != EmailError && LastNameError != ZeroTicketsError
    ensures LastNameError != NotEnoughTicketsError && EmailError != ZeroTicketsError
    ensures EmailError != NotEnoughTicketsError && ZeroTicketsError != NotEnoughTicketsError
  {
    assert |FirstNameError| == 65 && |LastNameError| == 64 && |EmailError| == 59;
    assert |ZeroTicketsError| == 40 && |NotEnoughTicketsError| == 28;
  }

  /** The message a rule contributes: none when it passed, its own message when it failed. */
  function Report(passed: bool, message: string): seq<string> {
    if passed then [] else [message]
  }

  /** The message the ticket rule contributes. */
  function TicketReport(userTickets: Uint, remainingTickets: Uint): seq<string> {
    if userTickets == 0 then [ZeroTicketsError]
    else if userTickets > remainingTickets then [NotEnoughTicketsError]
    else []
  }

  /** The error list the four rules build, in the order the rules are applied. */
  function ErrorList(firstOk: bool, lastOk: bool, emailOk: bool,
                     userTickets: Uint, remainingTickets: Uint): seq<string>
  {
    Report(firstOk, FirstNameError) + Report(lastOk, LastNameError)
    + Report(emailOk, EmailError) + TicketReport(userTickets, remainingTickets)
  }

  /** Each message is in the error list exactly when its rule failed; nothing else is. */
  lemma ErrorListMembers(firstOk: bool, lastOk: bool, emailOk: bool,
                         userTickets: Uint, remainingTickets: Uint)
    ensures var errors := ErrorList(firstOk, lastOk, emailOk, userTickets, remainingTickets);
      && (errors == [] <==> firstOk && lastOk && emailOk && IsValidTicketCount(userTickets, remainingTickets))
      && (FirstNameError in errors <==> !firstOk)
      && (LastNameError in errors <==> !lastOk)
      && (EmailError in errors <==> !emailOk)
      && (ZeroTicketsError in errors <==> userTickets == 0)
      && (NotEnoughTicketsError in errors <==> userTickets > remainingTickets)
  {
    MessagesDistinct();
    var errors := ErrorList(firstOk, lastOk, emailOk, userTickets, remainingTickets);
    var a, b := Report(firstOk, FirstNameError), Report(lastOk, LastNameError);
    var c, d := Report(emailOk, EmailError), TicketReport(userTickets, remainingTickets);
    assert forall m :: m in errors <==> m in a || m in b || m in c || m in d;
  }

  /** The error list holds at most four known messages, in strictly increasing reporting order. */
  lemma ErrorListOrdered(firstOk: bool, lastOk: bool, emailOk: bool,
                         userTickets: Uint, remainingTickets: Uint)
    ensures var errors := ErrorList(firstOk, lastOk, emailOk, userTickets, remainingTickets);
      && |errors| <= 4
      && (forall i :: 0 <= i < |errors| ==> IsErrorMessage(errors[i]))
      && (forall i, j :: 0 <= i < j < |errors| ==> Rank(errors[i]) < Rank(errors[j]))
  {
    MessagesDistinct();
    assert Rank(FirstNameError) == 0 && Rank(LastNameError) == 1 && Rank(EmailError) == 2;
    assert Rank(ZeroTicketsError) == 3 && Rank(NotEnoughTicketsError) == 3;
  }

  /**
   * What the detailed validation promises of its error list: it is empty exactly when every
   * check passes; it holds at most four known messages in the fixed reporting order; and each
   * message is in it exactly when its rule fails for the trimmed fields.
   */
  predicate DetailedErrors(firstName: string, lastName: string, email: string,
                           userTickets: Uint, remainingTickets: Uint, errors: seq<string>)
  {
    && (errors == [] <==> Validation(firstName, lastName, email, userTickets, remainingTickets).AllValid())
    && |errors| <= 4
    && (forall i :: 0 <= i < |errors| ==> IsErrorMessage(errors[i]))
    && (forall i, j :: 0 <= i < j < |errors| ==> Rank(errors[i]) < Rank(errors[j]))
    && (FirstNameError in errors <==> !ValidName(TrimSpace(firstName)))
    && (LastNameError in errors <==> !ValidName(TrimSpace(lastName)))
    && (EmailError in errors <==> !IsValidEmail(TrimSpace(email)))
    && (ZeroTicketsError in errors <==> userTickets == 0)
    && (NotEnoughTicketsError in errors <==> userTickets > remainingTickets)
  }

  /** A list built from the four rules has every property the detailed validation promises. */
  lemma DetailedReport(firstName: string, lastName: string, email: string,
                       userTickets: Uint, remainingTickets: Uint,
                       firstOk: bool, lastOk: bool, errors: seq<string>)
    requires firstOk == ValidName(TrimSpace(firstName)) && lastOk == ValidName(TrimSpace(lastName))
    requires errors == ErrorList(firstOk, lastOk, IsValidEmail(TrimSpace(email)), userTickets, remainingTickets)
    ensures DetailedErrors(firstName, lastName, email, userTickets, remainingTickets, errors)
  {
    ErrorListMembers(firstOk, lastOk, IsValidEmail(TrimSpace(email)), userTickets, remainingTickets);
    ErrorListOrdered(firstOk, lastOk, IsValidEmail(TrimSpace(email)), userTickets, remainingTickets);
  }

  /** A message ValidateUserInputsDetailed can report. */
  predicate IsErrorMessage(message: string) {
    message == FirstNameError || message == LastNameError || message == EmailError
    || message == ZeroTicketsError || message == NotEnoughTicketsError
  }

  /**
   * ValidateUserInputsDetailed: the same verdicts as ValidateUserInputs, plus one message per
   * failed rule in the fixed order first name, last name, e-mail, tickets; a failed ticket rule
   * reports "greater than 0" for a request of zero and "not enough" otherwise.
   */
  method ValidateUserInputsDetailed(firstName: string, lastName: string, email: string,
                                    userTickets: Uint, remainingTickets: Uint)
    returns (isValidName: bool, isValidEmail: bool, isValidTicketNumber: bool, errors: seq<string>)
    ensures Checks(isValidName, isValidEmail, isValidTicketNumber)
         == Validation(firstName, lastName, email, userTickets, remainingTickets)
    ensures DetailedErrors(firstName, lastName, email, userTickets, remainingTickets, errors)
  {
    errors := [];

    var first := TrimSpace(firstName);
    var last := TrimSpace(lastName);
    var mail := TrimSpace(email);

    isValidName := true;
    var firstOk := IsValidName(first);
    if !firstOk {
      isValidName := false;
      errors := errors + [FirstNameError];
    }
    var lastOk := IsValidName(last);
    if !lastOk {
      isValidName := false;
      errors := errors + [LastNameError];
    }

    isValidEmail := IsValidEmail(mail);
    if !isValidEmail {
      errors := errors + [EmailError];
    }
    ghost var before := errors;
    assert before == Report(firstOk, FirstNameError) + Report(lastOk, LastNameError)
                   + Report(isValidEmail, EmailError);

    isValidTicketNumber := IsValidTicketCount(userTickets, remainingTickets);
    if !isValidTicketNumber {
      if userTickets == 0 {
        errors := errors + [ZeroTicketsError];
      } else if userTickets > remainingTickets {
        errors := errors + [NotEnoughTicketsError];
      }
    }

    assert errors == before + TicketReport(userTickets, remainingTickets);
    assert errors == ErrorList(firstOk, lastOk, isValidEmail, userTickets, remainingTickets);
    DetailedReport(firstName, lastName, email, userTickets, remainingTickets, firstOk, lastOk, errors);
  }
}
