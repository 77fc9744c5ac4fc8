/**
 * Credential helpers: the e-mail and password checks used by the sign-up
 * form, and the session queries and logout over the client's token store.
 */
module Auth {
  import opened Wrappers
  import opened Text
  import Http

  // ---------------------------------------------------------------- e-mail

  /** A character of the class `[^\s@]`. */
  predicate Plain(c: char) {
    !IsWhitespace(c) && c != '@'
  }

  predicate AllPlain(s: string) {
    forall i :: 0 <= i < |s| ==> Plain(s[i])
  }

  /**
   * `^[^\s@]+@[^\s@]+\.[^\s@]+$` read as a decomposition: a non-empty run of
   * plain characters, `@` at index `at`, a non-empty run, `.` at index `dot`,
   * and a non-empty run to the end.
   */
  ghost predicate MatchesAt(s: string, at: int, dot: int) {
    && 0 < at && at + 1 < dot && dot + 1 < |s|
    && s[at] == '@' && s[dot] == '.'
    && AllPlain(s[..at]) && AllPlain(s[at + 1..dot]) && AllPlain(s[dot + 1..])
  }

  ghost predicate MatchesEmailPattern(s: string) {
    exists at, dot :: MatchesAt(s, at, dot)
  }

  /** The index of the first `c` in `s`, or `|s|` when there is none. */
  function IndexOf(s: string, c: char): (r: nat)
    ensures r <= |s|
    ensures r < |s| ==> s[r] == c
    ensures forall j :: 0 <= j < r ==> s[j] != c
    decreases |s|
  {
    if s == [] then 0 else if s[0] == c then 0 else 1 + IndexOf(s[1..], c)
  }

  /** A `.` that is neither the first nor the last character. */
  predicate HasInnerDot(d: string) {
    exists k :: 0 < k < |d| - 1 && d[k] == '.'
  }

  /** `isValidEmail`: one `@` with plain text on both sides, and the part after it has an inner `.`. */
  predicate IsValidEmail(email: string)
    ensures IsValidEmail(email) ==> |email| >= 5
  {
    var at := IndexOf(email, '@');
    && 0 < at < |email|
    && AllPlain(email[..at])
    && AllPlain(email[at + 1..])
    && HasInnerDot(email[at + 1..])
  }

  /** `isValidEmail` accepts exactly the strings the regular expression matches. */
  lemma IsValidEmailMatchesPattern(email: string)
    ensures IsValidEmail(email) <==> MatchesEmailPattern(email)
  {
    if IsValidEmail(email) {
      ValidEmailMatches(email);
    }
    if MatchesEmailPattern(email) {
      var at, dot :| MatchesAt(email, at, dot);
      MatchIsValidEmail(email, at, dot);
    }
  }

  lemma ValidEmailMatches(email: string)
    requires IsValidEmail(email)
    ensures MatchesEmailPattern(email)
  {
    var at := IndexOf(email, '@');
    var d := email[at + 1..];
    var k :| 0 < k < |d| - 1 && d[k] == '.';
    var dot := at + 1 + k;
    assert email[at + 1..dot] == d[..k];
    assert email[dot + 1..] == d[k + 1..];
    assert MatchesAt(email, at, dot);
  }

  lemma MatchIsValidEmail(email: string, at: int, dot: int)
    requires MatchesAt(email, at, dot)
    ensures IsValidEmail(email)
  {
    assert IndexOf(email, '@') == at;
    var d := email[at + 1..];
    var k := dot - (at + 1);
    assert d[k] == '.';
    assert HasInnerDot(d);
    forall i | 0 <= i < |d| ensures Plain(d[i]) {
      if i < k {
        assert d[i] == email[at + 1..dot][i];
      } else if i > k {
        assert d[i] == email[dot + 1..][i - k - 1];
      }
    }
  }

  /** How many times `c` occurs in `s`. */
  function Count(s: string, c: char): nat
    decreases |s|
  {
    if s == [] then 0 else (if s[0] == c then 1 else 0) + Count(s[1..], c)
  }

  lemma {:induction false} CountAbsent(s: string, c: char)
    requires forall i :: 0 <= i < |s| ==> s[i] != c
    ensures Count(s, c) == 0
    decreases |s|
  {
    if s != [] {
      CountAbsent(s[1..], c);
    }
  }

  lemma {:induction false} CountAppend(a: string, b: string, c: char)
    ensures Count(a + b, c) == Count(a, c) + Count(b, c)
    decreases |a|
  {
    if a != [] {
      assert (a + b)[0] == a[0];
      assert (a + b)[1..] == a[1..] + b;
      CountAppend(a[1..], b, c);
    } else {
      assert a + b == b;
    }
  }

  /** An accepted e-mail has exactly one `@`. */
  lemma ValidEmailOneAt(email: string)
    requires IsValidEmail(email)
    ensures Count(email, '@') == 1
  {
    var at := IndexOf(email, '@');
    var before, after := email[..at], email[at + 1..];
    assert email == before + [email[at]] + after;
    CountAbsent(before, '@');
    CountAbsent(after, '@');
    CountAppend(before + [email[at]], after, '@');
    CountAppend(before, [email[at]], '@');
  }

  /** An accepted e-mail has no whitespace. */
  lemma ValidEmailNoWhitespace(email: string)
    requires IsValidEmail(email)
    ensures forall i :: 0 <= i < |email| ==> !IsWhitespace(email[i])
  {
    var at := IndexOf(email, '@');
    forall i | 0 <= i < |email| ensures !IsWhitespace(email[i]) {
      if i < at {
        assert email[i] == email[..at][i];
      } else if i > at {
        assert email[i] == email[at + 1..][i - at - 1];
      }
    }
  }

  /**
   * For a string with exactly one `@` and no whitespace, `isValidEmail` holds
   * exactly when the part before the `@` is non-empty and the part after it
   * has a `.` that is neither its first nor its last character.
   */
  lemma ValidEmailParts(email: string)
    requires Count(email, '@') == 1
    requires forall i :: 0 <= i < |email| ==> !IsWhitespace(email[i])
    ensures IsValidEmail(email) <==>
              var at := IndexOf(email, '@'); 0 < at < |email| && HasInnerDot(email[at + 1..])
  {
    var at := IndexOf(email, '@');
    if at == |email| {
      CountAbsent(email, '@');
    } else {
      NoSecondAt(email);
      var domain := email[at + 1..];
      forall i | 0 <= i < |domain| ensures Plain(domain[i]) {
        assert domain[i] == email[at + 1 + i];
      }
    }
  }

  /** With exactly one `@`, nothing after the first `@` is another `@`. */
  lemma NoSecondAt(email: string)
    requires Count(email, '@') == 1 && IndexOf(email, '@') < |email|
    ensures forall i :: IndexOf(email, '@') < i < |email| ==> email[i] != '@'
  {
    var at := IndexOf(email, '@');
    var before, after := email[..at], email[at + 1..];
    assert email == before + [email[at]] + after;
    CountAbsent(before, '@');
    CountAppend(before + [email[at]], after, '@');
    CountAppend(before, [email[at]], '@');
    NoCountNoOccurrence(after, '@');
    forall i | at < i < |email| ensures email[i] != '@' {
      assert email[i] == after[i - at - 1];
    }
  }

  lemma {:induction false} NoCountNoOccurrence(s: string, c: char)
    requires Count(s, c) == 0
    ensures forall i :: 0 <= i < |s| ==> s[i] != c
    decreases |s|
  {
    if s != [] {
      NoCountNoOccurrence(s[1..], c);
      assert forall i :: 1 <= i < |s| ==> s[i] == s[1..][i - 1];
    }
  }

  // -------------------------------------------------------------- password

  /** `validatePassword`'s result: `isValid`, and a message when the check fails. */
  datatype PasswordCheck = PasswordCheck(isValid: bool, message: Option<string>)

  const TooShortMessage := "Password must be at least 8 characters long"
  const NoLowercaseMessage := "Password must contain at least one lowercase letter"
  const NoUppercaseMessage := "Password must contain at least one uppercase letter"
  const NoDigitMessage := "Password must contain at least one number"
  const MinPasswordLength := 8

  predicate HasLower(s: string) { exists i :: 0 <= i < |s| && IsAsciiLower(s[i]) }
  predicate HasUpper(s: string) { exists i :: 0 <= i < |s| && IsAsciiUpper(s[i]) }
  predicate HasDigit(s: string) { exists i :: 0 <= i < |s| && IsDigit(s[i]) }

  /** `validatePassword`: length, then a lower-case letter, then an upper-case letter, then a digit; the first check that fails reports. */
  function ValidatePassword(password: string): (r: PasswordCheck)
    ensures r.isValid <==> r.message.None?
    ensures !r.isValid ==>
              r.message.value in {TooShortMessage, NoLowercaseMessage, NoUppercaseMessage, NoDigitMessage}
  {
    if |password| < MinPasswordLength then PasswordCheck(false, Some(TooShortMessage))
    else if !HasLower(password) then PasswordCheck(false, Some(NoLowercaseMessage))
    else if !HasUpper(password) then PasswordCheck(false, Some(NoUppercaseMessage))
    else if !HasDigit(password) then PasswordCheck(false, Some(NoDigitMessage))
    else PasswordCheck(true, None)
  }

  /** A password passes exactly when it is long enough and has a lower-case letter, an upper-case letter and a digit. */
  lemma ValidatePasswordIff(password: string)
    ensures ValidatePassword(password).isValid <==>
              |password| >= MinPasswordLength && HasLower(password) && HasUpper(password) && HasDigit(password)
  {
  }

  /**
   * The checks run in a fixed order: a short password gets the length message
   * whatever it contains; otherwise a missing lower-case letter is reported
   * before a missing upper-case letter, and that before a missing digit.
   */
  lemma ValidatePasswordOrder(password: string)
    ensures |password| < MinPasswordLength ==> ValidatePassword(password).message == Some(TooShortMessage)
    ensures |password| >= MinPasswordLength && !HasLower(password) ==>
              ValidatePassword(password).message == Some(NoLowercaseMessage)
    ensures |password| >= MinPasswordLength && HasLower(password) && !HasUpper(password) ==>
              ValidatePassword(password).message == Some(NoUppercaseMessage)
    ensures |password| >= MinPasswordLength && HasLower(password) && HasUpper(password) && !HasDigit(password) ==>
              ValidatePassword(password).message == Some(NoDigitMessage)
  {
  }

  /** `passwordsMatch`: the two entries are the same string. */
  predicate PasswordsMatch(password: string, confirmPassword: string) {
    password == confirmPassword
  }

  /** Matching is reflexive, symmetric and transitive. */
  lemma PasswordsMatchIsEquivalence(a: string, b: string, c: string)
    ensures PasswordsMatch(a, a)
    ensures PasswordsMatch(a, b) ==> PasswordsMatch(b, a)
    ensures PasswordsMatch(a, b) && PasswordsMatch(b, c) ==> PasswordsMatch(a, c)
  {
  }

  // --------------------------------------------------------------- session

  /** `getAccessToken()`: the stored access token, or null when it is missing or empty. */
  function GetAccessToken(client: Http.Client): (r: Option<string>)
    reads client
    ensures r.Some? ==> r.value != "" && client.Get().Some? && client.Get().value.access == r.value
  {
    client.StoredAccess()
  }

  /** `isAuthenticated()`: the stored pair has a non-empty access token. */
  predicate IsAuthenticated(client: Http.Client)
    reads client
  {
    client.Get().Some? && client.Get().value.access != ""
  }

  /** Being authenticated and having an access token to hand out are the same thing. */
  lemma AuthenticatedIffToken(client: Http.Client)
    ensures IsAuthenticated(client) <==> GetAccessToken(client).Some?
  {
  }

  /** `logout()`: the tokens are cleared and the page is sent to the login route. */
  method Logout(client: Http.Client)
    requires client.Valid()
    modifies client
    ensures client.Valid()
    ensures client.stored == None && client.Get() == None && !client.HasRefreshToken()
    ensures !IsAuthenticated(client) && GetAccessToken(client) == None
    ensures client.redirects == old(client.redirects) + 1
    ensures client.isRefreshing == old(client.isRefreshing)
    ensures client.queue == old(client.queue) && client.inFlight == old(client.inFlight)
  {
    client.Clear();
    client.RedirectToLogin();
  }
}
