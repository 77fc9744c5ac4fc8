/** The sign-up page's form: its single-field updates, its ordered validation and the submit decision. */
module Signup {
  import opened Wrappers
  import opened Text
  import opened Auth

  /** The form's fields, as named by the inputs' `name` attributes. */
  datatype Field = Email | Name | Password | PasswordConfirm | BankDetails

  datatype SignupForm = SignupForm(
    email: string,
    password: string,
    password_confirm: string,
    name: string,
    bank_details: string)

  /** The form data and the error banner's text. */
  datatype PageState = PageState(form: SignupForm, error: string)

  const InvalidEmailMessage := "Please enter a valid email address"
  const InvalidPasswordFallback := "Invalid password"
  const MismatchMessage := "Passwords do not match"
  const NameRequiredMessage := "Name is required"

  function FieldValue(form: SignupForm, field: Field): string {
    match field
    case Email => form.email
    case Name => form.name
    case Password => form.password
    case PasswordConfirm => form.password_confirm
    case BankDetails => form.bank_details
  }

  /** `handleInputChange`: the named field takes the typed value, no other field changes, and the error is cleared. */
  function HandleInputChange(state: PageState, field: Field, value: string): (r: PageState)
    ensures FieldValue(r.form, field) == value
    ensures forall other :: other != field ==> FieldValue(r.form, other) == FieldValue(state.form, other)
    ensures r.error == ""
  {
    var f := state.form;
    var form := match field
      case Email => f.(email := value)
      case Name => f.(name := value)
      case Password => f.(password := value)
      case PasswordConfirm => f.(password_confirm := value)
      case BankDetails => f.(bank_details := value);
    PageState(form, "")
  }

  /** `validateForm`: None when the form passes, otherwise the message of the first check that fails, which is never blank. */
  function ValidateForm(form: SignupForm): (r: Option<string>)
    ensures r.Some? ==> r.value != ""
  {
    if !IsValidEmail(form.email) then Some(InvalidEmailMessage)
    else
      var check := ValidatePassword(form.password);
      if !check.isValid then
        Some(if check.message.Some? && check.message.value != "" then check.message.value else InvalidPasswordFallback)
      else if !PasswordsMatch(form.password, form.password_confirm) then Some(MismatchMessage)
      else if Trim(form.name) == "" then Some(NameRequiredMessage)
      else None
  }

  /** The form passes exactly when all four hold: a valid e-mail, a valid password, a matching confirmation and a name with a non-whitespace character. */
  lemma ValidateFormSucceedsIff(form: SignupForm)
    ensures ValidateForm(form).None? <==>
              && MatchesEmailPattern(form.email)
              && |form.password| >= MinPasswordLength
              && HasLower(form.password) && HasUpper(form.password) && HasDigit(form.password)
              && form.password_confirm == form.password
              && !AllWhitespace(form.name)
  {
    IsValidEmailMatchesPattern(form.email);
    ValidatePasswordIff(form.password);
    TrimEmptyIff(form.name);
  }

  /**
   * The checks run e-mail, password, confirmation, name, and the error
   * reported is that of the first one to fail; a password failure reports
   * `validatePassword`'s own message.
   */
  lemma ValidateFormFirstFailure(form: SignupForm)
    ensures !IsValidEmail(form.email) ==> ValidateForm(form) == Some(InvalidEmailMessage)
    ensures IsValidEmail(form.email) && !ValidatePassword(form.password).isValid ==>
              ValidateForm(form) == ValidatePassword(form.password).message
    ensures IsValidEmail(form.email) && ValidatePassword(form.password).isValid &&
            form.password != form.password_confirm ==>
              ValidateForm(form) == Some(MismatchMessage)
    ensures IsValidEmail(form.email) && ValidatePassword(form.password).isValid &&
            form.password == form.password_confirm && AllWhitespace(form.name) ==>
              ValidateForm(form) == Some(NameRequiredMessage)
  {
    TrimEmptyIff(form.name);
  }

  /** The sign-up credentials' bank details are never looked at: changing them cannot change the verdict. */
  lemma BankDetailsIgnored(form: SignupForm, bankDetails: string)
    ensures ValidateForm(form.(bank_details := bankDetails)) == ValidateForm(form)
  {
  }

  /** What `handleSubmit` does after validating. */
  datatype SubmitOutcome = ShowError(message: string) | CallSignup(credentials: SignupForm)

  /** `handleSubmit`: shows the validation error and returns, or calls `signup` with the form data. */
  function HandleSubmit(form: SignupForm): (r: SubmitOutcome)
    ensures r.CallSignup? <==> ValidateForm(form).None?
    ensures r.CallSignup? ==> r.credentials == form
    ensures r.ShowError? ==> Some(r.message) == ValidateForm(form)
  {
    match ValidateForm(form)
    case Some(message) => ShowError(message)
    case None => CallSignup(form)
  }
}
