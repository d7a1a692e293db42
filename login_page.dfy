/** The login page's form: its client-side validation, the gate in front of
    the login request, and the way typing clears messages. */
module LoginPage {
  import opened Common
  import opened Text

  datatype LoginData = LoginData(email: string, password: string)

  /** One message per field; "" means no message. */
  datatype LoginErrors = LoginErrors(email: string, password: string)

  datatype LoginField = EmailField | PasswordField

  /** `/\S+@\S+/` finds a match with its `@` at index `b`. */
  predicate AtSignAt(s: string, b: int) {
    && 1 <= b && b + 1 < |s| && s[b] == '@'
    && !IsWhitespace(s[b - 1]) && !IsWhitespace(s[b + 1])
  }

  /** `/\S+@\S+/.test(s)`: an `@` with a non-space character on each side. */
  predicate LoginEmailShape(s: string) {
    exists b :: 1 <= b < |s| && AtSignAt(s, b)
  }

  function EmailMessage(email: string): (m: string)
    ensures email == "" ==> m == "Email is required."
    ensures email != "" && !LoginEmailShape(email) ==> m == "Invalid email format."
    ensures m == "" <==> LoginEmailShape(email)
  {
    if email == "" then "Email is required."
    else if !LoginEmailShape(email) then "Invalid email format."
    else ""
  }

  /** Only presence is checked: there is no length rule at login. */
  function PasswordMessage(password: string): (m: string)
    ensures m == "" <==> password != ""
    ensures m != "" ==> m == "Password is required."
  {
    if password == "" then "Password is required." else ""
  }

  /** What the form may send: a plausible email and some password. */
  predicate Ready(form: LoginData) {
    LoginEmailShape(form.email) && form.password != ""
  }

  /** `handleChange`: the edited field takes the value, and only its message
      is cleared. */
  function Edit(form: LoginData, field: LoginField, value: string): (r: LoginData)
    ensures field == EmailField ==> r == LoginData(value, form.password)
    ensures field == PasswordField ==> r == LoginData(form.email, value)
  {
    match field
    case EmailField => form.(email := value)
    case PasswordField => form.(password := value)
  }

  function ClearMessage(errors: LoginErrors, field: LoginField): (r: LoginErrors)
    ensures field == EmailField ==> r == LoginErrors("", errors.password)
    ensures field == PasswordField ==> r == LoginErrors(errors.email, "")
  {
    match field
    case EmailField => errors.(email := "")
    case PasswordField => errors.(password := "")
  }

  /** A one-character password passes the login form, which would fail the
      registration form's eight-character rule. */
  lemma ShortPasswordAccepted(email: string)
    requires LoginEmailShape(email)
    ensures Ready(LoginData(email, "x"))
  {
  }

  /** The page's state: the form, the field messages and the server's
      message. */
  class LoginForm {
    var form: LoginData
    var errors: LoginErrors
    var serverError: string

    constructor ()
      ensures form == LoginData("", "") && errors == LoginErrors("", "") && serverError == ""
    {
      form := LoginData("", "");
      errors := LoginErrors("", "");
      serverError := "";
    }

    /** `validate`: both fields are checked, each message is recorded, and
        the answer is whether both are empty. */
    method Validate() returns (valid: bool)
      modifies this
      ensures form == old(form) && serverError == old(serverError)
      ensures errors == LoginErrors(EmailMessage(form.email), PasswordMessage(form.password))
      ensures valid <==> errors == LoginErrors("", "")
      ensures valid <==> Ready(form)
    {
      valid := true;
      var newErrors := LoginErrors("", "");
      if form.email == "" {
        newErrors := newErrors.(email := "Email is required.");
        valid := false;
      } else if !LoginEmailShape(form.email) {
        newErrors := newErrors.(email := "Invalid email format.");
        valid := false;
      }
      if form.password == "" {
        newErrors := newErrors.(password := "Password is required.");
        valid := false;
      }
      errors := newErrors;
    }

    /** `handleChange`: the field takes the value, its message and the
        server's message are cleared. */
    method HandleChange(field: LoginField, value: string)
      modifies this
      ensures form == Edit(old(form), field, value)
      ensures errors == ClearMessage(old(errors), field)
      ensures serverError == ""
    {
      form := Edit(form, field, value);
      errors := ClearMessage(errors, field);
      serverError := "";
    }

    /** The gate in `handleLogin`: the request carries the form, and it is
        sent only when validation passes. */
    method HandleLogin() returns (request: Option<LoginData>)
      modifies this
      ensures form == old(form) && serverError == old(serverError)
      ensures errors == LoginErrors(EmailMessage(form.email), PasswordMessage(form.password))
      ensures request.Some? <==> Ready(form)
      ensures request.Some? ==> request.value == form
    {
      var valid := Validate();
      if !valid {
        return None;
      }
      request := Some(form);
    }
  }
}
