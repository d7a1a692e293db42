/** The registration page's form: its client-side validation of the four
    fields, the gate in front of the registration request, and the way
    typing clears a message and re-checks the password confirmation. */
module RegisterPage {
  import opened Common
  import opened Text
  import opened Auth
  import LoginPage

  datatype RegisterData = RegisterData(password: string, confirmPassword: string, email: string, name: string)

  /** One message per field; "" means no message. */
  datatype RegisterErrors = RegisterErrors(email: string, password: string, confirmPassword: string, name: string)

  datatype RegisterField = EmailField | NameField | PasswordField | ConfirmField

  const NoErrors: RegisterErrors := RegisterErrors("", "", "", "")
  const Mismatch: string := "Passwords do not match."

  /** `/\S+@\S+\.\S+/` finds a match with its `@` at `b` and its `.` at `d`. */
  predicate DottedAt(s: string, b: int, d: int) {
    && 1 <= b && b + 1 < d && d + 1 < |s|
    && s[b] == '@' && s[d] == '.'
    && !IsWhitespace(s[b - 1]) && !IsWhitespace(s[d + 1])
    && (forall k :: b < k < d ==> !IsWhitespace(s[k]))
  }

  /** `/\S+@\S+\.\S+/.test(s)` */
  predicate RegisterEmailShape(s: string) {
    exists b, d :: 1 <= b < d < |s| && DottedAt(s, b, d)
  }

  function EmailMessage(email: string): (m: string)
    ensures email == "" ==> m == "Email is required."
    ensures email != "" && !RegisterEmailShape(email) ==> m == "Invalid email format."
    ensures m == "" <==> RegisterEmailShape(email)
  {
    if email == "" then "Email is required."
    else if !RegisterEmailShape(email) then "Invalid email format."
    else ""
  }

  function NameMessage(name: string): (m: string)
    ensures m == "" <==> name != ""
    ensures m != "" ==> m == "Full name is required."
  {
    if name == "" then "Full name is required." else ""
  }

  function PasswordMessage(password: string): (m: string)
    ensures password == "" ==> m == "Password is required."
    ensures password != "" && |password| < 8 ==> m == "Password must be at least 8 characters."
    ensures m == "" <==> |password| >= 8
  {
    if password == "" then "Password is required."
    else if |password| < 8 then "Password must be at least 8 characters."
    else ""
  }

  function ConfirmMessage(confirm: string, password: string): (m: string)
    ensures confirm == "" ==> m == "Confirm password is required."
    ensures confirm != "" && confirm != password ==> m == Mismatch
    ensures m == "" <==> confirm != "" && confirm == password
  {
    if confirm == "" then "Confirm password is required."
    else if confirm != password then Mismatch
    else ""
  }

  /** What the form may send: a dotted email, a name, a password of at
      least eight characters, and a matching confirmation. */
  predicate Ready(form: RegisterData) {
    && RegisterEmailShape(form.email)
    && form.name != ""
    && |form.password| >= 8
    && form.confirmPassword == form.password
  }

  /** `handleChange`: the edited field takes the value. */
  function Edit(form: RegisterData, field: RegisterField, value: string): (r: RegisterData)
    ensures field == EmailField ==> r == form.(email := value)
    ensures field == NameField ==> r == form.(name := value)
    ensures field == PasswordField ==> r == form.(password := value)
    ensures field == ConfirmField ==> r == form.(confirmPassword := value)
  {
    match field
    case EmailField => form.(email := value)
    case NameField => form.(name := value)
    case PasswordField => form.(password := value)
    case ConfirmField => form.(confirmPassword := value)
  }

  /** `handleChange`'s three error updates, in order: clear the edited
      field's message; for the confirmation, compare it with the password;
      for the password, compare the confirmation already typed with it. */
  function ErrorsAfterEdit(form: RegisterData, errors: RegisterErrors, field: RegisterField, value: string)
    : (r: RegisterErrors)
    ensures field == EmailField ==> r == errors.(email := "")
    ensures field == NameField ==> r == errors.(name := "")
    ensures field == PasswordField ==> r.password == "" && r.email == errors.email && r.name == errors.name
    ensures field == PasswordField && form.confirmPassword == "" ==> r.confirmPassword == errors.confirmPassword
    ensures field == ConfirmField ==> r == errors.(confirmPassword := if value != form.password then Mismatch else "")
  {
    var cleared := match field
      case EmailField => errors.(email := "")
      case NameField => errors.(name := "")
      case PasswordField => errors.(password := "")
      case ConfirmField => errors.(confirmPassword := "");
    if field == ConfirmField then
      cleared.(confirmPassword := if value != form.password then Mismatch else "")
    else if field == PasswordField && form.confirmPassword != "" then
      cleared.(confirmPassword := if form.confirmPassword != value then Mismatch else "")
    else cleared
  }

  /** After typing in the confirmation, or in the password once a
      confirmation is there, the mismatch message is shown exactly when the
      two differ. */
  lemma EditKeepsMismatchHonest(form: RegisterData, errors: RegisterErrors, field: RegisterField, value: string)
    requires field == ConfirmField || (field == PasswordField && form.confirmPassword != "")
    ensures var after := Edit(form, field, value);
            (ErrorsAfterEdit(form, errors, field, value).confirmPassword == Mismatch
             <==> after.confirmPassword != after.password)
  {
  }

  /** A registration email also passes the login form's check, but not the
      other way round: `a@b` logs in and cannot register. */
  lemma RegisterEmailIsLoginEmail(s: string)
    ensures RegisterEmailShape(s) ==> LoginPage.LoginEmailShape(s)
    ensures LoginPage.LoginEmailShape("a@b") && !RegisterEmailShape("a@b")
  {
    if RegisterEmailShape(s) {
      var b, d :| 1 <= b < d < |s| && DottedAt(s, b, d);
      assert b + 1 < |s| && !IsWhitespace(s[b + 1]);
      assert LoginPage.AtSignAt(s, b);
    }
    assert LoginPage.AtSignAt("a@b", 1);
  }

  /** A form the page sends never meets the backend's confirmation check,
      whatever role the request carries. */
  lemma SentFormPassesConfirmation(users: seq<User>, nextId: int, form: RegisterData, role: string,
                                   hash: string -> string)
    requires Ready(form)
    ensures RegisterReply(users, nextId, [], form.email, form.name, form.password, form.confirmPassword, role, hash)
              != Failed(ConfirmPasswordNotMatch)
  {
  }

  /** The page's state: the form and the field messages. */
  class RegisterForm {
    var formData: RegisterData
    var errors: RegisterErrors

    constructor ()
      ensures formData == RegisterData("", "", "", "") && errors == NoErrors
    {
      formData := RegisterData("", "", "", "");
      errors := NoErrors;
    }

    /** `validate`: every field is checked, with no short cut, each message
        is recorded, and the answer is whether all four are empty. */
    method Validate() returns (valid: bool)
      modifies this
      ensures formData == old(formData)
      ensures errors == RegisterErrors(EmailMessage(formData.email), PasswordMessage(formData.password),
                                       ConfirmMessage(formData.confirmPassword, formData.password),
                                       NameMessage(formData.name))
      ensures valid <==> errors == NoErrors
      ensures valid <==> Ready(formData)
    {
      valid := true;
      var newErrors := NoErrors;
      if formData.email == "" {
        newErrors := newErrors.(email := "Email is required.");
        valid := false;
      } else if !RegisterEmailShape(formData.email) {
        newErrors := newErrors.(email := "Invalid email format.");
        valid := false;
      }
      if formData.name == "" {
        newErrors := newErrors.(name := "Full name is required.");
        valid := false;
      }
      if formData.password == "" {
        newErrors := newErrors.(password := "Password is required.");
        valid := false;
      } else if |formData.password| < 8 {
        newErrors := newErrors.(password := "Password must be at least 8 characters.");
        valid := false;
      }
      if formData.confirmPassword == "" {
        newErrors := newErrors.(confirmPassword := "Confirm password is required.");
        valid := false;
      } else if formData.confirmPassword != formData.password {
        newErrors := newErrors.(confirmPassword := Mismatch);
        valid := false;
      }
      errors := newErrors;
    }

    /** `handleChange` */
    method HandleChange(field: RegisterField, value: string)
      modifies this
      ensures formData == Edit(old(formData), field, value)
      ensures errors == ErrorsAfterEdit(old(formData), old(errors), field, value)
    {
      errors := ErrorsAfterEdit(formData, errors, field, value);
      formData := Edit(formData, field, value);
    }

    /** The gate in `handleRegister`: the request carries the form, and it
        is sent only when validation passes. */
    method HandleRegister() returns (request: Option<RegisterData>)
      modifies this
      ensures formData == old(formData)
      ensures errors == RegisterErrors(EmailMessage(formData.email), PasswordMessage(formData.password),
                                       ConfirmMessage(formData.confirmPassword, formData.password),
                                       NameMessage(formData.name))
      ensures request.Some? <==> Ready(formData)
      ensures request.Some? ==> request.value == formData
    {
      var valid := Validate();
      if !valid {
        return None;
      }
      request := Some(formData);
    }
  }
}
