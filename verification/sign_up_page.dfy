/** The sign-up form's submit handler: the blank check on trimmed fields, then the
    length check on the untrimmed password, then the request and its reply. */
module SignUpPage {
  import opened Wrappers
  import opened AuthReply
  import Text

  /** The form's fields and its `error` and `loading` states. */
  datatype Form = Form(name: string, email: string, password: string, role: string, error: string, loading: bool)

  /** What `signup` is called with. */
  datatype Request = Request(name: string, email: string, password: string, role: string)

  const BlankError := "Please fill in all fields."
  const LengthError := "Password must be at least 6 characters long."
  const MinPasswordLength := 6

  /** The form as first shown: empty fields, role 'Passenger'. */
  const Initial := Form("", "", "", "Passenger", "", false)

  /** The handler's checks, in order: the request to send, or the error to show. */
  function Validate(f: Form): (r: Result<Request>)
    ensures (Text.Trim(f.name) == "" || Text.Trim(f.email) == "" || Text.Trim(f.password) == "")
      <==> r == Failure(BlankError)
    ensures r == Failure(LengthError) <==>
      Text.Trim(f.name) != "" && Text.Trim(f.email) != "" && Text.Trim(f.password) != ""
      && |f.password| < MinPasswordLength
    ensures r.Success? ==> r.value == Request(f.name, f.email, f.password, f.role)
  {
    if Text.Trim(f.name) == "" || Text.Trim(f.email) == "" || Text.Trim(f.password) == "" then Failure(BlankError)
    else if |f.password| < MinPasswordLength then Failure(LengthError)
    else Success(Request(f.name, f.email, f.password, f.role))
  }

  /** `handleSignUp`, given what `signup` would reply: the form afterwards and the
      request sent, if any. A rejected form keeps its loading flag; a sent one ends
      with loading off and the reply's message as error on failure. */
  function HandleSignUp(f: Form, reply: Reply): (r: (Form, Option<Request>))
    ensures Validate(f).Failure? ==> r == (f.(error := Validate(f).error), None)
    ensures Validate(f).Success? ==>
      && r.1 == Some(Validate(f).value)
      && r.0 == f.(error := if reply.success then "" else reply.message, loading := false)
  {
    match Validate(f)
    case Failure(e) => (f.(error := e), None)
    case Success(request) =>
      (f.(error := if reply.success then "" else reply.message, loading := false), Some(request))
  }

  /** A request goes out exactly when no field is whitespace only and the password,
      spaces included, has at least six characters. */
  lemma SentIffValid(f: Form, reply: Reply)
    ensures HandleSignUp(f, reply).1.Some? <==>
      && !Text.AllWhitespace(f.name) && !Text.AllWhitespace(f.email) && !Text.AllWhitespace(f.password)
      && |f.password| >= MinPasswordLength
  {
    Text.TrimEmptyIffBlank(f.name);
    Text.TrimEmptyIffBlank(f.email);
    Text.TrimEmptyIffBlank(f.password);
  }

  /** The length check counts the spaces the blank check ignores: five spaces and one
      letter make a valid password. */
  lemma PaddedPasswordPasses(name: string, email: string, role: string, reply: Reply)
    requires !Text.AllWhitespace(name) && !Text.AllWhitespace(email)
    ensures HandleSignUp(Form(name, email, "     x", role, "", false), reply).1.Some?
  {
    assert !Text.IsWhitespace("     x"[5]);
    SentIffValid(Form(name, email, "     x", role, "", false), reply);
  }
}
