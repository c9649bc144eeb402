/** The login form's submit handler: an emptiness check without trimming, then the
    request and its reply. */
module LoginPage {
  import opened Wrappers
  import opened AuthReply

  datatype Form = Form(email: string, password: string, error: string, loading: bool)

  /** What `login` is called with. */
  datatype Request = Request(email: string, password: string)

  const MissingError := "Please enter both email and password."

  /** `handleLogin`, given what `login` would reply. */
  function HandleLogin(f: Form, reply: Reply): (r: (Form, Option<Request>))
    ensures r.1.Some? <==> f.email != "" && f.password != ""
    ensures r.1.None? ==> r.0 == f.(error := MissingError)
    ensures r.1.Some? ==>
      && r.1.value == Request(f.email, f.password)
      && r.0 == f.(error := if reply.success then "" else reply.message, loading := false)
  {
    if f.email == "" || f.password == "" then (f.(error := MissingError), None)
    else (f.(error := if reply.success then "" else reply.message, loading := false),
          Some(Request(f.email, f.password)))
  }

  /** Nothing is trimmed: a password of one space is sent as it is. */
  lemma WhitespacePasswordSent(email: string, reply: Reply)
    requires email != ""
    ensures HandleLogin(Form(email, " ", "", false), reply).1 == Some(Request(email, " "))
  {
  }

  /** After a sent request the form is never left loading, and it shows an error
      exactly when the reply is a failure with a message. */
  lemma SentRequestSettles(f: Form, reply: Reply)
    requires f.email != "" && f.password != ""
    ensures var r := HandleLogin(f, reply).0;
      !r.loading && (r.error != "" <==> !reply.success && reply.message != "")
  {
  }
}
