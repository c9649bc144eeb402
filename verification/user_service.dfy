/** The backend's registration rule: the user table as a map from email to stored
    user, a registration that refuses a taken email, and lookup by email. The password
    encoder and the identifier the table assigns are parameters. */
module UserService {
  import opened Wrappers

  /** A user record; `id` is absent on input and assigned on save. */
  datatype User = User(id: Option<int>, name: string, email: string, password: string, role: string)

  type Repository = map<string, User>

  /** Every stored user sits under its own email. */
  ghost predicate WellKeyed(repo: Repository)
  {
    forall e :: e in repo ==> repo[e].email == e
  }

  function ExistsByEmail(repo: Repository, email: string): bool
  {
    email in repo
  }

  /** `findByEmail`: the stored user with that email, if any. */
  function FindByEmail(repo: Repository, email: string): (r: Option<User>)
    ensures r.Some? <==> ExistsByEmail(repo, email)
    ensures r.Some? ==> r.value in repo.Values
    ensures r.Some? && WellKeyed(repo) ==> r.value.email == email
  {
    if email in repo then Some(repo[email]) else None
  }

  const EmailTaken := "Email is already taken!"

  /** `registerUser`: a taken email fails and stores nothing; otherwise a new user with
      the input's name, email and role, the encoded password and the assigned id is
      saved and returned. */
  function RegisterUser(repo: Repository, user: User, encode: string -> string, newId: int): (r: Result<(User, Repository)>)
    ensures ExistsByEmail(repo, user.email) <==> r == Failure(EmailTaken)
    ensures r.Success? ==>
      var (saved, after) := r.value;
      && saved == User(Some(newId), user.name, user.email, encode(user.password), user.role)
      && after == repo[user.email := saved]
      && (WellKeyed(repo) ==> WellKeyed(after))
  {
    if ExistsByEmail(repo, user.email) then Failure(EmailTaken)
    else
      var saved := User(Some(newId), user.name, user.email, encode(user.password), user.role);
      Success((saved, repo[user.email := saved]))
  }

  /** After a registration `findByEmail` finds the saved user, and every other email
      finds what it found before. */
  lemma FindAfterRegister(repo: Repository, user: User, encode: string -> string, newId: int, other: string)
    requires RegisterUser(repo, user, encode, newId).Success?
    ensures var (saved, after) := RegisterUser(repo, user, encode, newId).value;
      && FindByEmail(after, user.email) == Some(saved)
      && (other != user.email ==> FindByEmail(after, other) == FindByEmail(repo, other))
  {
  }

  /** Registering the same email twice fails the second time and keeps the first user. */
  lemma SecondRegistrationFails(repo: Repository, a: User, b: User, encode: string -> string, id1: int, id2: int)
    requires RegisterUser(repo, a, encode, id1).Success? && b.email == a.email
    ensures var (first, after) := RegisterUser(repo, a, encode, id1).value;
      && RegisterUser(after, b, encode, id2) == Failure(EmailTaken)
      && FindByEmail(after, a.email) == Some(first)
  {
  }

  /** Only name, email, role and the raw password are read from the input: its own id
      plays no part in what is saved. */
  lemma InputIdIgnored(repo: Repository, user: User, encode: string -> string, newId: int, anyId: Option<int>)
    ensures RegisterUser(repo, user, encode, newId) == RegisterUser(repo, user.(id := anyId), encode, newId)
  {
  }
}
