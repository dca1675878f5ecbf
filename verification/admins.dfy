/** The `/api/admin` handlers: registration and login against a table of admins. */
module Admins {
  import opened Common

  /** The stored password hash. Hashing is abstract: `hash` and `compare` are parameters. */
  datatype Digest = Digest(value: string)

  datatype Admin = Admin(id: int, name: string, email: string, passwordHash: Digest)

  /** What registration answers about the new admin: never the hash. */
  datatype AdminSummary = AdminSummary(id: int, name: string, email: string)

  /** The payload of the signed login token; signing, secret and expiry are opaque. */
  datatype Token = Token(adminId: int, email: string)

  datatype Store = Store(admins: map<int, Admin>, nextId: int)

  /** Every admin is stored under its own id, ids below `nextId` are the used ones, and
      no two admins share an email (the unique index the lookups rely on). */
  predicate Valid(s: Store) {
    && (forall k :: k in s.admins ==> s.admins[k].id == k && k < s.nextId)
    && (forall a, b :: a in s.admins && b in s.admins && a != b ==> s.admins[a].email != s.admins[b].email)
  }

  predicate HasEmail(s: Store, email: string) {
    exists k :: k in s.admins && s.admins[k].email == email
  }

  /** `findUnique({ where: { email } })` */
  function FindByEmail(s: Store, email: string): (r: Option<Admin>)
    requires Valid(s)
    ensures r.None? <==> !HasEmail(s, email)
    ensures r.Some? ==> r.value.id in s.admins && s.admins[r.value.id] == r.value && r.value.email == email
  {
    if HasEmail(s, email) then
      var k :| k in s.admins && s.admins[k].email == email;
      Some(s.admins[k])
    else None
  }

  datatype RegisterBody = RegisterBody(name: Option<string>, email: Option<string>, password: Option<string>)

  datatype LoginBody = LoginBody(email: Option<string>, password: Option<string>)

  const MissingField := "Semua field harus diisi"
  const EmailTaken := "Email sudah terdaftar"
  const UnknownEmail := "Email tidak terdaftar"
  const WrongPassword := "Password salah"

  /** POST `/register` */
  function Register(s: Store, body: RegisterBody, hash: string -> Digest): (r: (Reply<AdminSummary>, Store))
    requires Valid(s)
    ensures Valid(r.1)
    ensures !(Truthy(body.name) && Truthy(body.email) && Truthy(body.password)) ==>
            r == (Error(400, MissingField), s)
    ensures Truthy(body.name) && Truthy(body.email) && Truthy(body.password) && HasEmail(s, body.email.value) ==>
            r == (Error(409, EmailTaken), s)
    ensures r.0.Ok? <==>
            Truthy(body.name) && Truthy(body.email) && Truthy(body.password) && !HasEmail(s, body.email.value)
    ensures r.0.Ok? ==>
      var admin := Admin(s.nextId, body.name.value, body.email.value, hash(body.password.value));
      && s.nextId !in s.admins
      && r.1 == Store(s.admins[s.nextId := admin], s.nextId + 1)
      && r.0.body == AdminSummary(admin.id, admin.name, admin.email)
  {
    if !Truthy(body.name) || !Truthy(body.email) || !Truthy(body.password) then
      (Error(400, MissingField), s)
    else if FindByEmail(s, body.email.value).Some? then
      (Error(409, EmailTaken), s)
    else
      var admin := Admin(s.nextId, body.name.value, body.email.value, hash(body.password.value));
      (Ok(AdminSummary(admin.id, admin.name, admin.email)), Store(s.admins[s.nextId := admin], s.nextId + 1))
  }

  /** POST `/login`. `None` is a request the handler never answers: with the email or the
      password missing, the lookup or the comparison throws outside any `try`. */
  function Login(s: Store, body: LoginBody, compare: (string, Digest) -> bool): (r: Option<Reply<Token>>)
    requires Valid(s)
    ensures r.None? <==> body.email.None? || (HasEmail(s, body.email.value) && body.password.None?)
    ensures body.email.Some? && !HasEmail(s, body.email.value) ==> r == Some(Error(401, UnknownEmail))
    ensures r.Some? && r.value.Ok? ==>
      && body.email.Some? && body.password.Some?
      && (exists k :: k in s.admins && s.admins[k].email == body.email.value
            && compare(body.password.value, s.admins[k].passwordHash)
            && r.value.body == Token(k, body.email.value))
    ensures r.Some? && r.value.Error? && body.email.Some? && HasEmail(s, body.email.value) ==>
      r.value == Error(401, WrongPassword) &&
      forall k :: k in s.admins && s.admins[k].email == body.email.value ==>
        !compare(body.password.value, s.admins[k].passwordHash)
  {
    if body.email.None? then None
    else
      match FindByEmail(s, body.email.value)
      case None => Some(Error(401, UnknownEmail))
      case Some(admin) =>
        if body.password.None? then None
        else if !compare(body.password.value, admin.passwordHash) then Some(Error(401, WrongPassword))
        else Some(Ok(Token(admin.id, admin.email)))
  }

  /** A successful registration adds exactly one admin, with a fresh id. */
  lemma RegisterAddsOne(s: Store, body: RegisterBody, hash: string -> Digest)
    requires Valid(s)
    requires Register(s, body, hash).0.Ok?
    ensures var after := Register(s, body, hash).1;
            && after.admins.Keys == s.admins.Keys + {s.nextId}
            && s.nextId !in s.admins
            && (forall k :: k in s.admins ==> after.admins[k] == s.admins[k])
  {
  }

  /** Registering again with an email that is now taken is refused with 409. */
  lemma RegisterTwiceConflicts(s: Store, body: RegisterBody, other: RegisterBody, hash: string -> Digest)
    requires Valid(s)
    requires Register(s, body, hash).0.Ok?
    requires Truthy(other.name) && Truthy(other.password) && other.email == body.email
    ensures var after := Register(s, body, hash).1;
            Register(after, other, hash) == (Error(409, EmailTaken), after)
  {
    var after := Register(s, body, hash).1;
    assert after.admins[s.nextId].email == body.email.value;
  }

  /** Once registered, the admin can log in with the same email and password, given
      that `compare` accepts a password against its own hash. */
  lemma RegisterThenLogin(s: Store, name: string, email: string, password: string,
                          hash: string -> Digest, compare: (string, Digest) -> bool)
    requires Valid(s)
    requires compare(password, hash(password))
    requires Register(s, RegisterBody(Some(name), Some(email), Some(password)), hash).0.Ok?
    ensures var after := Register(s, RegisterBody(Some(name), Some(email), Some(password)), hash).1;
            Login(after, LoginBody(Some(email), Some(password)), compare) == Some(Ok(Token(s.nextId, email)))
  {
    var after := Register(s, RegisterBody(Some(name), Some(email), Some(password)), hash).1;
    assert after.admins[s.nextId].email == email;
    var found := FindByEmail(after, email);
    assert found.Some?;
    assert found.value.id == s.nextId;
  }
}
