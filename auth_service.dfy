/**
  User registration in the auth service.  The service's collaborators are
  the users repository (`getByEmail`, `createUser`) and the password hasher
  (`hash`); the repository is an abstract store of created records keyed by
  email, and the hasher an opaque function supplied at construction.  Every
  call the service makes to a collaborator is recorded, in order, so that
  which calls happen on each path can be stated.
 */
module Auth {

  datatype Option<T> = None | Some(value: T)

  /** The registration request; the name fields may be absent. */
  datatype RegisterUserDto = RegisterUserDto(
    email: string,
    password: string,
    passwordConfirmation: string,
    firstname: Option<string>,
    patronymic: Option<string>,
    lastname: Option<string>)

  datatype RegisterOutcome =
    | Registered
    | InvalidRequestError(message: string)
    | InternalError(message: string)

  const PasswordMismatch := "Password does not match password confirmation."
  const EmailTaken := "User with the same email already exists."

  /** The position of each collaborator operation in the registration sequence. */
  const LookupStage := 0
  const HashStage := 1
  const CreateStage := 2

  /** One call to a collaborator, with its argument. */
  datatype Call =
    | GetByEmail(email: string)
    | Hash(plaintext: string)
    | CreateUser(payload: RegisterUserDto)
  {
    /** The position of this kind of call in the registration sequence. */
    function Stage(): nat
    {
      match this
      case GetByEmail(_) => LookupStage
      case Hash(_) => HashStage
      case CreateUser(_) => CreateStage
    }
  }

  /** How many of `calls` went to the collaborator operation at `stage`. */
  function Count(calls: seq<Call>, stage: nat): (n: nat)
    ensures n <= |calls|
    ensures n == 0 <==> forall i :: 0 <= i < |calls| ==> calls[i].Stage() != stage
  {
    if calls == [] then 0
    else (if calls[0].Stage() == stage then 1 else 0) + Count(calls[1..], stage)
  }

  /** A log of one lookup, one hash and one create, in that order, counts one call of each. */
  lemma CountOfStages(calls: seq<Call>)
    requires |calls| == 3
    requires calls[0].GetByEmail? && calls[1].Hash? && calls[2].CreateUser?
    ensures Count(calls, LookupStage) == 1 && Count(calls, HashStage) == 1 && Count(calls, CreateStage) == 1
  {
    assert calls[1..][1..][1..] == [];
    assert Count(calls[1..][1..], LookupStage) == 0 && Count(calls[1..][1..], HashStage) == 0;
    assert Count(calls[1..][1..], CreateStage) == 1;
    assert Count(calls[1..], LookupStage) == 0;
  }

  /** The user store keeps each record under its own email. */
  ghost predicate KeyedByEmail(users: map<string, RegisterUserDto>)
  {
    forall e :: e in users ==> users[e].email == e
  }

  /** What one registration returns, which calls it makes and the user store it leaves. */
  datatype RegisterStep = RegisterStep(
    outcome: RegisterOutcome,
    calls: seq<Call>,
    users: map<string, RegisterUserDto>)

  /** The record handed to `createUser`: the email and the hash, in both password fields, and nothing else. */
  function HashedPayload(payload: RegisterUserDto, hash: string -> string): RegisterUserDto
  {
    var hashed := hash(payload.password);
    RegisterUserDto(payload.email, hashed, hashed, None, None, None)
  }

  /** registerUser, as a function of the user store and the hasher. */
  function Register(users: map<string, RegisterUserDto>, hash: string -> string, payload: RegisterUserDto): (s: RegisterStep)
    // a mismatched confirmation fails first and touches no collaborator
    ensures payload.password != payload.passwordConfirmation ==>
      s.outcome == InvalidRequestError(PasswordMismatch) && s.calls == []
    // a taken email fails after exactly one lookup, with no hash and no create
    ensures payload.password == payload.passwordConfirmation && payload.email in users ==>
      && s.outcome == InternalError(EmailTaken)
      && Count(s.calls, LookupStage) == 1 && Count(s.calls, HashStage) == 0 && Count(s.calls, CreateStage) == 0
    // success exactly when the confirmation matches and the email is free
    ensures s.outcome.Registered? <==> payload.password == payload.passwordConfirmation && payload.email !in users
    ensures s.outcome.Registered? ==>
      Count(s.calls, LookupStage) == 1 && Count(s.calls, HashStage) == 1 && Count(s.calls, CreateStage) == 1
    // calls happen in the order lookup, hash, create, each at most once
    ensures forall i, j :: 0 <= i < j < |s.calls| ==> s.calls[i].Stage() < s.calls[j].Stage()
    // the lookup is by the request's email; the hash is of the plaintext, and only once the email is known to be free
    ensures forall c :: c in s.calls && c.GetByEmail? ==> c.email == payload.email
    ensures forall c :: c in s.calls && c.Hash? ==> c.plaintext == payload.password && payload.email !in users
    // the created record carries the request's email, the hash in both password fields and no name fields
    ensures forall c :: c in s.calls && c.CreateUser? ==>
      && c.payload.email == payload.email
      && c.payload.password == hash(payload.password)
      && c.payload.passwordConfirmation == c.payload.password
      && c.payload.firstname.None? && c.payload.patronymic.None? && c.payload.lastname.None?
    // a failure leaves the store as it was; a success adds one record under the request's email
    ensures !s.outcome.Registered? ==> s.users == users
    ensures s.outcome.Registered? ==>
      && s.users.Keys == users.Keys + {payload.email}
      && (forall e :: e in users ==> s.users[e] == users[e])
      && CreateUser(s.users[payload.email]) in s.calls
    ensures KeyedByEmail(users) ==> KeyedByEmail(s.users)
  {
    if payload.password != payload.passwordConfirmation then
      RegisterStep(InvalidRequestError(PasswordMismatch), [], users)
    else if payload.email in users then
      RegisterStep(InternalError(EmailTaken), [GetByEmail(payload.email)], users)
    else
      var hashed := HashedPayload(payload, hash);
      var calls := [GetByEmail(payload.email), Hash(payload.password), CreateUser(hashed)];
      CountOfStages(calls);
      RegisterStep(Registered, calls, users[payload.email := hashed])
  }

  /** Registering the same email twice in a row never succeeds both times. */
  lemma SecondRegistrationFails(users: map<string, RegisterUserDto>, hash: string -> string, p: RegisterUserDto, q: RegisterUserDto)
    requires p.email == q.email
    requires Register(users, hash, p).outcome.Registered?
    ensures Register(Register(users, hash, p).users, hash, q).outcome == InternalError(EmailTaken)
      || Register(Register(users, hash, p).users, hash, q).outcome == InvalidRequestError(PasswordMismatch)
  {
  }

  /** The auth service over its collaborators' state. */
  class AuthService {
    /** The injected hasher's `hash`. */
    const hasher: string -> string
    /** The users repository's store, by email. */
    var users: map<string, RegisterUserDto>
    /** Every call made to the collaborators, oldest first. */
    var calls: seq<Call>

    constructor (hasher: string -> string, users: map<string, RegisterUserDto>)
      ensures this.hasher == hasher && this.users == users && calls == []
    {
      this.hasher := hasher;
      this.users := users;
      calls := [];
    }

    method RegisterUser(payload: RegisterUserDto) returns (outcome: RegisterOutcome)
      modifies this
      ensures var s := Register(old(users), hasher, payload);
        outcome == s.outcome && users == s.users && calls == old(calls) + s.calls
    {
      if payload.password != payload.passwordConfirmation {
        return InvalidRequestError(PasswordMismatch);
      }

      calls := calls + [GetByEmail(payload.email)];
      var user := if payload.email in users then Some(users[payload.email]) else None;
      if user.Some? {
        return InternalError(EmailTaken);
      }

      calls := calls + [Hash(payload.password)];
      var hashed := hasher(payload.password);
      var hashedPayload := RegisterUserDto(payload.email, hashed, hashed, None, None, None);

      calls := calls + [CreateUser(hashedPayload)];
      users := users[payload.email := hashedPayload];
      outcome := Registered;
    }
  }
}
