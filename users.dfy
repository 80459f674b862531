/**
 * Registration and the user detail counts (user/serializers.py).
 */
module Users {
  import opened Wrappers
  import opened Models
  import opened Seqs

  const MinPasswordLength := 8

  datatype Registration = Registration(email: string, firstName: string, lastName: string,
                                       password: string, passwordConfirm: string)

  datatype RegistrationError = EmailTaken | PasswordTooShort | PasswordsDiffer

  /** The field-level errors: the email's uniqueness and the password's length. */
  function FieldErrors(existingEmails: set<string>, input: Registration): (errs: set<RegistrationError>)
    ensures EmailTaken in errs <==> input.email in existingEmails
    ensures PasswordTooShort in errs <==> |input.password| < MinPasswordLength
    ensures PasswordsDiffer !in errs
  {
    (if input.email in existingEmails then {EmailTaken} else {})
    + (if |input.password| < MinPasswordLength then {PasswordTooShort} else {})
  }

  /**
   * Field errors are reported together; only when there are none does
   * `validate` compare the two passwords.
   */
  function ValidateRegistration(existingEmails: set<string>, input: Registration): (r: Result<Registration, set<RegistrationError>>)
    ensures r.Ok? <==> input.email !in existingEmails && |input.password| >= MinPasswordLength
                       && input.password == input.passwordConfirm
    ensures r.Ok? ==> r.value == input
    ensures r.Err? ==> r.error != {}
    ensures r.Err? ==> (EmailTaken in r.error <==> input.email in existingEmails)
    ensures r.Err? ==> (PasswordTooShort in r.error <==> |input.password| < MinPasswordLength)
    ensures r.Err? ==> (PasswordsDiffer in r.error <==> r.error == {PasswordsDiffer})
    ensures r.Err? && input.email !in existingEmails && |input.password| >= MinPasswordLength
            ==> r.error == {PasswordsDiffer}
  {
    var errs := FieldErrors(existingEmails, input);
    if errs != {} then
      assert EmailTaken in errs || PasswordTooShort in errs;
      Err(errs)
    else if input.password != input.passwordConfirm then Err({PasswordsDiffer})
    else Ok(input)
  }

  /** The validated data as the keyword arguments the serializer holds. */
  function ValidatedData(input: Registration): (m: map<string, string>)
    ensures m.Keys == {"email", "first_name", "last_name", "password", "password_confirm"}
  {
    map["email" := input.email, "first_name" := input.firstName, "last_name" := input.lastName,
        "password" := input.password, "password_confirm" := input.passwordConfirm]
  }

  /** `validated_data.pop("password_confirm")`: that key goes, every other passes through. */
  function UserKwargs(validated: map<string, string>): (r: map<string, string>)
    requires "password_confirm" in validated
    ensures r.Keys == validated.Keys - {"password_confirm"}
    ensures forall k :: k in r ==> r[k] == validated[k]
  {
    validated - {"password_confirm"}
  }

  /** The user is created from the email, the names and the password, and nothing else. */
  lemma CreateUserArguments(input: Registration)
    ensures UserKwargs(ValidatedData(input)).Keys == {"email", "first_name", "last_name", "password"}
    ensures UserKwargs(ValidatedData(input))["password"] == input.password
    ensures UserKwargs(ValidatedData(input))["email"] == input.email
  {
  }

  /** A user row as `create_user` stores it (the password's hashing is not part of this model). */
  datatype User = User(email: string, firstName: string, lastName: string, password: string)

  /** `User.objects.create_user(**kwargs)` with the keyword arguments the serializer passes. */
  function UserFrom(kwargs: map<string, string>): (u: User)
    requires {"email", "first_name", "last_name", "password"} <= kwargs.Keys
    ensures u.email == kwargs["email"] && u.password == kwargs["password"]
    ensures u.firstName == kwargs["first_name"] && u.lastName == kwargs["last_name"]
  {
    User(kwargs["email"], kwargs["first_name"], kwargs["last_name"], kwargs["password"])
  }

  /** The user table, whose emails are unique. */
  class UserTable {
    var users: seq<User>

    function Emails(): (e: set<string>)
      reads this
      ensures forall i :: 0 <= i < |users| ==> users[i].email in e
      ensures forall x :: x in e ==> exists i :: 0 <= i < |users| && users[i].email == x
    {
      set u | u in users :: u.email
    }

    ghost predicate Valid()
      reads this
    {
      forall i, j :: 0 <= i < j < |users| ==> users[i].email != users[j].email
    }

    constructor()
      ensures Valid() && users == []
    {
      users := [];
    }

    /**
     * `UserCreateSerializer`: a registration that fails validation is
     * refused with its errors and changes nothing; an accepted one drops the
     * confirmation and appends the user.
     */
    method Register(input: Registration) returns (r: Result<nat, set<RegistrationError>>)
      requires Valid()
      modifies this
      ensures Valid()
      ensures r.Ok? <==> ValidateRegistration(old(Emails()), input).Ok?
      ensures r.Err? ==> r.error == ValidateRegistration(old(Emails()), input).error && users == old(users)
      ensures r.Ok? ==>
        r.value == |old(users)| && users == old(users) + [User(input.email, input.firstName, input.lastName, input.password)]
    {
      var check := ValidateRegistration(Emails(), input);
      if check.Err? {
        return Err(check.error);
      }
      var kwargs := UserKwargs(ValidatedData(input));
      CreateUserArguments(input);
      var u := UserFrom(kwargs);
      assert forall i :: 0 <= i < |users| ==> users[i].email != u.email;
      r := Ok(|users|);
      users := users + [u];
    }
  }

  predicate OwnedBy(user: UserId, b: Borrowing)
  {
    b.userId == user
  }

  predicate OpenOf(user: UserId, b: Borrowing)
  {
    b.userId == user && b.IsActive()
  }

  predicate ClosedOf(user: UserId, b: Borrowing)
  {
    b.userId == user && !b.IsActive()
  }

  /** An annotation on the queried user wins over counting the rows. */
  function BorrowingsCount(annotation: Option<nat>, bs: seq<Borrowing>, user: UserId): (n: nat)
    ensures annotation.Some? ==> n == annotation.value
    ensures annotation.None? ==> n <= |bs|
  {
    annotation.GetOr(|Filter(bs, b => OwnedBy(user, b))|)
  }

  function ActiveBorrowings(annotation: Option<nat>, bs: seq<Borrowing>, user: UserId): (n: nat)
    ensures annotation.Some? ==> n == annotation.value
    ensures annotation.None? ==> n <= |bs|
  {
    annotation.GetOr(|Filter(bs, b => OpenOf(user, b))|)
  }

  /** Without annotations a user with no rows has no borrowings, active or not. */
  lemma CountsOfEmpty(user: UserId)
    ensures BorrowingsCount(None, [], user) == 0 && ActiveBorrowings(None, [], user) == 0
  {
  }

  /**
   * Without annotations an appended row is counted exactly when it is the
   * user's, and as active exactly when it also has no return date.
   */
  lemma CountsAppend(bs: seq<Borrowing>, b: Borrowing, user: UserId)
    ensures BorrowingsCount(None, bs + [b], user)
            == BorrowingsCount(None, bs, user) + (if b.userId == user then 1 else 0)
    ensures ActiveBorrowings(None, bs + [b], user)
            == ActiveBorrowings(None, bs, user) + (if b.userId == user && b.IsActive() then 1 else 0)
  {
    FilterAppend(bs, [b], b => OwnedBy(user, b));
    FilterAppend(bs, [b], b => OpenOf(user, b));
  }

  lemma {:induction false} CountsSplit(bs: seq<Borrowing>, user: UserId)
    ensures |Filter(bs, b => OwnedBy(user, b))|
            == |Filter(bs, b => OpenOf(user, b))| + |Filter(bs, b => ClosedOf(user, b))|
  {
    if bs != [] {
      CountsSplit(bs[1..], user);
    }
  }

  /**
   * Without annotations, the borrowings count is the active borrowings plus
   * the returned ones, so it is never smaller.
   */
  lemma ActiveAtMostTotal(bs: seq<Borrowing>, user: UserId)
    ensures BorrowingsCount(None, bs, user)
            == ActiveBorrowings(None, bs, user) + |Filter(bs, b => ClosedOf(user, b))|
    ensures ActiveBorrowings(None, bs, user) <= BorrowingsCount(None, bs, user)
  {
    CountsSplit(bs, user);
  }
}
