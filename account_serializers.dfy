/** The account serializers (account/api/serializers.py): sign-up with a
    one-time password, OTP verification, login, address creation, and the
    profile confirmation update.

    The random OTP is a parameter, the mail that carries it is not modelled,
    and `authenticate` is an opaque parameter: the user it accepted, if any. */
module AccountSerializers {
  import opened Wrappers
  import opened AccountModels

  // ---------------------------------------------------------------------------
  // SignUpSerializer

  /** The fields `SignUpSerializer` accepts; `phone` is `None` when omitted. */
  datatype SignUpForm = SignUpForm(email: string, phone: Option<string>, firstName: string, lastName: string, password: string)

  datatype SignUpError =
    | EmailBlank
    | EmailExists
    | PasswordBlank
    | InvalidPhone
    | PhoneExists
    | NotStored(AccountError)

  /** A phone number was given and is not blank, so the field's validators run. */
  predicate PhoneGiven(f: SignUpForm)
  {
    f.phone.Some? && f.phone.value != ""
  }

  /** The phone field passes: blank or omitted, or a valid number no user holds. */
  predicate PhoneAcceptable(users: map<string, User>, f: SignUpForm)
  {
    !PhoneGiven(f) || (ValidPhone(f.phone.value) && !PhoneTakenByOther(users, f.email, f.phone))
  }

  /** The field checks of the form in field order, the first failing one: a
      blank email, an email already registered, a non-blank phone number that
      is not valid or already someone's, and a blank password. A blank phone
      skips the phone validators. */
  function CheckSignUp(users: map<string, User>, f: SignUpForm): (r: Option<SignUpError>)
    ensures r == Some(EmailBlank) <==> f.email == ""
    ensures r == Some(EmailExists) <==> f.email != "" && f.email in users
    ensures r == Some(InvalidPhone) <==> f.email != "" && f.email !in users && PhoneGiven(f) && !ValidPhone(f.phone.value)
    ensures r == Some(PhoneExists) <==>
      && f.email != "" && f.email !in users && PhoneGiven(f) && ValidPhone(f.phone.value)
      && PhoneTakenByOther(users, f.email, f.phone)
    ensures r == Some(PasswordBlank) <==> f.email != "" && f.email !in users && PhoneAcceptable(users, f) && f.password == ""
    ensures r.None? <==> f.email != "" && f.email !in users && PhoneAcceptable(users, f) && f.password != ""
    ensures r.Some? ==> !r.value.NotStored?
  {
    if f.email == "" then Some(EmailBlank)
    else if f.email in users then Some(EmailExists)
    else if PhoneGiven(f) && !ValidPhone(f.phone.value) then Some(InvalidPhone)
    else if PhoneGiven(f) && PhoneTakenByOther(users, f.email, f.phone) then Some(PhoneExists)
    else if f.password == "" then Some(PasswordBlank)
    else None
  }

  /** `SignUpSerializer` validation and `create`: the user is created inactive
      through `create_user`, and `otp` is stored under the user's email. */
  method SignUp(db: AccountDb, f: SignUpForm, otp: string) returns (r: Result<User, SignUpError>)
    requires db.Valid()
    modifies db`users, db`otps
    ensures db.Valid()
    ensures CheckSignUp(old(db.users), f).Some? ==> r == Err(CheckSignUp(old(db.users), f).value)
    ensures f.email in old(db.users) ==> r.Err?
    ensures r.Ok? <==> CheckSignUp(old(db.users), f).None? && !PhoneTakenByOther(old(db.users), f.email, f.phone)
    ensures CheckSignUp(old(db.users), f).None? && PhoneTakenByOther(old(db.users), f.email, f.phone) ==>
      r == Err(NotStored(PhoneTaken))
    ensures r.Err? ==> db.users == old(db.users) && db.otps == old(db.otps)
    ensures r.Ok? ==>
      && CheckSignUp(old(db.users), f).None?
      && r.value == NewUser(f.email, Some(f.password), ExtraFields(f.phone, f.firstName, f.lastName, Some(false), None, None))
      && !r.value.isActive && !r.value.isStaff && !r.value.isSuperuser
      && db.users == old(db.users)[f.email := r.value]
      && db.otps == old(db.otps)[f.email := otp]
  {
    var refused := CheckSignUp(db.users, f);
    if refused.Some? {
      return Err(refused.value);
    }
    var created := db.CreateUser(f.email, Some(f.password), ExtraFields(f.phone, f.firstName, f.lastName, Some(false), None, None));
    if created.Err? {
      return Err(NotStored(created.error));
    }
    db.otps := db.otps[f.email := otp];
    return Ok(created.value);
  }

  // ---------------------------------------------------------------------------
  // VerifyOTPSerializer

  datatype OtpError = OtpFieldInvalid | OtpExpiredOrInvalid | IncorrectOtp | UserNotFound

  /** `VerifyOTPSerializer.validate`: the `otp` field must be 1 to 6
      characters; then no stored code (or an empty one) is 'expired or
      invalid', a different code is 'incorrect', and an unknown email is 'user
      not found'. On success the user is activated and the stored code
      deleted. */
  method VerifyOtp(db: AccountDb, email: string, otp: string) returns (r: Result<(), OtpError>)
    requires db.Valid()
    modifies db`users, db`otps
    ensures db.Valid()
    ensures otp == "" || |otp| > 6 ==> r == Err(OtpFieldInvalid)
    ensures 0 < |otp| <= 6 && (email !in old(db.otps) || old(db.otps)[email] == "") ==> r == Err(OtpExpiredOrInvalid)
    ensures 0 < |otp| <= 6 && email in old(db.otps) && old(db.otps)[email] != "" && old(db.otps)[email] != otp ==>
      r == Err(IncorrectOtp)
    ensures 0 < |otp| <= 6 && email in old(db.otps) && old(db.otps)[email] == otp && email !in old(db.users) ==>
      r == Err(UserNotFound)
    ensures r.Err? ==> db.users == old(db.users) && db.otps == old(db.otps)
    ensures r.Ok? <==> 0 < |otp| <= 6 && email in old(db.otps) && old(db.otps)[email] == otp && email in old(db.users)
    ensures r.Ok? ==>
      && db.users == old(db.users)[email := old(db.users)[email].(isActive := true)]
      && db.otps == old(db.otps) - {email}
  {
    if otp == "" || |otp| > 6 {
      return Err(OtpFieldInvalid);
    }
    if email !in db.otps || db.otps[email] == "" {
      return Err(OtpExpiredOrInvalid);
    }
    if db.otps[email] != otp {
      return Err(IncorrectOtp);
    }
    if email !in db.users {
      return Err(UserNotFound);
    }
    db.users := db.users[email := db.users[email].(isActive := true)];
    db.otps := db.otps - {email};
    return Ok(());
  }

  /** A code verifies once: repeating a successful verification fails with
      'expired or invalid' and changes nothing more. */
  method VerifyTwice(db: AccountDb, email: string, otp: string) returns (first: Result<(), OtpError>, second: Result<(), OtpError>)
    requires db.Valid()
    modifies db`users, db`otps
    ensures first.Ok? ==> second == Err(OtpExpiredOrInvalid)
    ensures first.Ok? ==> email in db.users && db.users[email].isActive && email !in db.otps
  {
    first := VerifyOtp(db, email, otp);
    second := VerifyOtp(db, email, otp);
  }

  // ---------------------------------------------------------------------------
  // LoginSerializer

  datatype LoginError = InvalidCredentials | NotVerified

  /** `LoginSerializer.validate`, given what `authenticate` returned:
      unknown credentials are invalid, and an inactive account is refused as
      not verified even when the credentials are right. */
  function Login(authenticated: Option<User>): (r: Result<(), LoginError>)
    ensures r.Ok? <==> authenticated.Some? && authenticated.value.isActive
    ensures authenticated.None? ==> r == Err(InvalidCredentials)
    ensures authenticated.Some? && !authenticated.value.isActive ==> r == Err(NotVerified)
  {
    match authenticated
    case None => Err(InvalidCredentials)
    case Some(u) => if !u.isActive then Err(NotVerified) else Ok(())
  }

  /** Django's default `ModelBackend.authenticate`: the user stored under
      the email, when the password matches and the account is active
      (`user_can_authenticate`); `None` otherwise. Passwords are compared as
      stored, without hashing. */
  function DefaultAuthenticate(users: map<string, User>, email: string, password: string): (r: Option<User>)
    ensures r.Some? <==> email in users && users[email].password == Some(password) && users[email].isActive
    ensures r.Some? ==> r.value == users[email] && r.value.isActive
  {
    if email in users && users[email].password == Some(password) && users[email].isActive then Some(users[email])
    else None
  }

  /** A freshly signed-up user cannot log in until the OTP is verified. With
      the default backend, which refuses inactive accounts, the serializer
      answers "invalid credentials"; only a backend that hands back inactive
      users reaches the "not verified" branch. */
  lemma SignedUpUserCannotLogIn(users: map<string, User>, f: SignUpForm)
    ensures var u := NewUser(f.email, Some(f.password), ExtraFields(f.phone, f.firstName, f.lastName, Some(false), None, None));
      && Login(DefaultAuthenticate(users[f.email := u], f.email, f.password)) == Err(InvalidCredentials)
      && Login(Some(u)) == Err(NotVerified)
  {
  }

  /** Under the default backend the "not verified" branch is never taken:
      login succeeds exactly for the right password of an active account. */
  lemma DefaultBackendNeverNotVerified(users: map<string, User>, email: string, password: string)
    ensures Login(DefaultAuthenticate(users, email, password)) != Err(NotVerified)
    ensures Login(DefaultAuthenticate(users, email, password)).Ok? <==>
      email in users && users[email].password == Some(password) && users[email].isActive
  {
  }

  // ---------------------------------------------------------------------------
  // AddressSerializer

  /** The fields `AddressSerializer` accepts. */
  datatype AddressForm = AddressForm(province: string, city: string, street: string, postalCode: string, no: string, isDefault: bool)

  datatype AddressError = InvalidAddress

  /** The row the form describes for `user`: not deleted. */
  function AddressFor(user: string, f: AddressForm): Address
  {
    Address(user, f.province, f.city, f.street, f.postalCode, f.no, f.isDefault, false)
  }

  /** Clearing the defaults twice clears them once. */
  lemma {:induction false} ClearDefaultsTwice(addresses: seq<Address>, user: string)
    ensures ClearDefaults(ClearDefaults(addresses, user), user) == ClearDefaults(addresses, user)
  {
    var once := ClearDefaults(addresses, user);
    var twice := ClearDefaults(once, user);
    assert forall i :: 0 <= i < |twice| ==> twice[i] == once[i];
  }

  /** `AddressSerializer.create`: the fields are validated; a default address
      first clears the caller's existing defaults; then the row is created for
      the caller (and `Address.save` clears again, to no effect). */
  method CreateAddress(db: AccountDb, user: string, f: AddressForm) returns (r: Result<Address, AddressError>)
    requires db.Valid() && user in db.users
    modifies db`addresses
    ensures db.Valid()
    ensures !AddressFieldsValid(AddressFor(user, f)) ==> r == Err(InvalidAddress) && db.addresses == old(db.addresses)
    ensures AddressFieldsValid(AddressFor(user, f)) ==>
      && r == Ok(AddressFor(user, f))
      && db.addresses == (if f.isDefault then ClearDefaults(old(db.addresses), user) else old(db.addresses)) + [r.value]
    ensures r.Ok? && f.isDefault ==>
      forall j :: 0 <= j < |db.addresses| - 1 ==> !(db.addresses[j].user == user && db.addresses[j].isDefault)
    ensures forall j :: 0 <= j < |old(db.addresses)| && old(db.addresses[j]).user != user ==>
      db.addresses[j] == old(db.addresses[j])
  {
    var a := AddressFor(user, f);
    if !AddressFieldsValid(a) {
      return Err(InvalidAddress);
    }
    if f.isDefault {
      db.addresses := ClearDefaults(db.addresses, user);
      assert db.Valid();
    }
    ghost var cleared := db.addresses;
    ClearDefaultsTwice(old(db.addresses), user);
    db.SaveAddress(a, None);
    assert db.addresses == cleared + [a];
    return Ok(a);
  }

  // ---------------------------------------------------------------------------
  // UserConfirmationSerializer

  /** `get_addresses`: the user's addresses that are not deleted, in order. */
  function ActiveAddresses(addresses: seq<Address>, user: string): (r: seq<Address>)
    ensures forall a :: a in r <==> a in addresses && a.user == user && !a.isDeleted
  {
    if addresses == [] then []
    else
      var last := addresses[|addresses| - 1];
      assert addresses == addresses[..|addresses| - 1] + [last];
      ActiveAddresses(addresses[..|addresses| - 1], user) + (if last.user == user && !last.isDeleted then [last] else [])
  }

  /** `get_has_address`: whether the user has an address that is not deleted. */
  function HasAddress(addresses: seq<Address>, user: string): (r: bool)
    ensures r <==> exists i :: 0 <= i < |addresses| && addresses[i].user == user && !addresses[i].isDeleted
  {
    if addresses == [] then false
    else
      var n := |addresses| - 1;
      assert forall i :: 0 <= i < n ==> addresses[..n][i] == addresses[i];
      (addresses[n].user == user && !addresses[n].isDeleted) || HasAddress(addresses[..n], user)
  }

  /** `has_address` is true exactly when `addresses` lists something. */
  lemma HasAddressIffListed(addresses: seq<Address>, user: string)
    ensures HasAddress(addresses, user) <==> ActiveAddresses(addresses, user) != []
  {
    var listed := ActiveAddresses(addresses, user);
    if listed != [] {
      assert listed[0] in listed;
    }
    if HasAddress(addresses, user) {
      var i :| 0 <= i < |addresses| && addresses[i].user == user && !addresses[i].isDeleted;
      assert addresses[i] in listed;
    }
  }

  /** `UserConfirmationSerializer.update`: only a non-empty phone number is
      written (the names in the form are ignored, and the phone pattern is not
      applied); the unique constraint refuses a number another user holds. */
  method ConfirmationUpdate(db: AccountDb, user: string, phone: Option<string>) returns (r: Result<User, AccountError>)
    requires db.Valid() && user in db.users
    modifies db`users
    ensures db.Valid()
    ensures (phone.None? || phone.value == "") ==> r == Ok(old(db.users[user])) && db.users == old(db.users)
    ensures phone.Some? && phone.value != "" && PhoneTakenByOther(old(db.users), user, phone) ==>
      r == Err(PhoneTaken) && db.users == old(db.users)
    ensures phone.Some? && phone.value != "" && !PhoneTakenByOther(old(db.users), user, phone) ==>
      && r == Ok(old(db.users[user]).(phone := phone))
      && db.users == old(db.users)[user := r.value]
  {
    var u := db.users[user];
    if phone.None? || phone.value == "" {
      return Ok(u);
    }
    if PhoneTakenByOther(db.users, user, phone) {
      return Err(PhoneTaken);
    }
    u := u.(phone := phone);
    db.users := db.users[user := u];
    return Ok(u);
  }
}
