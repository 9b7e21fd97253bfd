/** The account models (account/models.py): users keyed by email, created
    through the user manager, and shipping addresses with at most one default
    per user.

    The database constraints the model declares (`email` and `phone_number`
    unique) are enforced when a row is written; the field validators (the
    phone and postal-code patterns, the maximum lengths) run only when a form
    or serializer validates the fields, so they are predicates here that the
    serializers check. */
module AccountModels {
  import opened Wrappers

  /** A `User` row. `password` is the credential `set_password` stores
      (`None` for an unusable password); hashing is not modelled. */
  datatype User = User(
    email: string, password: Option<string>, phone: Option<string>,
    firstName: string, lastName: string,
    isActive: bool, isStaff: bool, isSuperuser: bool)

  /** The keyword arguments `create_user` passes on to the model; a flag that
      is `None` was not supplied and takes the field's default. */
  datatype ExtraFields = ExtraFields(
    phone: Option<string>, firstName: string, lastName: string,
    isActive: Option<bool>, isStaff: Option<bool>, isSuperuser: Option<bool>)

  datatype AccountError = EmailRequired | EmailTaken | PhoneTaken

  /** A supplied flag, or the default. */
  function OrDefault(flag: Option<bool>, default: bool): bool
  {
    if flag.Some? then flag.value else default
  }

  /** The row `create_user` builds: the given fields, and `is_active` true,
      `is_staff` false and `is_superuser` false unless supplied. */
  function NewUser(email: string, password: Option<string>, extra: ExtraFields): (r: User)
    ensures r.email == email && r.password == password && r.phone == extra.phone
    ensures r.firstName == extra.firstName && r.lastName == extra.lastName
    ensures r.isActive <==> extra.isActive != Some(false)
    ensures r.isStaff <==> extra.isStaff == Some(true)
    ensures r.isSuperuser <==> extra.isSuperuser == Some(true)
  {
    User(email, password, extra.phone, extra.firstName, extra.lastName,
         OrDefault(extra.isActive, true), OrDefault(extra.isStaff, false), OrDefault(extra.isSuperuser, false))
  }

  /** `create_superuser`'s two `setdefault` calls: `is_staff` and
      `is_superuser` become true when absent and keep a supplied value. */
  function SuperuserExtras(extra: ExtraFields): (r: ExtraFields)
    ensures r.isStaff.Some? && r.isSuperuser.Some?
    ensures extra.isStaff.Some? ==> r.isStaff == extra.isStaff
    ensures extra.isSuperuser.Some? ==> r.isSuperuser == extra.isSuperuser
    ensures extra.isStaff.None? ==> r.isStaff == Some(true)
    ensures extra.isSuperuser.None? ==> r.isSuperuser == Some(true)
    ensures r.(isStaff := extra.isStaff, isSuperuser := extra.isSuperuser) == extra
  {
    extra.(isStaff := Some(OrDefault(extra.isStaff, true)), isSuperuser := Some(OrDefault(extra.isSuperuser, true)))
  }

  // ---------------------------------------------------------------------------
  // Field validators

  predicate IsDigit(c: char)
  {
    '0' <= c <= '9'
  }

  predicate AllDigits(s: string)
  {
    forall i :: 0 <= i < |s| ==> IsDigit(s[i])
  }

  /** `s` as a whole is "09" followed by nine digits. */
  predicate PhoneShape(s: string)
  {
    |s| == 11 && s[0] == '0' && s[1] == '9' && AllDigits(s[2..])
  }

  /** Python's `re.search(r'^09\d{9}$', s)`: `$` also matches just before a
      final newline, so a single trailing "\n" is accepted. */
  predicate MatchesPhonePattern(s: string)
  {
    PhoneShape(s) || (|s| > 0 && s[|s| - 1] == '\n' && PhoneShape(s[..|s| - 1]))
  }

  /** The validators of `phone_number`: the pattern and `max_length=11`. */
  predicate ValidPhone(s: string)
  {
    MatchesPhonePattern(s) && |s| <= 11
  }

  /** A phone number is valid exactly when it is "09" followed by exactly
      nine digits: the trailing newline the pattern lets through is refused by
      the length limit. */
  lemma ValidPhoneIff(s: string)
    ensures ValidPhone(s) <==> |s| == 11 && s[..2] == "09" && AllDigits(s[2..])
  {
    if |s| == 11 && s[..2] == "09" {
      assert s[0] == s[..2][0] && s[1] == s[..2][1];
    }
    if ValidPhone(s) && |s| == 11 {
      assert s[..2] == [s[0], s[1]];
    }
  }

  /** The pattern alone accepts a number with a trailing newline; the field as a whole refuses it. */
  lemma PhoneTrailingNewline()
    ensures MatchesPhonePattern("09123456789\n") && !ValidPhone("09123456789\n")
    ensures ValidPhone("09123456789") && !ValidPhone("0912345678") && !ValidPhone("19123456789")
  {
    var s := "09123456789\n";
    assert s[..|s| - 1] == "09123456789";
    assert AllDigits("09123456789"[2..]);
  }

  /** `re.search(r'^\d{10}$', s)`, with the same trailing-newline allowance. */
  predicate MatchesPostalPattern(s: string)
  {
    (|s| == 10 && AllDigits(s)) || (|s| == 11 && s[10] == '\n' && AllDigits(s[..10]))
  }

  /** The validators of `postal_code`: the pattern and `max_length=10`. */
  predicate ValidPostalCode(s: string)
  {
    MatchesPostalPattern(s) && |s| <= 10
  }

  /** A postal code is valid exactly when it is ten digits. */
  lemma ValidPostalCodeIff(s: string)
    ensures ValidPostalCode(s) <==> |s| == 10 && AllDigits(s)
  {
  }

  /** The codes of the address tests: ten digits pass, five do not. */
  lemma PostalCodeExamples()
    ensures ValidPostalCode("1234567890") && ValidPostalCode("0987654321")
    ensures !ValidPostalCode("12345") && !ValidPostalCode("1234567890\n")
  {
  }

  // ---------------------------------------------------------------------------
  // Addresses

  /** An `Address` row; `user` is the owner's email. */
  datatype Address = Address(
    user: string, province: string, city: string, street: string,
    postalCode: string, no: string, isDefault: bool, isDeleted: bool)

  /** What `full_clean` checks on an address: every text field non-blank and
      within its `max_length`, and a valid postal code. */
  predicate AddressFieldsValid(a: Address)
  {
    && 0 < |a.province| <= 100
    && 0 < |a.city| <= 100
    && 0 < |a.street| <= 255
    && 0 < |a.no| <= 10
    && ValidPostalCode(a.postalCode)
  }

  /** `Address.objects.filter(user=user, is_default=True).update(is_default=False)`. */
  function ClearDefaults(addresses: seq<Address>, user: string): (r: seq<Address>)
    ensures |r| == |addresses|
    ensures forall i :: 0 <= i < |r| ==>
      r[i] == if addresses[i].user == user then addresses[i].(isDefault := false) else addresses[i]
  {
    if addresses == [] then []
    else
      var last := addresses[|addresses| - 1];
      ClearDefaults(addresses[..|addresses| - 1], user) + [if last.user == user then last.(isDefault := false) else last]
  }

  /** Each user has at most one default address. */
  predicate AtMostOneDefault(addresses: seq<Address>)
  {
    forall i, j ::
      (0 <= i < |addresses| && 0 <= j < |addresses| && i != j && addresses[i].isDefault && addresses[j].isDefault) ==>
      addresses[i].user != addresses[j].user
  }

  /** Distinct users never share a phone number (several may have none). */
  predicate PhonesUnique(users: map<string, User>)
  {
    forall a, b :: a in users && b in users && a != b && users[a].phone.Some? ==> users[a].phone != users[b].phone
  }

  /** Whether a user other than `email` already holds `phone`. */
  predicate PhoneTakenByOther(users: map<string, User>, email: string, phone: Option<string>)
  {
    phone.Some? && exists k :: k in users && k != email && users[k].phone == phone
  }

  class AccountDb {
    var users: map<string, User>
    var addresses: seq<Address>
    /** The OTP store (a Redis key `otp:<email>` per pending sign-up), by email. */
    var otps: map<string, string>

    /** Users are stored under their own email, phone numbers are unique,
        every address belongs to a stored user, and each user has at most one
        default address. */
    ghost predicate Valid()
      reads this
    {
      && (forall k :: k in users ==> users[k].email == k)
      && PhonesUnique(users)
      && (forall i :: 0 <= i < |addresses| ==> addresses[i].user in users)
      && AtMostOneDefault(addresses)
    }

    constructor ()
      ensures Valid() && users == map[] && addresses == [] && otps == map[]
    {
      users, addresses, otps := map[], [], map[];
    }

    /** `UserManager.create_user`: an empty email is refused; otherwise the
        row built by `NewUser` is saved, unless the unique constraints on
        `email` or `phone_number` refuse it. */
    method CreateUser(email: string, password: Option<string>, extra: ExtraFields) returns (r: Result<User, AccountError>)
      requires Valid()
      modifies this`users
      ensures Valid()
      ensures email == "" ==> r == Err(EmailRequired)
      ensures email != "" && email in old(users) ==> r == Err(EmailTaken)
      ensures email != "" && email !in old(users) && PhoneTakenByOther(old(users), email, extra.phone) ==> r == Err(PhoneTaken)
      ensures r.Err? ==> users == old(users)
      ensures r.Ok? ==> r.value == NewUser(email, password, extra) && users == old(users)[email := r.value]
      ensures r.Ok? <==> email != "" && email !in old(users) && !PhoneTakenByOther(old(users), email, extra.phone)
    {
      if email == "" {
        return Err(EmailRequired);
      }
      if email in users {
        return Err(EmailTaken);
      }
      if PhoneTakenByOther(users, email, extra.phone) {
        return Err(PhoneTaken);
      }
      var user := NewUser(email, password, extra);
      users := users[email := user];
      return Ok(user);
    }

    /** `UserManager.create_superuser`: `create_user` with `is_staff` and
        `is_superuser` defaulting to true. */
    method CreateSuperuser(email: string, password: Option<string>, extra: ExtraFields) returns (r: Result<User, AccountError>)
      requires Valid()
      modifies this`users
      ensures Valid()
      ensures r.Ok? <==> email != "" && email !in old(users) && !PhoneTakenByOther(old(users), email, extra.phone)
      ensures r.Err? ==> users == old(users)
      ensures r.Ok? ==> users == old(users)[email := r.value]
      ensures r.Ok? ==> r.value.isStaff == OrDefault(extra.isStaff, true) && r.value.isSuperuser == OrDefault(extra.isSuperuser, true)
      ensures r.Ok? ==> r.value.isActive == OrDefault(extra.isActive, true) && r.value.email == email
      ensures r.Ok? ==> r.value == NewUser(email, password, SuperuserExtras(extra))
      ensures email == "" ==> r == Err(EmailRequired)
      ensures email != "" && email in old(users) ==> r == Err(EmailTaken)
      ensures email != "" && email !in old(users) && PhoneTakenByOther(old(users), email, extra.phone) ==> r == Err(PhoneTaken)
    {
      r := CreateUser(email, password, SuperuserExtras(extra));
    }

    /** `Address.save`: when the address is a default, every default address
        of the same user is cleared first; then the row is inserted (`row` is
        `None`) or written over row `row`. */
    method SaveAddress(a: Address, row: Option<nat>)
      requires Valid() && a.user in users
      requires row.Some? ==> row.value < |addresses|
      modifies this`addresses
      ensures Valid()
      ensures var cleared := if a.isDefault then ClearDefaults(old(addresses), a.user) else old(addresses);
        addresses == if row.None? then cleared + [a] else cleared[row.value := a]
    {
      SaveKeepsAddressesValid(addresses, a, row, users);
      if a.isDefault {
        addresses := ClearDefaults(addresses, a.user);
      }
      if row.None? {
        addresses := addresses + [a];
      } else {
        addresses := addresses[row.value := a];
      }
    }
  }

  /** Saving an address of a stored user keeps every address owned by a
      stored user and at most one default per user. */
  lemma SaveKeepsAddressesValid(addresses: seq<Address>, a: Address, row: Option<nat>, users: map<string, User>)
    requires (forall i :: 0 <= i < |addresses| ==> addresses[i].user in users) && AtMostOneDefault(addresses)
    requires a.user in users && (row.Some? ==> row.value < |addresses|)
    ensures var cleared := if a.isDefault then ClearDefaults(addresses, a.user) else addresses;
      var saved := if row.None? then cleared + [a] else cleared[row.value := a];
      && (forall i :: 0 <= i < |saved| ==> saved[i].user in users)
      && AtMostOneDefault(saved)
  {
    var cleared := if a.isDefault then ClearDefaults(addresses, a.user) else addresses;
    var saved := if row.None? then cleared + [a] else cleared[row.value := a];
    var at := if row.None? then |addresses| else row.value;
    assert forall i :: 0 <= i < |saved| && i != at ==> saved[i] == cleared[i];
    if a.isDefault {
      SavedDefaultIsTheOnlyOne(addresses, a, row);
    }
  }

  /** Saving an address changes no other user's addresses, and changes
      nothing besides the saved row when it is not a default. */
  lemma SaveAddressTouchesOnlyOwner(addresses: seq<Address>, a: Address, i: nat)
    requires i < |addresses|
    ensures var cleared := if a.isDefault then ClearDefaults(addresses, a.user) else addresses;
      && (addresses[i].user != a.user ==> cleared[i] == addresses[i])
      && (!a.isDefault ==> cleared[i] == addresses[i])
      && cleared[i] == addresses[i].(isDefault := cleared[i].isDefault)
  {
  }

  /** After saving a default address, it is its user's only default. */
  lemma SavedDefaultIsTheOnlyOne(addresses: seq<Address>, a: Address, row: Option<nat>)
    requires a.isDefault && (row.Some? ==> row.value < |addresses|)
    ensures var cleared := ClearDefaults(addresses, a.user);
      var saved := if row.None? then cleared + [a] else cleared[row.value := a];
      var at := if row.None? then |addresses| else row.value;
      forall j :: 0 <= j < |saved| && saved[j].user == a.user && saved[j].isDefault ==> j == at
  {
  }
}
