/** `generate_identity` (generator.py): one identity record assembled from the
    field generators, with the email chosen by priority manual > provisioned
    mailbox > generated from the name. */
module Assembly {
  import opened Common
  import opened Dict
  import opened Fields
  import opened Mailbox

  /** One draw per `secrets` call site of generate_identity and the generators
      it calls. */
  datatype Draws = Draws(
    gender: nat, firstName: nat, lastName: nat,
    emailDomain: nat, emailNumber: nat,
    phoneDigits: seq<nat>,
    state: nat, street: nat, city: nat, houseNumber: nat,
    usernameHex: seq<nat>,
    year: nat, month: nat, day: nat,
    password: seq<nat>)

  /** The arguments of generate_identity. `manualEmail` None stands for Python's None. */
  datatype IdentityRequest = IdentityRequest(
    country: string, gender: string, useTempEmail: bool, manualEmail: Option<string>,
    minAge: int, maxAge: int)

  /** What one call reads besides the tables: the entropy, the mail service's
      replies to provisioning attempts, the current year (`datetime.now().year`)
      and the creation timestamp (`datetime.now().strftime(...)`). */
  datatype World = World(draws: Draws, provision: nat -> ProvisionReply, currentYear: int, created: string)

  datatype Identity = Identity(
    firstName: string, lastName: string, fullName: string, email: string, phone: string,
    address: Address, username: string, birthdate: string, password: string, created: string,
    emailToken: Option<string>)

  /** What generate_identity needs in the world `w` so that no lookup raises
      KeyError, no choice is made from an empty list, and `secrets.randbelow`
      gets a positive bound. The domain list is read only when the generated
      address is used: no truthy manual e-mail, and no provisioned mailbox. */
  predicate IdentityReady(t: Tables, req: IdentityRequest, w: World) {
    && NameReady(t, req.gender, req.country, w.draws.gender)
    && EmailReady(t, req, w)
    && "US" in t.phoneFormats
    && AddressReady(t, req.country, w.draws.state)
    && req.minAge <= req.maxAge
  }

  /** The domain list is non-empty whenever generate_email is called. */
  predicate EmailReady(t: Tables, req: IdentityRequest, w: World) {
    Truthy(req.manualEmail) || (req.useTempEmail && Provisioned(w).Some?) || |t.domains| > 0
  }

  /** The email that generate_temp_email provisions in this world, if any. */
  function Provisioned(w: World): Option<string> {
    ProvisionFrom(w.provision, 0).email
  }

  /** The (email, email_token) pair of generate_identity for the name pair. */
  function ChooseEmail(t: Tables, req: IdentityRequest, w: World, first: string, last: string)
    : (r: (string, Option<string>))
    requires EmailReady(t, req, w)
    ensures Truthy(req.manualEmail) ==> r.0 == req.manualEmail.value
    ensures !Truthy(req.manualEmail) && req.useTempEmail && Provisioned(w).Some? ==>
              r.0 == Provisioned(w).value
    ensures !Truthy(req.manualEmail) && (!req.useTempEmail || Provisioned(w).None?) ==>
              IsGeneratedEmail(t, first, last, r.0)
    ensures r.1.Some? <==>
              !Truthy(req.manualEmail) && req.useTempEmail && Provisioned(w).Some?
              && ProvisionFrom(w.provision, 0).token.Some?
    ensures r.1.Some? ==> r.1 == ProvisionFrom(w.provision, 0).token
  {
    if Truthy(req.manualEmail) then (req.manualEmail.value, None)
    else if req.useTempEmail then
      var run := ProvisionFrom(w.provision, 0);
      ProvisionedNonEmpty(w);
      if run.email.None? || run.email.value == "" then
        (Email(t, first, last, w.draws.emailDomain, w.draws.emailNumber), None)
      else (run.email.value, run.token)
    else (Email(t, first, last, w.draws.emailDomain, w.draws.emailNumber), None)
  }

  /** A provisioned address is never empty, so `if not email` falls back only
      when provisioning returned None. */
  lemma ProvisionedNonEmpty(w: World)
    ensures Provisioned(w).Some? ==> Provisioned(w).value != ""
  {
    var run := ProvisionFrom(w.provision, 0);
    if run.email.Some? {
      var domains := w.provision(run.attempts - 1).domains;
      var name: string, k: nat :| OverAlphabet(name, MailboxNameChars, 10) && k < |domains|
        && run.email.value == name + "@" + domains[k];
      assert run.email.value[10] == '@';
    }
  }

  function GenerateIdentity(t: Tables, req: IdentityRequest, w: World): (r: Identity)
    requires IdentityReady(t, req, w)
    // The name pair and the fields derived from it.
    ensures r.fullName == r.firstName + " " + r.lastName
    ensures r.firstName in FirstNamePool(t, req.gender)
    ensures r.lastName in t.lastNames[LastNameKey(t, req.country)]
    ensures |r.username| == |r.firstName| + |r.lastName| + 4
    ensures r.username[..|r.firstName| + |r.lastName|] == Lower(r.firstName) + Lower(r.lastName)
    ensures OverAlphabet(r.username[|r.firstName| + |r.lastName|..], HexDigits, 4)
    // Email priority.
    ensures Truthy(req.manualEmail) ==> r.email == req.manualEmail.value
    ensures !Truthy(req.manualEmail) && req.useTempEmail && Provisioned(w).Some? ==>
              r.email == Provisioned(w).value
    ensures !Truthy(req.manualEmail) && (!req.useTempEmail || Provisioned(w).None?) ==>
              IsGeneratedEmail(t, r.firstName, r.lastName, r.email)
    // The token is kept only when a mailbox was provisioned with a non-empty one.
    ensures r.emailToken.Some? <==>
              !Truthy(req.manualEmail) && req.useTempEmail && Provisioned(w).Some?
              && Truthy(ProvisionFrom(w.provision, 0).token)
    ensures r.emailToken.Some? ==> r.emailToken == ProvisionFrom(w.provision, 0).token
    // The other fields.
    ensures FitsTemplate(PhoneTemplate(t, req.country), r.phone)
    ensures IsGeneratedAddress(t, req.country, r.address)
    ensures ParseDate(r.birthdate).Some?
            && InAgeRange(ParseDate(r.birthdate).value, w.currentYear, req.minAge, req.maxAge)
    ensures r.birthdate == FormatDate(ParseDate(r.birthdate).value)
    ensures OverAlphabet(r.password, PasswordChars, 12)
    ensures r.created == w.created
  {
    var d := w.draws;
    var name := Name(t, req.gender, req.country, d.gender, d.firstName, d.lastName);
    var first, last := name.0, name.1;
    var emailAndToken := ChooseEmail(t, req, w, first, last);
    var token := emailAndToken.1;
    Identity(
      first, last, first + " " + last, emailAndToken.0,
      Phone(t, req.country, d.phoneDigits),
      MakeAddress(t, req.country, d.state, d.street, d.city, d.houseNumber),
      Username(first, last, d.usernameHex),
      BirthDateString(w.currentYear, req.minAge, req.maxAge, d.year, d.month, d.day),
      Password(d.password),
      w.created,
      if token.Some? && token.value != "" then token else None)
  }

  // ---------------------------------------------------------------------------
  // The identity as a Python dict.
  // ---------------------------------------------------------------------------

  /** A dict value: a string, or a nested dict of strings (the address). */
  datatype Value = Text(text: string) | Nested(entries: Dict<string>)

  type Record = Dict<Value>

  /** The keys of the identity dict, in the order of the dict literal. */
  const IdentityKeys: seq<string> := [
    "first_name", "last_name", "full_name", "email", "phone", "address",
    "username", "birthdate", "password", "created"]

  const AddressKeys: seq<string> := ["street", "city", "state", "country"]

  function AddressRecord(a: Address): (d: Dict<string>)
    ensures Keys(d) == AddressKeys
  {
    [("street", a.street), ("city", a.city), ("state", a.state), ("country", a.country)]
  }

  /** The dict literal of generate_identity, before 'email_token'. */
  function BaseRecord(id: Identity): (r: Record)
    ensures Keys(r) == IdentityKeys
    ensures r[2] == ("full_name", Text(id.fullName))
    ensures r[5] == ("address", Nested(AddressRecord(id.address)))
  {
    [("first_name", Text(id.firstName)), ("last_name", Text(id.lastName)),
     ("full_name", Text(id.fullName)), ("email", Text(id.email)), ("phone", Text(id.phone)),
     ("address", Nested(AddressRecord(id.address))), ("username", Text(id.username)),
     ("birthdate", Text(id.birthdate)), ("password", Text(id.password)), ("created", Text(id.created))]
  }

  /** The dict generate_identity returns: the literal's ten keys, then
      'email_token' when there is a token. */
  function ToRecord(id: Identity): (r: Record)
    ensures Keys(r) == IdentityKeys + (if id.emailToken.Some? then ["email_token"] else [])
    ensures UniqueKeys(r)
    ensures Get(r, "full_name") == Some(Text(id.fullName))
    ensures Get(r, "address") == Some(Nested(AddressRecord(id.address)))
    ensures Get(r, "email_token") == if id.emailToken.Some? then Some(Text(id.emailToken.value)) else None
  {
    var base := BaseRecord(id);
    if id.emailToken.Some? then
      TokenAppended(base, id.fullName, id.address, id.emailToken.value);
      base + [("email_token", Text(id.emailToken.value))]
    else
      BaseFound(base, id.fullName, id.address);
      AppendNothing(IdentityKeys);
      base
  }

  /** The literal alone has the keys and values ToRecord promises without a
      token. */
  lemma BaseFound(base: Record, fullName: string, a: Address)
    requires Keys(base) == IdentityKeys
    requires base[2] == ("full_name", Text(fullName)) && base[5] == ("address", Nested(AddressRecord(a)))
    ensures UniqueKeys(base)
    ensures Get(base, "full_name") == Some(Text(fullName))
    ensures Get(base, "address") == Some(Nested(AddressRecord(a)))
    ensures Get(base, "email_token") == None
  {
    IdentityKeysDistinct();
    FieldsFound(base);
  }

  /** The literal followed by 'email_token' has the keys and values ToRecord
      promises with a token. */
  lemma TokenAppended(base: Record, fullName: string, a: Address, token: string)
    requires Keys(base) == IdentityKeys
    requires base[2] == ("full_name", Text(fullName)) && base[5] == ("address", Nested(AddressRecord(a)))
    ensures var r := base + [("email_token", Text(token))];
            && Keys(r) == IdentityKeys + ["email_token"] && UniqueKeys(r)
            && Get(r, "full_name") == Some(Text(fullName))
            && Get(r, "address") == Some(Nested(AddressRecord(a)))
            && Get(r, "email_token") == Some(Text(token))
  {
    var r := base + [("email_token", Text(token))];
    IdentityKeysDistinct();
    DistinctAppend(IdentityKeys, "email_token");
    assert Keys(r) == IdentityKeys + ["email_token"];
    assert r[2] == base[2] && r[5] == base[5];
    FieldsFound(r);
  }

  /** Every key of the dict holds the identity's own field: `record["email"]`
      is the email, `record["birthdate"]` the birth date, and so on. */
  lemma ToRecordValues(id: Identity)
    ensures var r := ToRecord(id);
            && Get(r, "first_name") == Some(Text(id.firstName))
            && Get(r, "last_name") == Some(Text(id.lastName))
            && Get(r, "full_name") == Some(Text(id.fullName))
            && Get(r, "email") == Some(Text(id.email))
            && Get(r, "phone") == Some(Text(id.phone))
            && Get(r, "address") == Some(Nested(AddressRecord(id.address)))
            && Get(r, "username") == Some(Text(id.username))
            && Get(r, "birthdate") == Some(Text(id.birthdate))
            && Get(r, "password") == Some(Text(id.password))
            && Get(r, "created") == Some(Text(id.created))
  {
    var r := ToRecord(id);
    var base := BaseRecord(id);
    RecordPrefix(id);
    PrefixFound(r, base);
    BaseEntries(id);
  }

  /** The literal's entries come first in the dict. */
  lemma RecordPrefix(id: Identity)
    ensures |ToRecord(id)| >= 10 && ToRecord(id)[..10] == BaseRecord(id)
  {
  }

  /** The literal's entries, one by one. */
  lemma BaseEntries(id: Identity)
    ensures var b := BaseRecord(id);
            && b[0] == ("first_name", Text(id.firstName)) && b[1] == ("last_name", Text(id.lastName))
            && b[3] == ("email", Text(id.email)) && b[4] == ("phone", Text(id.phone))
            && b[6] == ("username", Text(id.username)) && b[7] == ("birthdate", Text(id.birthdate))
            && b[8] == ("password", Text(id.password)) && b[9] == ("created", Text(id.created))
  {
  }

  /** A dict whose first ten entries are the literal finds each of them. */
  lemma PrefixFound(r: Record, base: Record)
    requires UniqueKeys(r) && |r| >= 10 && |base| == 10 && r[..10] == base
    ensures forall j :: 0 <= j < 10 ==> Get(r, base[j].0) == Some(base[j].1)
  {
    forall j | 0 <= j < 10
      ensures Get(r, base[j].0) == Some(base[j].1)
    {
      assert r[j] == base[j];
      GetAt(r, j);
    }
  }

  lemma IdentityKeysDistinct()
    ensures Distinct(IdentityKeys) && "email_token" !in IdentityKeys
  {
  }

  lemma FieldsFound(r: Record)
    requires UniqueKeys(r) && |r| >= 10
    ensures Get(r, r[2].0) == Some(r[2].1) && Get(r, r[5].0) == Some(r[5].1)
    ensures Get(r, r[|r| - 1].0) == Some(r[|r| - 1].1)
  {
    GetAt(r, 2);
    GetAt(r, 5);
    GetAt(r, |r| - 1);
  }
}
