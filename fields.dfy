/** The field generators of `TemporaryIdentityGenerator` (generator.py): each
    draws one attribute of an identity from the lookup tables and the entropy
    source. Every draw is an arbitrary natural number, so each soundness
    contract below holds for every outcome of `secrets`; the `...Reaches`
    lemmas show the converse, that every value the contract allows is
    produced by some draws. */
module Fields {
  import opened Common

  /** The lookup tables the constructor leaves in place. `stateMaps` is fixed in
      the source; the others come from the configuration files or, when those
      are missing, from the built-in defaults. */
  datatype Tables = Tables(
    stateMaps: map<string, seq<string>>,
    firstNames: map<string, seq<string>>,
    lastNames: map<string, seq<string>>,
    domains: seq<string>,
    streets: map<string, seq<string>>,
    addresses: map<string, seq<string>>,
    phoneFormats: map<string, string>)

  /** The built-in tables (generator.py:25-35). */
  const DefaultTables: Tables := Tables(
    map["US" := ["CA", "NY", "TX"], "in" := ["MH", "DL", "KA"]],
    map["male" := ["John", "Michael"], "female" := ["Mary", "Sarah"], "neutral" := ["Alex", "Taylor"]],
    map["US" := ["Smith", "Johnson"]],
    ["example.com", "test.org"],
    map["US" := ["Main St", "Elm St"], "in" := ["MG Road", "Park Ave"]],
    map["CA" := ["San Francisco", "Los Angeles"], "NY" := ["New York", "Albany"], "MH" := ["Mumbai", "Pune"]],
    map["US" := "+1-###-###-####", "in" := "+91-#####-#####"])

  // ---------------------------------------------------------------------------
  // generate_name
  // ---------------------------------------------------------------------------

  const Genders: seq<string> := ["male", "female", "neutral"]

  /** True when the gender argument means "any": missing (None or "") or "any"
      in any letter case. */
  predicate AnyGender(gender: string) {
    gender == "" || Lower(gender) == "any"
  }

  /** The gender buckets a call can look up: the lower-cased argument, or each
      of the three when the argument means "any". */
  function GenderCandidates(gender: string): seq<string> {
    if AnyGender(gender) then Genders else [Lower(gender)]
  }

  /** The gender after lower-casing and, for "any", the random pick `d`. */
  function ResolveGender(gender: string, d: nat): (g: string)
    ensures g in GenderCandidates(gender)
  {
    if AnyGender(gender) then Pick(Genders, d) else Lower(gender)
  }

  function FirstNameKey(t: Tables, g: string): string {
    if g in t.firstNames then g else "neutral"
  }

  function LastNameKey(t: Tables, country: string): string {
    if country in t.lastNames then country else "US"
  }

  /** What generate_name needs so that no lookup raises KeyError and neither
      choice it makes is from an empty list: the 'neutral' and 'US' entries
      that the source reads unconditionally, a non-empty list behind the
      bucket of the gender resolved with the pick `dGender`, and a non-empty
      list behind the country. Other buckets may be empty. */
  predicate NameReady(t: Tables, gender: string, country: string, dGender: nat) {
    && "neutral" in t.firstNames
    && "US" in t.lastNames
    && |t.firstNames[FirstNameKey(t, ResolveGender(gender, dGender))]| > 0
    && |t.lastNames[LastNameKey(t, country)]| > 0
  }

  /** The first names a call with this gender argument can return. */
  function FirstNamePool(t: Tables, gender: string): seq<string>
    requires "neutral" in t.firstNames
  {
    if AnyGender(gender) then
      t.firstNames[FirstNameKey(t, "male")] + t.firstNames[FirstNameKey(t, "female")]
        + t.firstNames[FirstNameKey(t, "neutral")]
    else t.firstNames[FirstNameKey(t, Lower(gender))]
  }

  /** generate_name(gender, country), with draws for the gender pick, the first
      name and the last name. */
  function Name(t: Tables, gender: string, country: string, dGender: nat, dFirst: nat, dLast: nat)
    : (r: (string, string))
    requires NameReady(t, gender, country, dGender)
    ensures !AnyGender(gender) && Lower(gender) in t.firstNames ==> r.0 in t.firstNames[Lower(gender)]
    ensures !AnyGender(gender) && Lower(gender) !in t.firstNames ==> r.0 in t.firstNames["neutral"]
    ensures r.0 in FirstNamePool(t, gender)
    ensures country in t.lastNames ==> r.1 in t.lastNames[country]
    ensures country !in t.lastNames ==> r.1 in t.lastNames["US"]
  {
    var g := ResolveGender(gender, dGender);
    (Pick(t.firstNames[FirstNameKey(t, g)], dFirst), Pick(t.lastNames[LastNameKey(t, country)], dLast))
  }

  /** Every name pair from the gender argument's pool and the country's list
      is produced by some draws that raise nothing; under "any", the gender
      pick selects a bucket that holds the first name. */
  lemma NameReaches(t: Tables, gender: string, country: string, first: string, last: string)
    requires "neutral" in t.firstNames && "US" in t.lastNames
    requires first in FirstNamePool(t, gender)
    requires last in t.lastNames[LastNameKey(t, country)]
    ensures exists dGender: nat, dFirst: nat, dLast: nat ::
              NameReady(t, gender, country, dGender) && Name(t, gender, country, dGender, dFirst, dLast) == (first, last)
  {
    var g := Lower(gender);
    if AnyGender(gender) {
      g := if first in t.firstNames[FirstNameKey(t, "male")] then "male"
           else if first in t.firstNames[FirstNameKey(t, "female")] then "female"
           else "neutral";
    }
    var dGender := if AnyGender(gender) then IndexOf(Genders, g) else 0;
    if AnyGender(gender) {
      PickIndexOf(Genders, g);
    }
    assert ResolveGender(gender, dGender) == g;
    var firsts := t.firstNames[FirstNameKey(t, g)];
    assert first in firsts;
    PickIndexOf(firsts, first);
    PickIndexOf(t.lastNames[LastNameKey(t, country)], last);
    var dFirst := IndexOf(firsts, first);
    var dLast := IndexOf(t.lastNames[LastNameKey(t, country)], last);
    assert NameReady(t, gender, country, dGender);
    assert Name(t, gender, country, dGender, dFirst, dLast) == (first, last);
  }

  // ---------------------------------------------------------------------------
  // generate_email
  // ---------------------------------------------------------------------------

  /** The shape of a generated address: lower-cased first name, '.', lower-cased
      last name, a number below 1000 without padding, '@', a configured domain. */
  ghost predicate IsGeneratedEmail(t: Tables, first: string, last: string, e: string) {
    exists n: nat, k: nat :: n < 1000 && k < |t.domains|
      && e == Lower(first) + "." + Lower(last) + NatToString(n) + "@" + t.domains[k]
  }

  function Email(t: Tables, first: string, last: string, dDomain: nat, dNumber: nat): (e: string)
    requires |t.domains| > 0
    ensures IsGeneratedEmail(t, first, last, e)
  {
    var domain := Pick(t.domains, dDomain);
    var n := Below(dNumber, 1000);
    var e := Lower(first) + "." + Lower(last) + NatToString(n) + "@" + domain;
    assert e == Lower(first) + "." + Lower(last) + NatToString(n) + "@" + t.domains[Below(dDomain, |t.domains|)];
    e
  }

  lemma EmailReaches(t: Tables, first: string, last: string, e: string)
    requires |t.domains| > 0 && IsGeneratedEmail(t, first, last, e)
    ensures exists dDomain: nat, dNumber: nat :: Email(t, first, last, dDomain, dNumber) == e
  {
    var n: nat, k: nat :| n < 1000 && k < |t.domains|
      && e == Lower(first) + "." + Lower(last) + NatToString(n) + "@" + t.domains[k];
    SmallBelow(k, |t.domains|);
    SmallBelow(n, 1000);
    assert Email(t, first, last, k, n) == e;
  }

  // ---------------------------------------------------------------------------
  // generate_phone
  // ---------------------------------------------------------------------------

  /** The format for the country, or the 'US' format when it has none. */
  function PhoneTemplate(t: Tables, country: string): string
    requires "US" in t.phoneFormats
  {
    if country in t.phoneFormats then t.phoneFormats[country] else t.phoneFormats["US"]
  }

  /** `p` is the template with each '#' replaced by a digit and every other
      character kept in place. */
  predicate FitsTemplate(template: string, p: string) {
    |p| == |template|
    && forall i :: 0 <= i < |p| ==> if template[i] == '#' then IsDigit(p[i]) else p[i] == template[i]
  }

  function Tail(ds: seq<nat>): seq<nat> {
    if ds == [] then [] else ds[1..]
  }

  /** `''.join(secrets.choice(string.digits) if c == '#' else c for c in template)`;
      each '#' consumes the next draw. */
  function FillTemplate(template: string, ds: seq<nat>): (p: string)
    ensures FitsTemplate(template, p)
    decreases template
  {
    if template == [] then []
    else if template[0] == '#' then [DigitChar(At(ds, 0) % 10)] + FillTemplate(template[1..], Tail(ds))
    else [template[0]] + FillTemplate(template[1..], ds)
  }

  function Phone(t: Tables, country: string, ds: seq<nat>): (p: string)
    requires "US" in t.phoneFormats
    ensures country in t.phoneFormats ==> FitsTemplate(t.phoneFormats[country], p)
    ensures country !in t.phoneFormats ==> FitsTemplate(t.phoneFormats["US"], p)
  {
    FillTemplate(PhoneTemplate(t, country), ds)
  }

  /** The digits of `p` at the '#' positions of the template, in order. */
  function DigitDraws(template: string, p: string): (ds: seq<nat>)
    requires FitsTemplate(template, p)
    decreases template
  {
    if template == [] then []
    else
      assert FitsTemplate(template[1..], p[1..]) by {
        forall i | 0 <= i < |p[1..]|
          ensures if template[1..][i] == '#' then IsDigit(p[1..][i]) else p[1..][i] == template[1..][i]
        {
          assert template[1..][i] == template[i + 1] && p[1..][i] == p[i + 1];
        }
      }
      if template[0] == '#' then [DigitValue(p[0])] + DigitDraws(template[1..], p[1..])
      else DigitDraws(template[1..], p[1..])
  }

  /** Every string that fits the template is a possible phone number. */
  lemma {:induction false} FillTemplateReaches(template: string, p: string)
    requires FitsTemplate(template, p)
    ensures FillTemplate(template, DigitDraws(template, p)) == p
    decreases template
  {
    if template != [] {
      var ds := DigitDraws(template, p);
      FillTemplateReaches(template[1..], p[1..]);
      if template[0] == '#' {
        assert Tail(ds) == DigitDraws(template[1..], p[1..]);
        assert At(ds, 0) % 10 == DigitValue(p[0]);
        ValueDigitChar(p[0]);
      }
      assert p == [p[0]] + p[1..];
    }
  }

  // ---------------------------------------------------------------------------
  // generate_address
  // ---------------------------------------------------------------------------

  datatype Address = Address(street: string, city: string, state: string, country: string)

  /** The country after `country if country in self.state_maps else 'US'`. */
  function AddressCountry(t: Tables, country: string): string {
    if country in t.stateMaps then country else "US"
  }

  function StreetNames(t: Tables, country: string): seq<string>
    requires "US" in t.streets
  {
    if country in t.streets then t.streets[country] else t.streets["US"]
  }

  /** The cities of a state, or those of 'CA' when the state has no entry. */
  function Cities(t: Tables, state: string): seq<string>
    requires "CA" in t.addresses
  {
    if state in t.addresses then t.addresses[state] else t.addresses["CA"]
  }

  /** The lookups generate_address makes whatever the draws: the 'US' and 'CA'
      entries read unconditionally, and non-empty state and street lists for
      the country. */
  predicate AddressTables(t: Tables, country: string) {
    && "US" in t.stateMaps && "US" in t.streets && "CA" in t.addresses
    && |t.stateMaps[AddressCountry(t, country)]| > 0
    && |StreetNames(t, AddressCountry(t, country))| > 0
  }

  /** What generate_address needs so that no lookup raises KeyError and no
      choice is made from an empty list: the tables above, and a non-empty
      city list for the state that the pick `dState` selects. */
  predicate AddressReady(t: Tables, country: string, dState: nat) {
    && AddressTables(t, country)
    && |Cities(t, Pick(t.stateMaps[AddressCountry(t, country)], dState))| > 0
  }

  /** The addresses generate_address can return for `country`. */
  ghost predicate IsGeneratedAddress(t: Tables, country: string, a: Address)
    requires AddressTables(t, country)
  {
    && a.country == AddressCountry(t, country)
    && a.state in t.stateMaps[a.country]
    && a.city in Cities(t, a.state)
    && exists n: nat, k: nat :: n < 1000 && k < |StreetNames(t, a.country)|
         && a.street == NatToString(n) + " " + StreetNames(t, a.country)[k]
  }

  function MakeAddress(t: Tables, country: string, dState: nat, dStreet: nat, dCity: nat, dNumber: nat)
    : (a: Address)
    requires AddressReady(t, country, dState)
    ensures country in t.stateMaps ==> a.country == country
    ensures country !in t.stateMaps ==> a.country == "US"
    ensures a.state in t.stateMaps[a.country]
    ensures a.state in t.addresses ==> a.city in t.addresses[a.state]
    ensures a.state !in t.addresses ==> a.city in t.addresses["CA"]
    ensures IsGeneratedAddress(t, country, a)
  {
    var c := AddressCountry(t, country);
    var state := Pick(t.stateMaps[c], dState);
    var k := Below(dStreet, |StreetNames(t, c)|);
    var city := Pick(Cities(t, state), dCity);
    var n := Below(dNumber, 1000);
    Address(NatToString(n) + " " + StreetNames(t, c)[k], city, state, c)
  }

  lemma AddressReaches(t: Tables, country: string, a: Address)
    requires AddressTables(t, country) && IsGeneratedAddress(t, country, a)
    ensures exists dState: nat, dStreet: nat, dCity: nat, dNumber: nat ::
              AddressReady(t, country, dState) && MakeAddress(t, country, dState, dStreet, dCity, dNumber) == a
  {
    var n: nat, k: nat :| n < 1000 && k < |StreetNames(t, a.country)|
      && a.street == NatToString(n) + " " + StreetNames(t, a.country)[k];
    var dState := IndexOf(t.stateMaps[a.country], a.state);
    var dCity := IndexOf(Cities(t, a.state), a.city);
    PickIndexOf(t.stateMaps[a.country], a.state);
    PickIndexOf(Cities(t, a.state), a.city);
    SmallBelow(k, |StreetNames(t, a.country)|);
    SmallBelow(n, 1000);
    assert AddressReady(t, country, dState);
    var m := MakeAddress(t, country, dState, k, dCity, n);
    assert m.country == a.country;
    assert m.state == a.state;
    assert m.city == a.city;
    assert m.street == a.street;
  }

  // ---------------------------------------------------------------------------
  // generate_username
  // ---------------------------------------------------------------------------

  /** `first.lower() + last.lower() + secrets.token_hex(2)`. */
  function Username(first: string, last: string, ds: seq<nat>): (u: string)
    ensures |u| == |first| + |last| + 4
    ensures u[..|first| + |last|] == Lower(first) + Lower(last)
    ensures OverAlphabet(u[|first| + |last|..], HexDigits, 4)
  {
    var u := Lower(first) + Lower(last) + RandomString(HexDigits, ds, 4);
    assert u[|first| + |last|..] == RandomString(HexDigits, ds, 4);
    u
  }

  lemma UsernameReaches(first: string, last: string, suffix: string)
    requires OverAlphabet(suffix, HexDigits, 4)
    ensures Username(first, last, DrawsFor(HexDigits, suffix)) == Lower(first) + Lower(last) + suffix
  {
    RandomStringReaches(HexDigits, suffix, 4);
  }

  // ---------------------------------------------------------------------------
  // generate_birthdate
  // ---------------------------------------------------------------------------

  datatype Date = Date(year: int, month: nat, day: nat)

  /** The dates generate_birthdate can pick: a year between currentYear - maxAge
      and currentYear - minAge, a month 1..12 and a day 1..28 (the source caps
      the day at 28 for every month). */
  predicate InAgeRange(d: Date, currentYear: int, minAge: int, maxAge: int) {
    && currentYear - maxAge <= d.year <= currentYear - minAge
    && 1 <= d.month <= 12
    && 1 <= d.day <= 28
  }

  function BirthDate(currentYear: int, minAge: int, maxAge: int, dYear: nat, dMonth: nat, dDay: nat)
    : (d: Date)
    requires minAge <= maxAge
    ensures InAgeRange(d, currentYear, minAge, maxAge)
  {
    var startYear := currentYear - maxAge;
    var endYear := currentYear - minAge;
    Date(Below(dYear, endYear - startYear + 1) + startYear, Below(dMonth, 12) + 1, Below(dDay, 28) + 1)
  }

  /** `f"{year}-{month:02d}-{day:02d}"`: the rendering reads back as the same
      date, and the year is printed without padding. */
  function FormatDate(d: Date): (s: string)
    requires d.month < 100 && d.day < 100
    ensures ParseDate(s) == Some(d)
    ensures |s| == |IntToString(d.year)| + 6
  {
    var y := IntToString(d.year);
    var s := y + "-" + Pad2(d.month) + "-" + Pad2(d.day);
    assert s[..|s| - 6] == y;
    assert s[|s| - 5..|s| - 3] == Pad2(d.month);
    assert s[|s| - 2..] == Pad2(d.day);
    ParseIntToString(d.year);
    ParsePad2(d.month);
    ParsePad2(d.day);
    s
  }

  /** Reads back a `YYYY-MM-DD` string: the last six characters are
      "-MM-DD", everything before them is the year. */
  function ParseDate(s: string): Option<Date> {
    if |s| < 7 || s[|s| - 6] != '-' || s[|s| - 3] != '-' then None
    else
      var y, m, d := s[..|s| - 6], s[|s| - 5..|s| - 3], s[|s| - 2..];
      if !AllDigits(m) || !AllDigits(d) then None
      else match ParseInt(y)
        case None => None
        case Some(year) => Some(Date(year, ParseNat(m), ParseNat(d)))
  }

  /** generate_birthdate(min_age, max_age) for the year `currentYear`: the
      string reads back as a date within the age range. */
  function BirthDateString(currentYear: int, minAge: int, maxAge: int, dYear: nat, dMonth: nat, dDay: nat)
    : (s: string)
    requires minAge <= maxAge
    ensures ParseDate(s).Some? && InAgeRange(ParseDate(s).value, currentYear, minAge, maxAge)
    ensures s == FormatDate(ParseDate(s).value)
  {
    var d := BirthDate(currentYear, minAge, maxAge, dYear, dMonth, dDay);
    FormatDate(d)
  }

  lemma BirthDateReaches(currentYear: int, minAge: int, maxAge: int, d: Date)
    requires minAge <= maxAge && InAgeRange(d, currentYear, minAge, maxAge)
    ensures exists dYear: nat, dMonth: nat, dDay: nat ::
              BirthDate(currentYear, minAge, maxAge, dYear, dMonth, dDay) == d
  {
    var dYear := d.year - (currentYear - maxAge);
    SmallBelow(dYear, maxAge - minAge + 1);
    SmallBelow(d.month - 1, 12);
    SmallBelow(d.day - 1, 28);
    assert BirthDate(currentYear, minAge, maxAge, dYear, d.month - 1, d.day - 1) == d;
  }

  // ---------------------------------------------------------------------------
  // generate_password
  // ---------------------------------------------------------------------------

  /** `string.ascii_letters + string.digits + string.punctuation`. */
  const PasswordChars: string :=
    "abcdefghijklmnopqrstuvwxyzABCDEFGHIJKLMNOPQRSTUVWXYZ" + "0123456789"
    + "!\"#$%&'()*+,-./:;<=>?@[\\]^_`{|}~"

  function Password(ds: seq<nat>): (p: string)
    ensures OverAlphabet(p, PasswordChars, 12)
  {
    RandomString(PasswordChars, ds, 12)
  }

  lemma PasswordReaches(p: string)
    requires OverAlphabet(p, PasswordChars, 12)
    ensures exists ds :: Password(ds) == p
  {
    RandomStringReaches(PasswordChars, p, 12);
    assert Password(DrawsFor(PasswordChars, p)) == p;
  }

  // ---------------------------------------------------------------------------
  // Facts about the built-in tables.
  // ---------------------------------------------------------------------------

  /** The built-in tables satisfy every generator's needs, for every country,
      gender argument and draw. */
  lemma DefaultTablesReady(gender: string, country: string, dGender: nat, dState: nat)
    ensures NameReady(DefaultTables, gender, country, dGender)
    ensures AddressReady(DefaultTables, country, dState)
    ensures "US" in DefaultTables.phoneFormats && |DefaultTables.domains| > 0
  {
    var t := DefaultTables;
    var g := ResolveGender(gender, dGender);
    assert |t.firstNames[FirstNameKey(t, g)]| > 0 by {
      if g !in t.firstNames {
        assert FirstNameKey(t, g) == "neutral";
      }
    }
    var c := AddressCountry(t, country);
    assert c == "US" || c == "in";
    var s := Pick(t.stateMaps[c], dState);
    assert s in t.stateMaps[c];
    assert |Cities(t, s)| > 0;
  }

  /** With the built-in tables, states without a city list (TX, DL, KA) draw
      their city from the 'CA' list. */
  lemma DefaultCityFallback(state: string)
    requires state in ["TX", "DL", "KA"]
    ensures Cities(DefaultTables, state) == ["San Francisco", "Los Angeles"]
  {
    assert state !in DefaultTables.addresses;
  }
}
