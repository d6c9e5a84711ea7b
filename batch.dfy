/** `generate_batch_identities` (generator.py) and the CSV branch of
    `save_identity`: a batch of identity dicts, optionally cut down to a list
    of requested fields, and the flattening of nested dicts into CSV columns. */
module Batch {
  import opened Common
  import opened Dict
  import opened Fields
  import opened Assembly

  // ---------------------------------------------------------------------------
  // Field projection.
  // ---------------------------------------------------------------------------

  /** The field names that reach into the nested address dict. */
  const AddressFields: seq<string> := ["address_street", "address_city", "address_state", "address_country"]

  /** `field.split('_')[1]` for one of the address fields: the part after "address_". */
  function AddressSubkey(field: string): (sub: string)
    requires field in AddressFields
    ensures field == "address_" + sub
    ensures sub in AddressKeys
  {
    field[8..]
  }

  /** The value the projection copies for `field` out of `id`, if any: a
      top-level key first, else one of the four address fields when the
      address is a dict holding that subkey. */
  function Lookup(id: Record, field: string): (r: Option<Value>)
    ensures field in Keys(id) ==> r == Get(id, field)
    ensures field !in Keys(id) && field !in AddressFields ==> r.None?
    ensures r.Some? && field !in Keys(id) ==>
              && field in AddressFields
              && Get(id, "address").Some? && Get(id, "address").value.Nested?
              && r.value.Text?
              && Get(Get(id, "address").value.entries, AddressSubkey(field)) == Some(r.value.text)
  {
    if field in Keys(id) then Get(id, field)
    else if field in AddressFields then
      var address := Get(id, "address");
      if address.Some? && address.value.Nested? then
        var sub := AddressSubkey(field);
        if sub in Keys(address.value.entries) then Some(Text(Get(address.value.entries, sub).value))
        else None
      else None
    else None
  }

  /** The filtered dict after the loop has handled `fields`, in order. */
  function Project(id: Record, fields: seq<string>): Record
    decreases |fields|
  {
    if fields == [] then []
    else
      var acc := Project(id, fields[..|fields| - 1]);
      var field := fields[|fields| - 1];
      match Lookup(id, field)
      case Some(v) => Put(acc, field, v)
      case None => acc
  }

  /** The inner loop of generate_batch_identities. */
  method ProjectIdentity(id: Record, fields: seq<string>) returns (filtered: Record)
    ensures filtered == Project(id, fields)
  {
    filtered := [];
    var i := 0;
    while i < |fields|
      invariant 0 <= i <= |fields|
      invariant filtered == Project(id, fields[..i])
    {
      var field := fields[i];
      assert fields[..i + 1][..i] == fields[..i];
      if field in Keys(id) {
        filtered := Put(filtered, field, Get(id, field).value);
      } else if field in AddressFields {
        var address := Get(id, "address");
        if address.Some? && address.value.Nested? {
          var sub := AddressSubkey(field);
          if sub in Keys(address.value.entries) {
            filtered := Put(filtered, field, Text(Get(address.value.entries, sub).value));
          }
        }
      }
      i := i + 1;
    }
    assert fields[..i] == fields;
  }

  /** The projection holds exactly the requested fields that resolve, each
      once and with the value it resolves to. */
  lemma {:induction false} ProjectGet(id: Record, fields: seq<string>)
    ensures forall k :: Get(Project(id, fields), k) == if k in fields then Lookup(id, k) else None
    ensures UniqueKeys(Project(id, fields))
    decreases |fields|
  {
    if fields != [] {
      var pre, field := fields[..|fields| - 1], fields[|fields| - 1];
      assert fields == pre + [field];
      ProjectGet(id, pre);
      match Lookup(id, field)
      case Some(v) => PutUnique(Project(id, pre), field, v);
      case None =>
    }
  }

  /** Every key of `r` is requested in `fields`, and the keys appear in the
      order of their first request. */
  predicate InRequestOrder(r: Record, fields: seq<string>) {
    && (forall i :: 0 <= i < |r| ==> r[i].0 in fields)
    && (forall i, j :: 0 <= i < j < |r| ==> IndexOf(fields, r[i].0) < IndexOf(fields, r[j].0))
  }

  /** The projected fields keep the order of their first request. */
  lemma {:induction false} ProjectOrder(id: Record, fields: seq<string>)
    ensures InRequestOrder(Project(id, fields), fields)
    decreases |fields|
  {
    if fields != [] {
      var pre, field := fields[..|fields| - 1], fields[|fields| - 1];
      assert fields == pre + [field];
      ProjectOrder(id, pre);
      ProjectOrderStep(id, pre, field);
    }
  }

  lemma ProjectOrderStep(id: Record, pre: seq<string>, field: string)
    requires InRequestOrder(Project(id, pre), pre)
    ensures InRequestOrder(Project(id, pre + [field]), pre + [field])
  {
    var fields := pre + [field];
    assert fields[..|fields| - 1] == pre;
    var acc := Project(id, pre);
    var r := Project(id, fields);
    forall k | k in pre
      ensures IndexOf(fields, k) == IndexOf(pre, k)
    {
      IndexOfAppend(pre, field, k);
    }
    match Lookup(id, field)
    case Some(v) =>
      if field !in Keys(acc) {
        ProjectGet(id, pre);
        assert field !in pre;
        FreshKeyAppended(acc, field, v);
        IndexOfAppendNew(pre, field);
      } else {
        assert Keys(r) == Keys(acc);
      }
    case None =>
  }

  /** Put of a new key appends it and keeps the earlier keys in place. */
  lemma FreshKeyAppended<V>(d: Dict<V>, k: string, v: V)
    requires k !in Keys(d)
    ensures |Put(d, k, v)| == |d| + 1 && Put(d, k, v)[|d|].0 == k
    ensures forall i :: 0 <= i < |d| ==> Put(d, k, v)[i].0 == d[i].0
  {
    var r := Put(d, k, v);
    assert Keys(r) == Keys(d) + [k];
  }

  // ---------------------------------------------------------------------------
  // What the projection keeps of a generated identity.
  // ---------------------------------------------------------------------------

  /** The field names the shell accepts (`all_valid`). */
  const ValidFields: seq<string> := ValidKeys + AddressFields

  /** The address fields are not top-level keys, and each names the
      address subkey in the same position. */
  lemma AddressFieldNames()
    ensures forall f :: f in AddressFields ==> f !in ValidKeys
    ensures forall i :: 0 <= i < 4 ==> AddressSubkey(AddressFields[i]) == AddressKeys[i]
  {
  }

  /** The top-level keys a generated identity dict can have. */
  const ValidKeys: seq<string> := IdentityKeys + ["email_token"]

  /** An address field that is not a top-level key resolves to the
      matching entry of the nested address dict. */
  lemma LookupAddressField(r: Record, a: Dict<string>, i: nat)
    requires i < 4 && AddressFields[i] !in Keys(r)
    requires Get(r, "address") == Some(Nested(a)) && Keys(a) == AddressKeys && UniqueKeys(a)
    ensures Lookup(r, AddressFields[i]) == Some(Text(a[i].1))
  {
    AddressFieldNames();
    GetAt(a, i);
  }

  /** The shape of a generated identity dict: the literal's keys, then
      'email_token' when there is a token, each once, with the address as a
      nested dict. */
  predicate IdentityShaped(r: Record, a: Address, hasToken: bool) {
    && Keys(r) == IdentityKeys + (if hasToken then ["email_token"] else [])
    && UniqueKeys(r)
    && Get(r, "address") == Some(Nested(AddressRecord(a)))
  }

  lemma GeneratedShape(id: Identity)
    ensures IdentityShaped(ToRecord(id), id.address, id.emailToken.Some?)
  {
  }

  lemma AddressKeysUnique(a: Address)
    ensures UniqueKeys(AddressRecord(a))
  {
  }

  /** No address field is a top-level key of an identity dict. */
  lemma AddressFieldsNotKeys(r: Record, a: Address, hasToken: bool)
    requires IdentityShaped(r, a, hasToken)
    ensures forall i :: 0 <= i < 4 ==> AddressFields[i] !in Keys(r)
  {
    AddressFieldNames();
    assert forall k :: k in Keys(r) ==> k in ValidKeys;
  }

  lemma ShapedAddressFields(r: Record, a: Address, hasToken: bool)
    requires IdentityShaped(r, a, hasToken)
    ensures forall i :: 0 <= i < 4 ==> Lookup(r, AddressFields[i]) == Some(Text(AddressRecord(a)[i].1))
  {
    AddressKeysUnique(a);
    AddressFieldsNotKeys(r, a, hasToken);
    forall i | 0 <= i < 4
      ensures Lookup(r, AddressFields[i]) == Some(Text(AddressRecord(a)[i].1))
    {
      LookupAddressField(r, AddressRecord(a), i);
    }
  }

  /** Every address field of a generated identity resolves to the matching
      part of the address. */
  lemma AddressFieldsResolve(id: Identity)
    ensures forall i :: 0 <= i < 4 ==>
              Lookup(ToRecord(id), AddressFields[i]) == Some(Text(AddressRecord(id.address)[i].1))
  {
    GeneratedShape(id);
    ShapedAddressFields(ToRecord(id), id.address, id.emailToken.Some?);
  }

  lemma TopLevelFieldValid(r: Record, a: Address, hasToken: bool, field: string)
    requires IdentityShaped(r, a, hasToken) && field in Keys(r)
    ensures Lookup(r, field).Some?
    ensures field in ValidFields && (field == "email_token" ==> hasToken)
  {
    assert field in ValidKeys;
  }

  lemma AddressFieldResolves(r: Record, a: Address, hasToken: bool, field: string)
    requires IdentityShaped(r, a, hasToken) && field in AddressFields
    ensures Lookup(r, field).Some? && field in ValidFields
  {
    ShapedAddressFields(r, a, hasToken);
    var i :| 0 <= i < 4 && AddressFields[i] == field;
  }

  lemma UnknownFieldInvalid(r: Record, a: Address, hasToken: bool, field: string)
    requires IdentityShaped(r, a, hasToken) && field !in Keys(r) && field !in AddressFields
    ensures Lookup(r, field).None?
    ensures !(field in ValidFields && (field == "email_token" ==> hasToken))
  {
    assert field !in IdentityKeys;
  }

  lemma ShapedResolves(r: Record, a: Address, hasToken: bool, field: string)
    requires IdentityShaped(r, a, hasToken)
    ensures Lookup(r, field).Some? <==> field in ValidFields && (field == "email_token" ==> hasToken)
  {
    if field in Keys(r) {
      TopLevelFieldValid(r, a, hasToken, field);
    } else if field in AddressFields {
      AddressFieldResolves(r, a, hasToken, field);
    } else {
      UnknownFieldInvalid(r, a, hasToken, field);
    }
  }

  /** A field of a generated identity resolves exactly when it is one of the
      valid fields, except that 'email_token' needs a token: every other name
      is dropped. */
  lemma ResolvesExactly(id: Identity, field: string)
    ensures Lookup(ToRecord(id), field).Some? <==>
              field in ValidFields && (field == "email_token" ==> id.emailToken.Some?)
  {
    GeneratedShape(id);
    ShapedResolves(ToRecord(id), id.address, id.emailToken.Some?, field);
  }

  // ---------------------------------------------------------------------------
  // The batch.
  // ---------------------------------------------------------------------------

  /** What one iteration keeps of a dict: all of it, or its projection when
      the field list is present and non-empty (`if fields:`). */
  function Filtered(record: Record, fields: Option<seq<string>>): Record {
    if fields.Some? && |fields.value| > 0 then Project(record, fields.value) else record
  }

  /** One entry of the batch: the dict of the identity generated in `w`, filtered. */
  function BatchEntry(t: Tables, req: IdentityRequest, w: World, fields: Option<seq<string>>): Record
    requires IdentityReady(t, req, w)
  {
    Filtered(ToRecord(GenerateIdentity(t, req, w)), fields)
  }

  /** One iteration of the batch loop: generate, then filter when asked. */
  method BatchIdentity(t: Tables, req: IdentityRequest, w: World, fields: Option<seq<string>>)
    returns (identity: Record)
    requires IdentityReady(t, req, w)
    ensures identity == BatchEntry(t, req, w, fields)
  {
    var record := ToRecord(GenerateIdentity(t, req, w));
    identity := record;
    if fields.Some? && |fields.value| > 0 {
      identity := ProjectIdentity(record, fields.value);
    }
  }

  /** Every one of the first n iterations can complete in its own world. */
  predicate BatchReady(t: Tables, req: IdentityRequest, worlds: nat -> World, n: nat) {
    forall i: nat :: i < n ==> IdentityReady(t, req, worlds(i))
  }

  /** The entry generated in the i-th iteration. An iteration whose world is
      not ready raises in the source; its placeholder value here is never
      part of a batch that BatchReady admits. */
  function EntryOf(t: Tables, req: IdentityRequest, worlds: nat -> World, fields: Option<seq<string>>)
    : nat -> Record
  {
    (i: nat) => if IdentityReady(t, req, worlds(i)) then BatchEntry(t, req, worlds(i), fields) else []
  }

  /** The first n entries of a batch whose i-th entry is `entry(i)`. */
  function Entries(entry: nat -> Record, n: nat): seq<Record> {
    if n == 0 then [] else Entries(entry, n - 1) + [entry(n - 1)]
  }

  lemma {:induction false} EntriesAt(entry: nat -> Record, n: nat)
    ensures |Entries(entry, n)| == n
    ensures forall i :: 0 <= i < n ==> Entries(entry, n)[i] == entry(i)
  {
    if n > 0 {
      EntriesAt(entry, n - 1);
    }
  }

  /** `generate_batch_identities`: `count` identities, the i-th generated in
      the world `worlds(i)`; `range(count)` is empty for a negative count. */
  method GenerateBatch(t: Tables, req: IdentityRequest, worlds: nat -> World, count: int,
                       fields: Option<seq<string>>)
    returns (identities: seq<Record>)
    requires BatchReady(t, req, worlds, if count < 0 then 0 else count)
    ensures identities == Entries(EntryOf(t, req, worlds, fields), if count < 0 then 0 else count)
  {
    identities := [];
    var total := if count < 0 then 0 else count;
    for n := 0 to total
      invariant identities == Entries(EntryOf(t, req, worlds, fields), n)
    {
      var identity := BatchIdentity(t, req, worlds(n), fields);
      identities := identities + [identity];
    }
  }

  /** The batch has exactly `count` entries (none for a negative count), the
      i-th one generated in world i. */
  lemma BatchShape(t: Tables, req: IdentityRequest, worlds: nat -> World, count: int,
                   fields: Option<seq<string>>)
    requires BatchReady(t, req, worlds, if count < 0 then 0 else count)
    ensures var batch := Entries(EntryOf(t, req, worlds, fields), if count < 0 then 0 else count);
            && |batch| == (if count < 0 then 0 else count)
            && forall i :: 0 <= i < |batch| ==> batch[i] == BatchEntry(t, req, worlds(i), fields)
  {
    var n := if count < 0 then 0 else count;
    EntriesAt(EntryOf(t, req, worlds, fields), n);
    forall i | 0 <= i < n
      ensures Entries(EntryOf(t, req, worlds, fields), n)[i] == BatchEntry(t, req, worlds(i), fields)
    {
      ReadyEntry(t, req, worlds, fields, n, i);
    }
  }

  /** In a batch whose first n worlds are ready, the i-th entry is the one
      generated in world i. */
  lemma ReadyEntry(t: Tables, req: IdentityRequest, worlds: nat -> World, fields: Option<seq<string>>,
                   n: nat, i: nat)
    requires BatchReady(t, req, worlds, n) && i < n
    ensures IdentityReady(t, req, worlds(i))
    ensures |Entries(EntryOf(t, req, worlds, fields), n)| == n
    ensures Entries(EntryOf(t, req, worlds, fields), n)[i] == BatchEntry(t, req, worlds(i), fields)
  {
    EntriesAt(EntryOf(t, req, worlds, fields), n);
    assert Entries(EntryOf(t, req, worlds, fields), n)[i] == EntryOf(t, req, worlds, fields)(i);
  }

  /** What an iteration keeps of an identity: without a field list the
      full dict; with one, exactly the requested valid fields (address fields
      always, 'email_token' only with a token), with the identity's values,
      in the order first requested. */
  lemma FilteredFields(id: Identity, fields: Option<seq<string>>)
    ensures var entry := Filtered(ToRecord(id), fields);
            && UniqueKeys(entry)
            && (fields.None? || fields.value == [] ==> entry == ToRecord(id))
            && (fields.Some? && fields.value != [] ==>
                  forall k :: Get(entry, k) == if k in fields.value then Lookup(ToRecord(id), k) else None)
            && (fields.Some? && fields.value != [] ==>
                  forall k :: k in Keys(entry) <==>
                    k in fields.value && k in ValidFields && (k == "email_token" ==> id.emailToken.Some?))
  {
    if fields.Some? && fields.value != [] {
      assert Filtered(ToRecord(id), fields) == Project(ToRecord(id), fields.value);
      ProjectedIdentity(id, fields.value);
    }
  }

  /** The projection of an identity dict on a field list. */
  lemma ProjectedIdentity(id: Identity, fields: seq<string>)
    ensures var entry := Project(ToRecord(id), fields);
            && UniqueKeys(entry)
            && (forall k :: Get(entry, k) == if k in fields then Lookup(ToRecord(id), k) else None)
            && (forall k :: k in Keys(entry) <==>
                  k in fields && k in ValidFields && (k == "email_token" ==> id.emailToken.Some?))
  {
    ProjectGet(ToRecord(id), fields);
    forall k
      ensures Lookup(ToRecord(id), k).Some? <==>
                k in ValidFields && (k == "email_token" ==> id.emailToken.Some?)
    {
      ResolvesExactly(id, k);
    }
  }

  // ---------------------------------------------------------------------------
  // CSV flattening.
  // ---------------------------------------------------------------------------

  /** The assignments one entry of an identity dict makes to the flat dict:
      `flat[key] = value`, or `flat[f"{key}_{subkey}"] = subvalue` for every
      subkey of a nested dict, in its order. */
  function EntryAssignments(key: string, v: Value): (ps: seq<(string, string)>)
    ensures v.Text? ==> ps == [(key, v.text)]
    ensures v.Nested? ==> |ps| == |v.entries|
    ensures v.Nested? ==> forall i :: 0 <= i < |ps| ==>
              ps[i] == (key + "_" + v.entries[i].0, v.entries[i].1)
  {
    match v
    case Text(s) => [(key, s)]
    case Nested(sub) => seq(|sub|, i requires 0 <= i < |sub| => (key + "_" + sub[i].0, sub[i].1))
  }

  /** All assignments of the flattening loop, entry by entry. */
  function Assignments(record: Record): seq<(string, string)>
    decreases |record|
  {
    if record == [] then []
    else Assignments(record[..|record| - 1]) + EntryAssignments(record[|record| - 1].0, record[|record| - 1].1)
  }

  /** The dict after performing the assignments `ps` on `d`, in order. */
  function Assign(d: Dict<string>, ps: seq<(string, string)>): Dict<string>
    decreases |ps|
  {
    if ps == [] then d else Put(Assign(d, ps[..|ps| - 1]), ps[|ps| - 1].0, ps[|ps| - 1].1)
  }

  /** `flat_identity` for one identity dict. */
  function Flattened(record: Record): Dict<string> {
    Assign([], Assignments(record))
  }

  lemma {:induction false} AssignAppend(d: Dict<string>, ps: seq<(string, string)>, qs: seq<(string, string)>)
    ensures Assign(d, ps + qs) == Assign(Assign(d, ps), qs)
    decreases |qs|
  {
    if qs != [] {
      var q := qs[|qs| - 1];
      assert (ps + qs)[..|ps + qs| - 1] == ps + qs[..|qs| - 1];
      AssignAppend(d, ps, qs[..|qs| - 1]);
    } else {
      assert ps + qs == ps;
    }
  }

  /** One pass of the flattening loop's body: the assignments of one entry
      made to `flat`. */
  method FlattenEntry(flat: Dict<string>, key: string, value: Value) returns (r: Dict<string>)
    ensures r == Assign(flat, EntryAssignments(key, value))
  {
    r := flat;
    ghost var ps := EntryAssignments(key, value);
    match value {
      case Nested(sub) =>
        var j := 0;
        while j < |sub|
          invariant 0 <= j <= |sub|
          invariant r == Assign(flat, ps[..j])
        {
          assert ps[..j + 1][..j] == ps[..j];
          r := Put(r, key + "_" + sub[j].0, sub[j].1);
          j := j + 1;
        }
        assert ps[..j] == ps;
      case Text(s) =>
        assert ps[..0] == [];
        r := Put(r, key, s);
    }
  }

  /** The flattening loop of save_identity for one dict. */
  method FlattenRecord(record: Record) returns (flat: Dict<string>)
    ensures flat == Flattened(record)
  {
    flat := [];
    var i := 0;
    while i < |record|
      invariant 0 <= i <= |record|
      invariant flat == Assign([], Assignments(record[..i]))
    {
      assert record[..i + 1][..i] == record[..i];
      AssignAppend([], Assignments(record[..i]), EntryAssignments(record[i].0, record[i].1));
      flat := FlattenEntry(flat, record[i].0, record[i].1);
      i := i + 1;
    }
    assert record[..i] == record;
  }

  /** `f` applied to every element of `xs`, in order. */
  function Mapped<A, B>(f: A -> B, xs: seq<A>): seq<B>
    decreases |xs|
  {
    if xs == [] then [] else Mapped(f, xs[..|xs| - 1]) + [f(xs[|xs| - 1])]
  }

  lemma {:induction false} MappedAt<A, B>(f: A -> B, xs: seq<A>)
    ensures |Mapped(f, xs)| == |xs|
    ensures forall i :: 0 <= i < |xs| ==> Mapped(f, xs)[i] == f(xs[i])
    decreases |xs|
  {
    if xs != [] {
      var pre := xs[..|xs| - 1];
      MappedAt(f, pre);
      assert forall i :: 0 <= i < |pre| ==> xs[i] == pre[i];
    }
  }

  /** `flat_identities`: every dict of the batch, flattened. */
  method FlattenIdentities(records: seq<Record>) returns (flats: seq<Dict<string>>)
    ensures |flats| == |records|
    ensures forall i :: 0 <= i < |records| ==> flats[i] == Flattened(records[i])
  {
    flats := [];
    for i := 0 to |records|
      invariant flats == Mapped(Flattened, records[..i])
    {
      var flat := FlattenRecord(records[i]);
      assert records[..i + 1][..i] == records[..i];
      flats := flats + [flat];
    }
    assert records[..|records|] == records;
    MappedAt(Flattened, records);
  }

  /** When no two assignments share a key, the flat dict is exactly the list
      of assignments: every key kept, in order, with its value. */
  lemma {:induction false} AssignDistinct(ps: seq<(string, string)>)
    requires UniqueKeys(ps)
    ensures Assign([], ps) == ps
    decreases |ps|
  {
    if ps != [] {
      var pre := ps[..|ps| - 1];
      assert Keys(pre) == Keys(ps)[..|ps| - 1];
      AssignDistinct(pre);
      assert ps[|ps| - 1].0 !in Keys(pre);
      assert ps == pre + [ps[|ps| - 1]];
    }
  }

  /** The CSV header: the keys of the first flat dict. The source indexes
      `flat_identities[0]` and raises IndexError on an empty batch. */
  function CsvHeader(flats: seq<Dict<string>>): (h: Option<seq<string>>)
    ensures h.None? <==> flats == []
  {
    if flats == [] then None else Some(Keys(flats[0]))
  }

  /** The CSV row of a generated identity: the dict's keys in order, with
      'address' replaced in place by its four `address_<subkey>` columns. */
  function IdentityRow(id: Identity): Dict<string> {
    [("first_name", id.firstName), ("last_name", id.lastName), ("full_name", id.fullName),
     ("email", id.email), ("phone", id.phone)]
    + [("address_street", id.address.street), ("address_city", id.address.city),
       ("address_state", id.address.state), ("address_country", id.address.country)]
    + [("username", id.username), ("birthdate", id.birthdate), ("password", id.password),
       ("created", id.created)]
    + (if id.emailToken.Some? then [("email_token", id.emailToken.value)] else [])
  }

  lemma AssignmentsStep(r: Record, i: nat)
    requires i < |r|
    ensures Assignments(r[..i + 1]) == Assignments(r[..i]) + EntryAssignments(r[i].0, r[i].1)
  {
    assert r[..i + 1][..i] == r[..i];
  }

  lemma AddressAssignments(a: Address)
    ensures EntryAssignments("address", Nested(AddressRecord(a))) ==
              [("address_street", a.street), ("address_city", a.city),
               ("address_state", a.state), ("address_country", a.country)]
  {
    assert "address" + "_" + "street" == "address_street";
    assert "address" + "_" + "city" == "address_city";
    assert "address" + "_" + "state" == "address_state";
    assert "address" + "_" + "country" == "address_country";
  }

  /** The first five entries of the literal hold plain strings. */
  lemma BaseFront(id: Identity)
    ensures Assignments(BaseRecord(id)[..5]) == [("first_name", id.firstName), ("last_name", id.lastName),
              ("full_name", id.fullName), ("email", id.email), ("phone", id.phone)]
  {
    var b := BaseRecord(id);
    assert b[..0] == [];
    AssignmentsStep(b, 0);
    AssignmentsStep(b, 1);
    AssignmentsStep(b, 2);
    AssignmentsStep(b, 3);
    AssignmentsStep(b, 4);
  }

  /** The last four entries of the literal hold plain strings. */
  lemma BaseBack(id: Identity)
    ensures Assignments(BaseRecord(id)) == Assignments(BaseRecord(id)[..6])
              + [("username", id.username), ("birthdate", id.birthdate), ("password", id.password),
                 ("created", id.created)]
  {
    var b := BaseRecord(id);
    AssignmentsStep(b, 6);
    AssignmentsStep(b, 7);
    AssignmentsStep(b, 8);
    AssignmentsStep(b, 9);
    TakeAll(b);
    AppendFour(Assignments(b[..6]), ("username", id.username), ("birthdate", id.birthdate),
               ("password", id.password), ("created", id.created));
  }

  lemma AppendFour<T>(xs: seq<T>, a: T, b: T, c: T, d: T)
    ensures xs + [a] + [b] + [c] + [d] == xs + [a, b, c, d]
  {
  }

  lemma BaseAssignments(id: Identity)
    ensures Assignments(BaseRecord(id)) == IdentityRow(id.(emailToken := None))
  {
    var b := BaseRecord(id);
    BaseFront(id);
    AddressAssignments(id.address);
    AssignmentsStep(b, 5);
    BaseBack(id);
    AppendNothing(Assignments(b));
  }

  /** The columns of a CSV row, which no two entries share. */
  lemma RowColumns(id: Identity)
    ensures Keys(IdentityRow(id)) == IdentityColumns + (if id.emailToken.Some? then ["email_token"] else [])
    ensures UniqueKeys(IdentityRow(id))
  {
    var row := IdentityRow(id);
    assert Keys(row) == IdentityColumns + (if id.emailToken.Some? then ["email_token"] else []);
  }

  const IdentityColumns: seq<string> := [
    "first_name", "last_name", "full_name", "email", "phone",
    "address_street", "address_city", "address_state", "address_country",
    "username", "birthdate", "password", "created"]

  lemma RecordAssignments(id: Identity)
    ensures Assignments(ToRecord(id)) == IdentityRow(id)
  {
    var r := ToRecord(id);
    BaseAssignments(id);
    var b := BaseRecord(id);
    if id.emailToken.Some? {
      assert r == b + [("email_token", Text(id.emailToken.value))];
      AssignmentsStep(r, 10);
      TakeAppended(b, ("email_token", Text(id.emailToken.value)));
      TakeAll(r);
    } else {
      assert r == b;
    }
  }

  /** Flattening a generated identity dict gives its CSV row: no column is
      lost to a clash, the nested address becomes four columns in place, and
      every other key is kept with its value. */
  lemma IdentityFlattened(id: Identity)
    ensures Flattened(ToRecord(id)) == IdentityRow(id)
  {
    RecordAssignments(id);
    RowColumns(id);
    AssignDistinct(IdentityRow(id));
  }

  /** The header of a saved batch without a field list is the column list of
      its first identity: 'email_token' is a column only when that first
      identity has a token. */
  lemma BatchCsvHeader(t: Tables, req: IdentityRequest, worlds: nat -> World, count: nat,
                       batch: seq<Record>, flats: seq<Dict<string>>)
    requires count >= 1 && BatchReady(t, req, worlds, count)
    requires batch == Entries(EntryOf(t, req, worlds, None), count)
    requires |flats| == |batch| && forall i :: 0 <= i < |batch| ==> flats[i] == Flattened(batch[i])
    ensures var first := GenerateIdentity(t, req, worlds(0));
            CsvHeader(flats) ==
              Some(IdentityColumns + (if first.emailToken.Some? then ["email_token"] else []))
  {
    ReadyEntry(t, req, worlds, None, count, 0);
    FirstRowHeader(GenerateIdentity(t, req, worlds(0)), batch, flats);
  }

  /** The header of flattened rows whose first row is the dict of `id`. */
  lemma FirstRowHeader(id: Identity, batch: seq<Record>, flats: seq<Dict<string>>)
    requires |batch| >= 1 && batch[0] == ToRecord(id)
    requires |flats| == |batch| && flats[0] == Flattened(batch[0])
    ensures CsvHeader(flats) == Some(IdentityColumns + (if id.emailToken.Some? then ["email_token"] else []))
  {
    IdentityFlattened(id);
    RowColumns(id);
  }

  // ---------------------------------------------------------------------------
  // The header taken from the first row only.
  // ---------------------------------------------------------------------------

  /** A flattened identity has an 'email_token' column exactly when the
      identity has a token. */
  lemma TokenColumn(id: Identity)
    ensures "email_token" in Keys(Flattened(ToRecord(id))) <==> id.emailToken.Some?
  {
    IdentityFlattened(id);
    RowTokenColumn(id);
  }

  lemma RowTokenColumn(id: Identity)
    ensures "email_token" in Keys(IdentityRow(id)) <==> id.emailToken.Some?
  {
    RowColumns(id);
    var cols := Keys(IdentityRow(id));
    assert "email_token" !in IdentityColumns;
    if id.emailToken.Some? {
      assert cols[13] == "email_token";
    } else {
      assert cols == IdentityColumns;
    }
  }

  /** As written, the header can miss a column of a later row: a batch whose
      first identity got no mailbox token and whose second did has an
      'email_token' value outside the header, which the CSV writer refuses. */
  lemma HeaderMissesLaterToken(first: Identity, second: Identity)
    requires first.emailToken.None? && second.emailToken.Some?
    ensures var flats := [Flattened(ToRecord(first)), Flattened(ToRecord(second))];
            && "email_token" !in CsvHeader(flats).value
            && "email_token" in Keys(flats[1])
  {
    TokenColumn(first);
    TokenColumn(second);
  }

  /** `ks` added to the column list `h`: the keys not already there, in order. */
  function AddColumns(h: seq<string>, ks: seq<string>): (r: seq<string>)
    ensures |h| <= |r| && r[..|h|] == h
    ensures forall k :: k in r <==> k in h || k in ks
    ensures Distinct(h) ==> Distinct(r)
    decreases |ks|
  {
    if ks == [] then h
    else if ks[0] in h then AddColumns(h, ks[1..])
    else
      assert Distinct(h) ==> Distinct(h + [ks[0]]);
      AddColumns(h + [ks[0]], ks[1..])
  }

  lemma {:induction false} AddFreshColumns(h: seq<string>, ks: seq<string>)
    requires Distinct(h + ks)
    ensures AddColumns(h, ks) == h + ks
    decreases |ks|
  {
    if ks != [] {
      assert h + ks == (h + [ks[0]]) + ks[1..];
      forall i | 0 <= i < |h|
        ensures h[i] != ks[0]
      {
        assert (h + ks)[i] == h[i] && (h + ks)[|h|] == ks[0];
      }
      AddFirstColumn(h, ks);
      AddFreshColumns(h + [ks[0]], ks[1..]);
    } else {
      assert h + ks == h;
    }
  }

  lemma AddFirstColumn(h: seq<string>, ks: seq<string>)
    requires ks != [] && ks[0] !in h
    ensures AddColumns(h, ks) == AddColumns(h + [ks[0]], ks[1..])
  {
  }

  /** The columns of every row, in order of first appearance. */
  function CsvColumns(flats: seq<Dict<string>>): seq<string>
    decreases |flats|
  {
    if flats == [] then [] else AddColumns(CsvColumns(flats[..|flats| - 1]), Keys(flats[|flats| - 1]))
  }

  /** Every column of every row is in the corrected header, once. */
  lemma {:induction false} CsvColumnsAll(flats: seq<Dict<string>>)
    ensures forall i, k :: 0 <= i < |flats| && k in Keys(flats[i]) ==> k in CsvColumns(flats)
    ensures Distinct(CsvColumns(flats))
    decreases |flats|
  {
    if flats != [] {
      var pre := flats[..|flats| - 1];
      CsvColumnsAll(pre);
      forall i, k | 0 <= i < |flats| && k in Keys(flats[i])
        ensures k in CsvColumns(flats)
      {
        if i < |pre| {
          assert flats[i] == pre[i];
        }
      }
    }
  }

  /** The corrected header begins with the columns of the first row. */
  lemma {:induction false} CsvColumnsPrefix(flats: seq<Dict<string>>)
    requires flats != [] && UniqueKeys(flats[0])
    ensures |CsvColumns(flats)| >= |flats[0]|
    ensures CsvColumns(flats)[..|flats[0]|] == Keys(flats[0])
    decreases |flats|
  {
    var pre := flats[..|flats| - 1];
    if pre == [] {
      assert CsvColumns(flats) == AddColumns([], Keys(flats[0]));
      assert [] + Keys(flats[0]) == Keys(flats[0]);
      AddFreshColumns([], Keys(flats[0]));
    } else {
      CsvColumnsPrefix(pre);
      assert pre[0] == flats[0];
      var h := CsvColumns(pre);
      var r := CsvColumns(flats);
      assert r[..|h|] == h;
      assert r[..|flats[0]|] == h[..|flats[0]|];
    }
  }

  /** The corrected header holds every column of every row, once each, and
      begins with the columns of the first row, so it equals the header as
      written whenever no later row brings a new column. */
  lemma CsvColumnsCover(flats: seq<Dict<string>>)
    requires flats != [] && UniqueKeys(flats[0])
    ensures forall i, k :: 0 <= i < |flats| && k in Keys(flats[i]) ==> k in CsvColumns(flats)
    ensures Distinct(CsvColumns(flats))
    ensures |CsvColumns(flats)| >= |flats[0]|
    ensures CsvColumns(flats)[..|flats[0]|] == CsvHeader(flats).value
  {
    CsvColumnsAll(flats);
    CsvColumnsPrefix(flats);
  }
}
