/**
 The account resource: the conversion between the resource's data and the
 sparse field map exchanged with the remote store, and the decisions its
 create, read, update and delete make around the remote calls. The remote
 store is an oracle: each operation names the call it makes and takes the
 store's answer to that call as an input.
 */
module Account {
  import opened Framework
  import Validators

  /** A value of the generic field map (`interface{}` decoded from JSON). */
  datatype Any = Nil | Str(s: string) | NonString

  /** `accountMap`: field API name to value. */
  type AccountMap = map<string, Any>

  /** `accountResourceData`: the name is a plain string, the optional fields
      are pointers, and the ID is a framework string. */
  datatype AccountData = AccountData(
    name: string,
    accountNumber: Option<string>,
    accountType: Option<string>,
    industry: Option<string>,
    phone: Option<string>,
    website: Option<string>,
    id: Value<string>)

  /** The API names of the five optional fields. */
  const OptionalKeys: set<string> := {"AccountNumber", "Type", "Industry", "Phone", "Website"}

  /** The API names of every field the map may carry; the ID is not one. */
  const FieldKeys: set<string> := {"Name"} + OptionalKeys

  /** The field of `d` stored under API name `key`; the name counts as always set. */
  function FieldOf(d: AccountData, key: string): Option<string>
  {
    match key
    case "Name" => Some(d.name)
    case "AccountNumber" => d.accountNumber
    case "Type" => d.accountType
    case "Industry" => d.industry
    case "Phone" => d.phone
    case "Website" => d.website
    case _ => None
  }

  /** A field goes into the map when it is set and not empty. */
  predicate Sent(f: Option<string>)
  {
    f.Some? && f.value != ""
  }

  /** Deletes each key of `exclude` in turn, as the loop of `ToMap` does. */
  function Exclude(m: AccountMap, exclude: seq<string>): (r: AccountMap)
    ensures forall k | k in r :: k in m && k !in exclude && r[k] == m[k]
    ensures forall k | k in m && k !in exclude :: k in r
  {
    if |exclude| == 0 then m
    else Exclude(m - {exclude[0]}, exclude[1..])
  }

  /** The map `ToMap` builds before excluding keys: the field of each API
      name, checked one by one, when it is set and not empty. */
  function FullMap(d: AccountData): (m: AccountMap)
    ensures m.Keys <= FieldKeys
    ensures forall k | k in FieldKeys :: k in m <==> Sent(FieldOf(d, k))
    ensures forall k | k in m :: Sent(FieldOf(d, k)) && m[k] == Str(FieldOf(d, k).value)
  {
    map k | k in FieldKeys && Sent(FieldOf(d, k)) :: Str(FieldOf(d, k).value)
  }

  /** `accountResourceData.ToMap`: the sparse record, without empty or unset
      fields, and without any key listed in `exclude`. */
  function ToMap(d: AccountData, exclude: seq<string>): (m: AccountMap)
    ensures m.Keys <= FieldKeys
    ensures "Id" !in m
    ensures forall k | k in exclude :: k !in m
    ensures forall k | k in FieldKeys ::
              (k in m <==> k !in exclude && Sent(FieldOf(d, k)))
    ensures forall k | k in m :: Sent(FieldOf(d, k)) && m[k] == Str(FieldOf(d, k).value)
  {
    Exclude(FullMap(d), exclude)
  }

  /** The map a remote read may be converted from: the name is a string, and
      every optional field present is null or a string (the type assertions
      of `ToStateData` panic otherwise). */
  predicate WellTyped(m: AccountMap)
  {
    && "Name" in m && m["Name"].Str?
    && forall k | k in OptionalKeys && k in m :: m[k].Nil? || m[k].Str?
  }

  /** The pointer `ToStateData` makes for an optional field of `m`. */
  function Pointer(m: AccountMap, key: string): Option<string>
    requires key in m ==> m[key].Nil? || m[key].Str?
  {
    if key in m && m[key] != Nil then Some(m[key].s) else None
  }

  /** `accountMap.ToStateData`: an optional field is set exactly when its key
      is present with a non-null value; the ID is left at the zero value of
      the framework string, which is a known "". */
  function ToStateData(m: AccountMap): (d: AccountData)
    requires WellTyped(m)
    ensures d.name == m["Name"].s
    ensures forall k | k in OptionalKeys ::
              (FieldOf(d, k).Some? <==> k in m && m[k].Str?)
              && (FieldOf(d, k).Some? ==> FieldOf(d, k).value == m[k].s)
    ensures d.id == Known("")
  {
    AccountData(
      m["Name"].s,
      Pointer(m, "AccountNumber"),
      Pointer(m, "Type"),
      Pointer(m, "Industry"),
      Pointer(m, "Phone"),
      Pointer(m, "Website"),
      Known(""))
  }

  /** An optional field as it comes back from the map: "" is lost. */
  function Canonical(f: Option<string>): Option<string>
  {
    if Sent(f) then f else None
  }

  /** Converting to the map and back keeps the name and every non-empty
      field, turns a field set to "" into an unset one, and resets the ID. */
  lemma ToStateDataAfterToMap(d: AccountData)
    requires d.name != ""
    ensures WellTyped(ToMap(d, []))
    ensures ToStateData(ToMap(d, [])) == AccountData(
              d.name,
              Canonical(d.accountNumber),
              Canonical(d.accountType),
              Canonical(d.industry),
              Canonical(d.phone),
              Canonical(d.website),
              Known(""))
  {
    var m := ToMap(d, []);
    assert "Name" in FieldKeys;
    assert forall k | k in OptionalKeys :: k in FieldKeys;
    var r := ToStateData(m);
    assert r.accountNumber == Canonical(d.accountNumber) by {
      assert FieldOf(r, "AccountNumber") == r.accountNumber;
    }
    assert r.accountType == Canonical(d.accountType) by {
      assert FieldOf(r, "Type") == r.accountType;
    }
    assert r.industry == Canonical(d.industry) by {
      assert FieldOf(r, "Industry") == r.industry;
    }
    assert r.phone == Canonical(d.phone) by {
      assert FieldOf(r, "Phone") == r.phone;
    }
    assert r.website == Canonical(d.website) by {
      assert FieldOf(r, "Website") == r.website;
    }
  }

  /** With a name and no field set to "", the round trip gives back the data
      apart from the ID. */
  lemma RoundTripWithoutEmptyFields(d: AccountData)
    requires d.name != ""
    requires forall k | k in OptionalKeys :: FieldOf(d, k) != Some("")
    ensures ToStateData(ToMap(d, [])) == d.(id := Known(""))
  {
    ToStateDataAfterToMap(d);
    assert FieldOf(d, "AccountNumber") == d.accountNumber;
    assert FieldOf(d, "Type") == d.accountType;
    assert FieldOf(d, "Industry") == d.industry;
    assert FieldOf(d, "Phone") == d.phone;
    assert FieldOf(d, "Website") == d.website;
  }

  /** Converting a remote map to data and back keeps exactly its non-empty
      string fields. */
  lemma ToMapAfterToStateData(m: AccountMap)
    requires WellTyped(m)
    ensures forall k | k in FieldKeys ::
              (k in ToMap(ToStateData(m), []) <==> k in m && m[k].Str? && m[k].s != "")
    ensures forall k | k in ToMap(ToStateData(m), []) :: ToMap(ToStateData(m), [])[k] == m[k]
  {
  }

  /** A field set to "" and an unset field produce the same map: two data
      with the same name whose optional fields agree once "" is read as unset
      are sent identically. */
  lemma EmptyAndAbsentConflated(d1: AccountData, d2: AccountData, exclude: seq<string>)
    requires d1.name == d2.name
    requires forall k | k in OptionalKeys :: Canonical(FieldOf(d1, k)) == Canonical(FieldOf(d2, k))
    ensures ToMap(d1, exclude) == ToMap(d2, exclude)
  {
    var a, b := ToMap(d1, exclude), ToMap(d2, exclude);
    forall k | k in FieldKeys
      ensures Sent(FieldOf(d1, k)) == Sent(FieldOf(d2, k))
      ensures Sent(FieldOf(d1, k)) ==> FieldOf(d1, k) == FieldOf(d2, k)
    {
      if k != "Name" {
        assert Canonical(FieldOf(d1, k)) == Canonical(FieldOf(d2, k));
      }
    }
    assert a.Keys == b.Keys;
    assert forall k | k in a :: a[k] == b[k];
  }

  /** Excluding keys removes those keys and leaves every other entry as it was. */
  lemma ExcludeOnlyRemovesListed(d: AccountData, exclude: seq<string>)
    ensures forall k | k in ToMap(d, []) && k !in exclude :: k in ToMap(d, exclude) && ToMap(d, exclude)[k] == ToMap(d, [])[k]
    ensures ToMap(d, exclude).Keys == ToMap(d, []).Keys - set k | k in exclude
  {
  }

  // ---------------------------------------------------------------------------
  // The operations. The old framework's zero string and `.Value` are modelled
  // by `Known` and `ValueString`.
  // ---------------------------------------------------------------------------

  /** The remote call an operation makes. */
  datatype Call = Insert(payload: AccountMap) | Get(id: string) | Update(id: string, payload: AccountMap) | Delete(id: string)

  /** The call made, and the response built from the store's answer to it. */
  datatype Step = Step(call: Call, response: Response<AccountData>)

  /** Create: inserts the full sparse map of the plan and stores the ID the
      store returns; an insert error becomes one diagnostic and no state. */
  function Create(plan: AccountData, answer: InsertAnswer): (r: Step)
    ensures r.call == Insert(ToMap(plan, []))
    ensures answer.Inserted? ==> r.response == Response(SetTo(plan.(id := Known(answer.id))), [])
    ensures answer.InsertFailed? ==> r.response.change == Untouched && |r.response.diagnostics| == 1
  {
    var call := Insert(ToMap(plan, []));
    match answer
    case InsertFailed(err) => Step(call, Response(Untouched, [Error("Error Inserting Account", err.message)]))
    case Inserted(id) => Step(call, Response(SetTo(plan.(id := Known(id))), []))
  }

  /** Read: a not-found error removes the resource from state without a
      diagnostic, any other error adds one diagnostic and leaves the state,
      and a fetched map replaces the data while the stored ID is carried over. */
  function Read(state: AccountData, answer: GetAnswer<AccountMap>): (r: Step)
    requires answer.Fetched? ==> WellTyped(answer.record)
    ensures r.call == Get(ValueString(state.id))
    ensures answer.GetFailed? && answer.err.notFound ==> r.response == Response(Removed, [])
    ensures answer.GetFailed? && !answer.err.notFound ==>
              r.response.change == Untouched && |r.response.diagnostics| == 1
    ensures answer.Fetched? ==> r.response.diagnostics == [] && r.response.change.SetTo?
    ensures answer.Fetched? ==> r.response.change.state.id == state.id
    ensures answer.Fetched? ==> r.response.change.state.name == answer.record["Name"].s
    ensures answer.Fetched? ==> r.response.change == SetTo(ToStateData(answer.record).(id := state.id))
  {
    var call := Get(ValueString(state.id));
    match answer
    case GetFailed(err) =>
      if err.notFound then Step(call, Response(Removed, []))
      else Step(call, Response(Untouched, [Error("Error Getting Account", err.message)]))
    case Fetched(m) =>
      var d := ToStateData(m);
      Step(call, Response(SetTo(d.(id := state.id)), []))
  }

  /** Update: sends the plan's full sparse map, not only the changed fields,
      and on success stores the plan. */
  function UpdateAccount(plan: AccountData, answer: WriteAnswer): (r: Step)
    ensures r.call == Update(ValueString(plan.id), ToMap(plan, []))
    ensures answer.Written? ==> r.response == Response(SetTo(plan), [])
    ensures answer.WriteFailed? ==> r.response.change == Untouched && |r.response.diagnostics| == 1
  {
    var call := Update(ValueString(plan.id), ToMap(plan, []));
    match answer
    case WriteFailed(err) => Step(call, Response(Untouched, [Error("Error Updating Account", err.message)]))
    case Written => Step(call, Response(SetTo(plan), []))
  }

  /** Delete: every error, not-found included, becomes one diagnostic and the
      resource stays in state; without an error the framework drops it. */
  function DeleteAccount(state: AccountData, answer: WriteAnswer): (r: Step)
    ensures r.call == Delete(ValueString(state.id))
    ensures answer.WriteFailed? ==> r.response.change == Untouched && |r.response.diagnostics| == 1
    ensures answer.Written? ==> r.response == Response(Removed, [])
  {
    var call := Delete(ValueString(state.id));
    match answer
    case WriteFailed(err) => Step(call, Response(Untouched, [Error("Error Deleting Account", err.message)]))
    case Written => Step(call, Response(Removed, []))
  }

  /** Creating "Acme" with no type sends only the name, and the ID the store
      returns becomes the resource's ID. */
  lemma CreateAcme()
    ensures Create(AccountData("Acme", None, None, None, None, None, Unknown), Inserted("001XYZ")).call
         == Insert(map["Name" := Str("Acme")])
    ensures Create(AccountData("Acme", None, None, None, None, None, Unknown), Inserted("001XYZ")).response.change
         == SetTo(AccountData("Acme", None, None, None, None, None, Known("001XYZ")))
  {
    var m := ToMap(AccountData("Acme", None, None, None, None, None, Unknown), []);
    assert "Name" in FieldKeys;
    assert m.Keys == {"Name"};
  }

  /** An update after only the phone changed still sends the name and every
      other set field along with the new phone. */
  lemma UpdateSendsUnchangedFields(plan: AccountData, answer: WriteAnswer)
    requires plan.name != "" && Sent(plan.phone)
    ensures UpdateAccount(plan, answer).call.payload.Keys >= {"Name", "Phone"}
  {
    assert "Name" in FieldKeys && "Phone" in FieldKeys;
    assert FieldOf(plan, "Phone") == plan.phone;
  }

  /** A record the store no longer has leaves state without an error. */
  lemma ReadNotFoundRemoves(state: AccountData, message: string)
    ensures Read(state, GetFailed(RemoteError(message, true))).response == Response(Removed, [])
  {
  }

  /** Reading back the map an update sent gives the plan again, except that
      a field set to "" comes back unset and the stored ID is kept. */
  lemma ReadAfterUpdate(plan: AccountData, state: AccountData, answer: WriteAnswer)
    requires plan.name != ""
    ensures WellTyped(UpdateAccount(plan, answer).call.payload)
    ensures Read(state, Fetched(UpdateAccount(plan, answer).call.payload)).response.change
         == SetTo(AccountData(
              plan.name,
              Canonical(plan.accountNumber),
              Canonical(plan.accountType),
              Canonical(plan.industry),
              Canonical(plan.phone),
              Canonical(plan.website),
              state.id))
  {
    ToStateDataAfterToMap(plan);
  }

  /** The name attribute carries the `notEmptyString` validator: a name it
      accepts is always sent, so the map an update or create sends, read back,
      satisfies `ToStateData`'s demand for a string name. */
  lemma ValidatedNameIsSent(path: string, d: AccountData)
    requires Validators.NotEmptyString(path, Known(d.name)) == []
    ensures "Name" in ToMap(d, []) && ToMap(d, [])["Name"] == Str(d.name)
    ensures WellTyped(ToMap(d, []))
  {
    assert "Name" in FieldKeys;
    assert FieldOf(d, "Name") == Some(d.name);
  }
}
