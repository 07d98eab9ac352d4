/**
 The profile resource: the record its create and update send (with the
 configured permissions renamed to the store's `Permissions...` field
 names), and how a read copies the fetched profile into state.
 */
module Profile {
  import opened Framework

  /** An element of the configured permissions map: the schema declares
      boolean elements; an element of any other kind is skipped. */
  datatype Element = BoolElem(b: Value<bool>) | OtherElem

  /** `profileResourceModel` */
  datatype ProfileModel = ProfileModel(
    id: Value<string>,
    name: Value<string>,
    description: Value<string>,
    userLicenseId: Value<string>,
    permissions: Value<map<string, Element>>)

  /** The fields of the store's Profile object that the resource fills. */
  datatype ProfileRecord = ProfileRecord(name: string, userLicenseId: string, description: string)

  /** The record sent: the plain Profile, or `customProfile` carrying the
      prefixed permission map. */
  datatype Outbound =
    | Plain(profile: ProfileRecord)
    | WithPermissions(profile: ProfileRecord, permissions: map<string, bool>)

  /** The profile as fetched with `customProfile`. */
  datatype RemoteProfile = RemoteProfile(
    name: string,
    description: string,
    userLicenseId: string,
    permissions: map<string, bool>)

  /** The store names each permission field with this prefix. */
  const Prefix: string := "Permissions"

  /** The Profile fields: name and licence always, the description only when
      the plan's description is not null. */
  function BaseRecord(plan: ProfileModel): (rec: ProfileRecord)
    ensures rec.name == ValueString(plan.name)
    ensures rec.userLicenseId == ValueString(plan.userLicenseId)
    ensures plan.description.Known? ==> rec.description == plan.description.v
    ensures plan.description.Null? ==> rec.description == ""
  {
    var rec := ProfileRecord(ValueString(plan.name), ValueString(plan.userLicenseId), "");
    if !plan.description.Null? then rec.(description := ValueString(plan.description)) else rec
  }

  /** The description guard changes nothing on the wire: a null description
      reads as "" and is left at "" alike. */
  lemma DescriptionGuardRedundant(plan: ProfileModel)
    ensures BaseRecord(plan).description == ValueString(plan.description)
  {
  }

  /** `Elements()` of a map value: its entries when known, none otherwise. */
  function Elements(m: Value<map<string, Element>>): map<string, Element>
  {
    if m.Known? then m.v else map[]
  }

  /** The loop over the elements: each boolean element `k -> v` becomes
      `"Permissions" + k -> v`; other elements are skipped. */
  function PrefixPermissions(elems: map<string, Element>): (r: map<string, bool>)
    ensures forall k | k in elems && elems[k].BoolElem? ::
              Prefix + k in r && r[Prefix + k] == ValueBool(elems[k].b)
    ensures forall key | key in r ::
              |key| >= |Prefix| && key[..|Prefix|] == Prefix
              && key[|Prefix|..] in elems && elems[key[|Prefix|..]].BoolElem?
  {
    assert forall k | k in elems :: (Prefix + k)[..|Prefix|] == Prefix && (Prefix + k)[|Prefix|..] == k;
    map k | k in elems && elems[k].BoolElem? :: Prefix + k := ValueBool(elems[k].b)
  }

  /** Removing the prefix from the sent keys gives back exactly the keys of
      the boolean elements: no key is lost and no unprefixed key appears. */
  lemma PrefixedKeysMatchElements(elems: map<string, Element>)
    ensures (set key | key in PrefixPermissions(elems) :: key[|Prefix|..])
         == (set k | k in elems && elems[k].BoolElem?)
  {
    var r := PrefixPermissions(elems);
    forall k | k in elems && elems[k].BoolElem?
      ensures k in (set key | key in r :: key[|Prefix|..])
    {
      assert (Prefix + k)[|Prefix|..] == k;
    }
  }

  /** The record Create and Update send: the permission-carrying record when
      the plan's permissions map is not null, the plain Profile otherwise. */
  function BuildRecord(plan: ProfileModel): (out: Outbound)
    ensures out.profile == BaseRecord(plan)
    ensures out.WithPermissions? <==> !plan.permissions.Null?
    ensures out.WithPermissions? ==> out.permissions == PrefixPermissions(Elements(plan.permissions))
  {
    if !plan.permissions.Null? then
      WithPermissions(BaseRecord(plan), PrefixPermissions(Elements(plan.permissions)))
    else
      Plain(BaseRecord(plan))
  }

  /** The remote call an operation makes. */
  datatype Call = Insert(record: Outbound) | Get(id: string) | Update(id: string, record: Outbound) | Delete(id: string)

  /** The call made, and the response built from the store's answer to it. */
  datatype Step = Step(call: Call, response: Response<ProfileModel>)

  /** Create: inserts the record built from the plan and stores the returned ID. */
  function Create(plan: ProfileModel, answer: InsertAnswer): (r: Step)
    ensures r.call == Insert(BuildRecord(plan))
    ensures answer.Inserted? ==> r.response == Response(SetTo(plan.(id := Known(answer.id))), [])
    ensures answer.InsertFailed? ==> r.response.change == Untouched && |r.response.diagnostics| == 1
  {
    var call := Insert(BuildRecord(plan));
    match answer
    case InsertFailed(err) => Step(call, Response(Untouched, [Error("Error Inserting Profile", err.message)]))
    case Inserted(id) => Step(call, Response(SetTo(plan.(id := Known(id))), []))
  }

  /** Update: sends the record built from the plan under the plan's ID. */
  function UpdateProfile(plan: ProfileModel, answer: WriteAnswer): (r: Step)
    ensures r.call == Update(ValueString(plan.id), BuildRecord(plan))
    ensures answer.Written? ==> r.response == Response(SetTo(plan), [])
    ensures answer.WriteFailed? ==> r.response.change == Untouched && |r.response.diagnostics| == 1
  {
    var call := Update(ValueString(plan.id), BuildRecord(plan));
    match answer
    case WriteFailed(err) => Step(call, Response(Untouched, [Error("Error Updating Profile", err.message)]))
    case Written => Step(call, Response(SetTo(plan), []))
  }

  /** Create and Update send the identical record for the same plan. */
  lemma CreateAndUpdateSendSameRecord(plan: ProfileModel, a: InsertAnswer, b: WriteAnswer)
    ensures Create(plan, a).call.record == UpdateProfile(plan, b).call.record
  {
  }

  /** The fetched permissions as state elements, keys copied verbatim. */
  function ExpandPermissions(p: map<string, bool>): (r: map<string, Element>)
    ensures r.Keys == p.Keys
    ensures forall k | k in r :: r[k] == BoolElem(Known(p[k]))
  {
    map k | k in p :: BoolElem(Known(p[k]))
  }

  /** Read: any error, not-found included, adds one diagnostic; a fetched
      profile replaces name, description, licence and permissions, and the ID
      is kept. */
  function Read(state: ProfileModel, answer: GetAnswer<RemoteProfile>): (r: Step)
    ensures r.call == Get(ValueString(state.id))
    ensures answer.GetFailed? ==> r.response.change == Untouched && |r.response.diagnostics| == 1
    ensures answer.Fetched? ==> r.response.diagnostics == [] && r.response.change == SetTo(ProfileModel(
              state.id,
              Known(answer.record.name),
              Known(answer.record.description),
              Known(answer.record.userLicenseId),
              Known(ExpandPermissions(answer.record.permissions))))
  {
    var call := Get(ValueString(state.id));
    match answer
    case GetFailed(err) => Step(call, Response(Untouched, [Error("Error Getting Profile", err.message)]))
    case Fetched(p) =>
      var data := state.(
        name := Known(p.name),
        description := Known(p.description),
        userLicenseId := Known(p.userLicenseId),
        permissions := Known(ExpandPermissions(p.permissions)));
      Step(call, Response(SetTo(data), []))
  }

  /** Read keeps the store's `Permissions...` names: when the store returns
      the very permissions a plan sent, the state's keys carry the prefix the
      configuration's keys do not. */
  lemma ReadKeepsPrefix(state: ProfileModel, plan: ProfileModel, remote: RemoteProfile, k: string)
    requires !plan.permissions.Null?
    requires k in Elements(plan.permissions) && Elements(plan.permissions)[k].BoolElem?
    requires remote.permissions == BuildRecord(plan).permissions
    ensures Prefix + k in Read(state, Fetched(remote)).response.change.state.permissions.v
    ensures Read(state, Fetched(remote)).response.change.state.permissions.v[Prefix + k]
         == BoolElem(Known(ValueBool(Elements(plan.permissions)[k].b)))
  {
  }

  /** A record the store no longer has is reported like any other error:
      the read fails with one diagnostic and the state is not removed. */
  lemma ReadNotFoundKeepsState(state: ProfileModel, message: string)
    ensures Read(state, GetFailed(RemoteError(message, true))).response.change == Untouched
    ensures |Read(state, GetFailed(RemoteError(message, true))).response.diagnostics| == 1
  {
  }

  /** Delete: every error, not-found included, becomes one diagnostic; on
      success the framework drops the state. */
  function DeleteProfile(state: ProfileModel, answer: WriteAnswer): (r: Step)
    ensures r.call == Delete(ValueString(state.id))
    ensures answer.WriteFailed? ==> r.response.change == Untouched && |r.response.diagnostics| == 1
    ensures answer.Written? ==> r.response == Response(Removed, [])
  {
    var call := Delete(ValueString(state.id));
    match answer
    case WriteFailed(err) => Step(call, Response(Untouched, [Error("Error Deleting Profile", err.message)]))
    case Written => Step(call, Response(Removed, []))
  }
}
