/**
 The user resource: its table of defaults, the record its create and
 update send (the plain User object, or `customUser` which adds the role
 ID), and how a read copies the fetched user into state.
 */
module User {
  import opened Framework
  import PlanModifiers

  /** `userResourceModel` */
  datatype UserModel = UserModel(
    id: Value<string>,
    alias: Value<string>,
    email: Value<string>,
    emailEncodingKey: Value<string>,
    languageLocaleKey: Value<string>,
    lastName: Value<string>,
    localeSidKey: Value<string>,
    profileId: Value<string>,
    timeZoneSidKey: Value<string>,
    username: Value<string>,
    userRoleId: Value<string>,
    resetPassword: Value<bool>)

  /** `userDefaults`: attribute path to its default value. */
  const UserDefaults: map<string, Value<string>> := map[
    "email_encoding_key" := Known("UTF-8"),
    "language_locale_key" := Known("en_US"),
    "locale_sid_key" := Known("en_US"),
    "time_zone_sid_key" := Known("America/New_York")]

  /** The table has exactly four entries, all known strings, and a path
      outside it is never defaulted. */
  lemma UserDefaultsTable(req: PlanModifiers.StringRequest)
    ensures UserDefaults.Keys == {"email_encoding_key", "language_locale_key", "locale_sid_key", "time_zone_sid_key"}
    ensures |UserDefaults| == 4
    ensures forall p | p in UserDefaults :: UserDefaults[p].Known?
    ensures req.path !in UserDefaults.Keys ==> PlanModifiers.ResourceDefaults(UserDefaults, req) == req.plan
  {
    assert UserDefaults.Keys == {"email_encoding_key", "language_locale_key", "locale_sid_key", "time_zone_sid_key"};
  }

  /** With nothing configured the language defaults to en_US, whatever the
      prior state holds. */
  lemma LanguageDefaultsToEnUs(plan: Value<string>, state: Value<string>)
    ensures PlanModifiers.ResourceDefaults(UserDefaults,
              PlanModifiers.StringRequest("language_locale_key", Null, plan, state)) == Known("en_US")
  {
  }

  /** The fields of the store's User object the resource fills. */
  datatype UserRecord = UserRecord(
    alias: string,
    email: string,
    emailEncodingKey: string,
    languageLocaleKey: string,
    lastName: string,
    localeSidKey: string,
    profileId: string,
    timeZoneSidKey: string,
    username: string)

  /** The record sent: the plain User, or `customUser` with a role ID. */
  datatype Outbound = PlainUser(user: UserRecord) | CustomUser(user: UserRecord, userRoleId: string)

  /** The User fields, each read from the plan with `ValueString`. */
  function BaseUser(plan: UserModel): (u: UserRecord)
    ensures u.alias == ValueString(plan.alias) && u.email == ValueString(plan.email)
    ensures u.emailEncodingKey == ValueString(plan.emailEncodingKey)
    ensures u.languageLocaleKey == ValueString(plan.languageLocaleKey)
    ensures u.lastName == ValueString(plan.lastName) && u.localeSidKey == ValueString(plan.localeSidKey)
    ensures u.profileId == ValueString(plan.profileId) && u.timeZoneSidKey == ValueString(plan.timeZoneSidKey)
    ensures u.username == ValueString(plan.username)
  {
    UserRecord(
      ValueString(plan.alias),
      ValueString(plan.email),
      ValueString(plan.emailEncodingKey),
      ValueString(plan.languageLocaleKey),
      ValueString(plan.lastName),
      ValueString(plan.localeSidKey),
      ValueString(plan.profileId),
      ValueString(plan.timeZoneSidKey),
      ValueString(plan.username))
  }

  /** The role ID as `customUser` puts it on the wire when records are
      encoded with encoding/json: its `omitempty` tag drops "", and the plain
      User has no such field. */
  function RoleIdOnWire(out: Outbound): (r: Option<string>)
    ensures out.PlainUser? ==> r == None
    ensures out.CustomUser? ==> (r == None <==> out.userRoleId == "")
    ensures r.Some? ==> r.value == out.userRoleId
  {
    if out.CustomUser? && out.userRoleId != "" then Some(out.userRoleId) else None
  }

  /** The record Create sends: `customUser` exactly when the role ID is not null. */
  function CreateRecord(plan: UserModel): (out: Outbound)
    ensures out.user == BaseUser(plan)
    ensures out.CustomUser? <==> !plan.userRoleId.Null?
    ensures out.CustomUser? ==> out.userRoleId == ValueString(plan.userRoleId)
  {
    var user := BaseUser(plan);
    if !plan.userRoleId.Null? then CustomUser(user, ValueString(plan.userRoleId)) else PlainUser(user)
  }

  /** The record Update sends: always `customUser`, whose role ID stays ""
      (and so is left off the wire) when the plan's role ID is null. */
  function UpdateRecord(plan: UserModel): (out: Outbound)
    ensures out.CustomUser? && out.user == BaseUser(plan)
    ensures plan.userRoleId.Null? ==> out.userRoleId == "" && RoleIdOnWire(out) == None
    ensures plan.userRoleId.Known? ==> out.userRoleId == plan.userRoleId.v
  {
    var custom := CustomUser(BaseUser(plan), "");
    if !plan.userRoleId.Null? then custom.(userRoleId := ValueString(plan.userRoleId)) else custom
  }

  /** Create and Update put the same role ID on the wire, though only Update
      always uses the custom record. */
  lemma CreateAndUpdateAgreeOnWire(plan: UserModel)
    ensures RoleIdOnWire(CreateRecord(plan)) == RoleIdOnWire(UpdateRecord(plan))
    ensures CreateRecord(plan).user == UpdateRecord(plan).user
  {
  }

  /** `reset_password` never reaches an outbound record. */
  lemma ResetPasswordNeverSent(plan: UserModel, reset: Value<bool>)
    ensures CreateRecord(plan.(resetPassword := reset)) == CreateRecord(plan)
    ensures UpdateRecord(plan.(resetPassword := reset)) == UpdateRecord(plan)
  {
  }

  /** The remote call an operation makes. */
  datatype Call = Insert(record: Outbound) | Get(id: string) | Update(id: string, record: Outbound) | Delete(id: string)

  /** The call made, and the response built from the store's answer to it. */
  datatype Step = Step(call: Call, response: Response<UserModel>)

  /** Create: inserts the record and stores the ID the store returns. */
  function Create(plan: UserModel, answer: InsertAnswer): (r: Step)
    ensures r.call == Insert(CreateRecord(plan))
    ensures answer.Inserted? ==> r.response == Response(SetTo(plan.(id := Known(answer.id))), [])
    ensures answer.InsertFailed? ==> r.response.change == Untouched && |r.response.diagnostics| == 1
  {
    var call := Insert(CreateRecord(plan));
    match answer
    case InsertFailed(err) => Step(call, Response(Untouched, [Error("Error Inserting User", err.message)]))
    case Inserted(id) => Step(call, Response(SetTo(plan.(id := Known(id))), []))
  }

  /** Update: sends the custom record under the plan's ID. */
  function UpdateUser(plan: UserModel, answer: WriteAnswer): (r: Step)
    ensures r.call == Update(ValueString(plan.id), UpdateRecord(plan))
    ensures answer.Written? ==> r.response == Response(SetTo(plan), [])
    ensures answer.WriteFailed? ==> r.response.change == Untouched && |r.response.diagnostics| == 1
  {
    var call := Update(ValueString(plan.id), UpdateRecord(plan));
    match answer
    case WriteFailed(err) => Step(call, Response(Untouched, [Error("Error Updating User", err.message)]))
    case Written => Step(call, Response(SetTo(plan), []))
  }

  /** The user as fetched with `customUser`: an absent role ID decodes as "". */
  datatype RemoteUser = RemoteUser(user: UserRecord, userRoleId: string)

  /** Read: any error adds one diagnostic; a fetched user replaces every
      attribute the store holds with a known value, role ID included, and
      keeps the ID and `reset_password`. */
  function Read(state: UserModel, answer: GetAnswer<RemoteUser>): (r: Step)
    ensures r.call == Get(ValueString(state.id))
    ensures answer.GetFailed? ==> r.response.change == Untouched && |r.response.diagnostics| == 1
    ensures answer.Fetched? ==> r.response.diagnostics == [] && r.response.change.SetTo?
    ensures answer.Fetched? ==>
              var s := r.response.change.state;
              && s.id == state.id && s.resetPassword == state.resetPassword
              && s.userRoleId == Known(answer.record.userRoleId)
              && BaseUser(s) == answer.record.user
              && s.alias.Known? && s.email.Known? && s.emailEncodingKey.Known?
              && s.languageLocaleKey.Known? && s.lastName.Known? && s.localeSidKey.Known?
              && s.profileId.Known? && s.timeZoneSidKey.Known? && s.username.Known?
  {
    var call := Get(ValueString(state.id));
    match answer
    case GetFailed(err) => Step(call, Response(Untouched, [Error("Error Getting User", err.message)]))
    case Fetched(c) =>
      var u := c.user;
      var data := state.(
        alias := Known(u.alias),
        email := Known(u.email),
        emailEncodingKey := Known(u.emailEncodingKey),
        languageLocaleKey := Known(u.languageLocaleKey),
        lastName := Known(u.lastName),
        localeSidKey := Known(u.localeSidKey),
        profileId := Known(u.profileId),
        timeZoneSidKey := Known(u.timeZoneSidKey),
        username := Known(u.username),
        userRoleId := Known(c.userRoleId));
      Step(call, Response(SetTo(data), []))
  }

  /** A user without a role reads back with a known "" role ID, not null. */
  lemma ReadAbsentRoleIsEmptyString(state: UserModel, user: UserRecord)
    ensures Read(state, Fetched(RemoteUser(user, ""))).response.change.state.userRoleId == Known("")
  {
  }

  /** Reading back a user created from a fully known plan gives back the plan's
      attributes, so a read right after create reports no drift; only a null
      role ID comes back as a known "". */
  lemma ReadAfterCreate(plan: UserModel, id: string)
    requires plan.alias.Known? && plan.email.Known? && plan.emailEncodingKey.Known?
    requires plan.languageLocaleKey.Known? && plan.lastName.Known? && plan.localeSidKey.Known?
    requires plan.profileId.Known? && plan.timeZoneSidKey.Known? && plan.username.Known?
    requires plan.userRoleId.Known? || plan.userRoleId.Null?
    ensures var stored := Create(plan, Inserted(id)).response.change.state;
            var remote := RemoteUser(CreateRecord(plan).user, ValueString(plan.userRoleId));
            Read(stored, Fetched(remote)).response.change.state
              == stored.(userRoleId := Known(ValueString(plan.userRoleId)))
  {
  }

  /** A record the store no longer has is reported like any other error:
      the read fails with one diagnostic and the state is not removed. */
  lemma ReadNotFoundKeepsState(state: UserModel, message: string)
    ensures Read(state, GetFailed(RemoteError(message, true))).response.change == Untouched
    ensures |Read(state, GetFailed(RemoteError(message, true))).response.diagnostics| == 1
  {
  }

  /** Delete: every error, not-found included, becomes one diagnostic; on
      success the framework drops the state. */
  function DeleteUser(state: UserModel, answer: WriteAnswer): (r: Step)
    ensures r.call == Delete(ValueString(state.id))
    ensures answer.WriteFailed? ==> r.response.change == Untouched && |r.response.diagnostics| == 1
    ensures answer.Written? ==> r.response == Response(Removed, [])
  {
    var call := Delete(ValueString(state.id));
    match answer
    case WriteFailed(err) => Step(call, Response(Untouched, [Error("Error Deleting User", err.message)]))
    case Written => Step(call, Response(Removed, []))
  }
}
