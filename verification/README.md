# Salesforce provider core, modelled in Dafny

This project models the core of a Terraform provider that manages Salesforce
records: accounts, profiles and users. The model covers five parts:

- the conversion of 15-character Salesforce record IDs to their
  case-insensitive 18-character form (`normalizeId`);
- the plan modifiers that decide each attribute's planned value from its
  configured, proposed and prior-state values;
- the attribute validators: non-empty string, e-mail address, and membership
  in a fixed list;
- the JSON codec of the three-state boolean wrapper (`BoolMarshaler`);
- the create, read, update and delete logic of the account, profile and user
  resources.

The remote store is not modelled; each operation receives its answer as a
parameter.

Terraform values are three-state: `Value<T> = Null | Unknown | Known(v)`
(`framework.dfy`). Strings are `seq<char>`, where every `char` stands for one
byte, so a string's length is Go's `len`.

Each resource operation is a pure function. It takes the state or plan, and
the store's answer to the one call the operation makes. It returns a `Step`,
which holds:

- the call it made (`Insert`, `Get`, `Update` or `Delete`, with the exact
  record or map sent);
- a `Response`, which holds the state change (`Untouched`, `SetTo(state)` or
  `Removed`) and the diagnostics added.

Modules:

| module | file | models |
|---|---|---|
| `Framework` | framework.dfy | three-state values, diagnostics, store answers, responses |
| `SalesforceId` | salesforce_id.dfy | `normalizeId` and ID equivalence |
| `PlanModifiers` | modifiers.dfy | `NormalizeId`, `resourceDefaults`, `staticComputed`, `fixNullToUnknown`, `booleanNilIsFalse` |
| `Validators` | validators.dfy | `notEmptyString`, `email` / `isEmailValid`, `stringInSlice` |
| `BoolJson` | bool_json.dfy | `BoolMarshaler.MarshalJSON` / `UnmarshalJSON` |
| `Account` | account.dfy | `accountResourceData.ToMap`, `accountMap.ToStateData`, account CRUD |
| `Profile` | profile.dfy | profile record building, permission prefixing, profile CRUD |
| `User` | user.dfy | `userDefaults`, plain vs `customUser` records, user CRUD |

The e-mail regular expression is written as a grammar:

- **local part:** one or more of the allowed characters;
- **label:** 1 to 63 alphanumerics and hyphens, alphanumeric at both ends;
- **domain:** labels joined by dots.

An independent split-based description (`EmailShape`) serves as its
reference: one `@`, a valid local part, and every dot-separated piece a label.
`Validators.EmailPatternIffShape` proves that the two accept the same strings.

In these places the model follows what the code does:

- **Update sends every field.** An account update sends the full sparse map of
  the plan, not only the changed fields (`Account.UpdateSendsUnchangedFields`).
- **Delete reports not-found.** A not-found error on delete is reported as an
  error, not treated as success (`Account.DeleteAccount`, `Profile.DeleteProfile`,
  `User.DeleteUser`).
- **Not-found on read depends on the resource.** An account read removes the
  resource. A profile or user read reports an error and keeps the state
  (`Account.ReadNotFoundRemoves`, `Profile.ReadNotFoundKeepsState`,
  `User.ReadNotFoundKeepsState`).
- **Defaults always apply.** `resourceDefaults` fires whenever the
  configuration is null, whether or not prior state exists
  (`PlanModifiers.ResourceDefaultsIgnoresState`).
- **Modifiers are independent.** Each modifier is an independent function of
  its request. There is no fixed rule order and no first-match-wins: each
  attribute's schema lists its own modifiers.

## Model

| member | source | states |
|---|---|---|
| Framework.ValueString | internal/provider/modifiers.go:44-45 | a known string yields its value; null and unknown yield "" |
| Framework.ValueBool | internal/provider/resource_profile.go:102-103 | true exactly for a known true; null and unknown yield false |
| SalesforceId.NormalizeId | internal/provider/modifiers.go:18-36 | a string whose length is not 15 is returned unchanged; a 15-character ID becomes 18 characters, keeping the ID as prefix and appending its three checksum characters |
| SalesforceId.NormalizeIdLoop | internal/provider/modifiers.go:24-35 | the nested block/position loops with the shift-and-add mask compute exactly `NormalizeId` |
| SalesforceId.PrefixMask | internal/provider/modifiers.go:27-31 | the mask built from the first n positions of a block is below 2^n, so a 5-position mask always indexes the 32-symbol alphabet |
| SalesforceId.Equivalent | internal/provider/modifiers.go:46 | two short IDs, or two IDs neither of which is short, are the same record exactly when equal; a short ID and a longer one, in either order, exactly when the longer is the short one's 18-character form |
| SalesforceId.NormalizeIdIdempotent | internal/provider/modifiers.go:18-23 | normalising an already normalised ID changes nothing |
| SalesforceId.ShortFormEquivalentToLongForm | internal/provider/modifiers.go:18-36 | a 15-character ID and its 18-character form name the same record |
| SalesforceId.ShortFormsEquivalentIffEqual | internal/provider/modifiers.go:18-36 | two distinct 15-character IDs never normalise to the same string, and equal ones always do |
| SalesforceId.DecodePrefixMask | internal/provider/modifiers.go:27-31 | reading the mask's bits back gives exactly the upper-case pattern of the positions it covers |
| SalesforceId.PrefixMaskOfCasePattern | internal/provider/modifiers.go:27-31 | the mask depends only on which positions are upper-case letters |
| SalesforceId.AlphabetIndexInverts | internal/provider/modifiers.go:33 | each mask 0..31 selects a distinct checksum symbol, so the symbol determines the mask |
| SalesforceId.CheckCharEncodesCase | internal/provider/modifiers.go:25-34 | each of the three checksum characters decodes to the case pattern of its 5-character block |
| SalesforceId.SameCheckCharSameCase | internal/provider/modifiers.go:25-34 | equal checksum characters for a block mean equal upper-case positions in that block |
| SalesforceId.SameCaseSameSuffix | internal/provider/modifiers.go:25-34 | IDs with the same upper-case positions get the same checksum |
| SalesforceId.SameSuffixIffSameCase | internal/provider/modifiers.go:25-34 | two 15-character IDs get the same checksum if and only if they have upper-case letters at the same positions |
| SalesforceId.NoUpperCaseGivesAAA | internal/provider/modifiers.go:29-33 | every 15-character ID without upper-case letters gets checksum "AAA" |
| SalesforceId.AllUpperCaseGives555 | internal/provider/modifiers.go:29-33 | every 15-character ID made only of upper-case letters gets checksum "555" |
| SalesforceId.DifferentRecordsNotEquivalent | internal/provider/modifiers.go:46 | every short ID matches its own long form and no other short ID's long form |
| PlanModifiers.NormalizeIdPlan | internal/provider/modifiers.go:40-51 | the plan keeps the prior-state ID exactly when the state is known and both IDs normalise alike, else keeps the proposed value; the result always names the same record as the proposal |
| PlanModifiers.NormalizeIdPlanNoDiffBetweenForms | internal/provider/modifiers.go:40-51 | a 15-character ID in configuration against its 18-character form in state (or the reverse) plans the stored value, so no diff appears |
| PlanModifiers.NormalizeIdPlanKeepsRealChange | internal/provider/modifiers.go:46-50 | a short ID naming a different record than the stored one is planned as given |
| PlanModifiers.ResourceDefaults | internal/provider/modifiers.go:57-65 | with a null configuration and a path in the table, the table's value is planned; otherwise the proposal is kept |
| PlanModifiers.ResourceDefaultsIgnoresState | internal/provider/modifiers.go:57-65 | the prior state has no influence on the result |
| PlanModifiers.ResourceDefaultsOnlyTablePaths | internal/provider/modifiers.go:59-63 | whenever the plan changes, the configuration was null, the path is in the table and the table's value is planned |
| PlanModifiers.StaticComputed | internal/provider/modifiers.go:69-74 | with null prior state the proposal is kept; otherwise the prior state is planned |
| PlanModifiers.StaticComputedSticky | internal/provider/modifiers.go:69-74 | once state holds a value, no configuration or proposal can change the plan |
| PlanModifiers.StaticComputedIdempotent | internal/provider/modifiers.go:69-74 | applying the modifier to its own output changes nothing |
| PlanModifiers.FixNullToUnknown | internal/provider/modifiers.go:78-87 | as written, the plan is the proposal for every request |
| PlanModifiers.FixNullToUnknownKeepsNull | internal/provider/modifiers.go:79-86 | with null state, unknown configuration and null proposal the written modifier plans null while the intended one plans unknown |
| PlanModifiers.FixNullToUnknownIntended | internal/provider/modifiers.go:84-86 | with unknown configuration and null state the plan is unknown; otherwise the proposal is kept |
| PlanModifiers.FixNullToUnknownIntendedNeverNullForUnknownConfig | internal/provider/modifiers.go:78-87 | the corrected modifier never plans null for an unknown configuration without state, and agrees with the written one whenever state is not null |
| PlanModifiers.BooleanNilIsFalse | internal/provider/modifiers.go:91-96 | a null configuration plans known false; otherwise the proposal is kept |
| PlanModifiers.BooleanNilIsFalseOnlyFillsAbsent | internal/provider/modifiers.go:91-96 | the plan changes only to replace an absent boolean by false, and re-applying changes nothing |
| Validators.NotEmptyString | internal/provider/validators.go:25-36 | unknown is never reported; otherwise exactly one "Empty String" error at the path exactly when the value reads as "" (so null is reported) |
| Validators.IsEmailValid | internal/provider/validators.go:40-45 | accepted exactly when 3 to 254 bytes long and matched by the grammar; any other length is rejected |
| Validators.EmailValidIffShape | internal/provider/validators.go:38-45 | accepted exactly when 3 to 254 bytes long with one '@' between a valid local part and a domain whose dot-separated pieces are all labels |
| Validators.Email | internal/provider/validators.go:57-68 | unknown is never reported; otherwise exactly one error exactly when the value is not a valid address (so null is reported) |
| Validators.DomainChars | internal/provider/validators.go:38 | a domain consists only of alphanumerics, hyphens and dots |
| Validators.DomainToLabels | internal/provider/validators.go:38 | every dot-separated piece of a domain is a label |
| Validators.LabelsToDomain | internal/provider/validators.go:38 | a string whose dot-separated pieces are all labels is a domain |
| Validators.DomainIffLabels | internal/provider/validators.go:38 | the domain rule holds if and only if every dot-separated piece is a label |
| Validators.EmailPatternIffShape | internal/provider/validators.go:38 | the pattern accepts exactly the strings with one '@', a valid local part, and a domain of labels |
| Validators.PatternToShape | internal/provider/validators.go:38 | an address the pattern matches has exactly one '@', a valid local part and a domain of labels |
| Validators.ShapeToPattern | internal/provider/validators.go:38 | an address with one '@', a valid local part and a domain of labels is matched by the pattern |
| Validators.ShortestEmailAccepted | internal/provider/validators.go:40-45 | "a@b" is a valid address |
| Validators.DomainStartsAlnum | internal/provider/validators.go:38 | a domain starts with an alphanumeric character |
| Validators.DotBetweenAlnums | internal/provider/validators.go:38 | every dot of a domain has an alphanumeric on both sides |
| Validators.AtIsUnique | internal/provider/validators.go:38 | the '@' a match splits at is the only '@' in the address |
| Validators.LeadingHyphenRejected | internal/provider/validators.go:38 | any address with a domain label starting with a hyphen, right after the '@' or after a dot, is rejected |
| Validators.EmptyLabelRejected | internal/provider/validators.go:38 | any address with two consecutive dots after its '@' is rejected |
| Validators.SecondAtRejected | internal/provider/validators.go:38 | any address with two '@' is rejected |
| Validators.Join | internal/provider/validators.go:98 | the joined list starts with the first item and is as long as all items plus one separator fewer than there are items; an empty list joins to "" |
| Validators.ValidateInSlice | internal/provider/validators.go:83-100 | unknown, and null in optional mode, are never reported; otherwise no error exactly when the value is one of the allowed strings, a non-optional null counting as "" |
| BoolJson.MarshalJson | internal/provider/types.go:56-61 | null and unknown encode as `null`, a known value as `true` or `false` |
| BoolJson.UnmarshalJson | internal/provider/types.go:63-74 | `null` decodes to null and `true`/`false` to a known value; any other token fails and leaves the receiver unchanged; success never yields unknown |
| BoolJson.MarshalForgetsUnknown | internal/provider/types.go:57-58 | unknown and null encode identically |
| BoolJson.RoundTrip | internal/provider/types.go:56-74 | decoding an encoding gives the value back, unknown becoming null, whatever the receiver held |
| BoolJson.SurroundingSpaceIgnored | internal/provider/types.go:65 | any amount of JSON whitespace before and after the value does not change the result |
| BoolJson.TrimStartDropsSpace | internal/provider/types.go:65 | prepended whitespace is removed by start-trimming |
| BoolJson.TrimStartKeepsEnd | internal/provider/types.go:65 | trailing whitespace does not change what remains once leading whitespace is trimmed and the end is trimmed |
| BoolJson.TrimEndDropsSpace | internal/provider/types.go:65 | appended whitespace is removed by end-trimming |
| Account.Exclude | internal/provider/resource_account.go:111-115 | deleting the listed keys in turn leaves exactly the entries of the map whose key is not listed, with their values |
| Account.ToMap | internal/provider/resource_account.go:91-116 | the map holds only field API names, never the ID, none of the excluded keys, and exactly the set non-empty fields with their values |
| Account.ToStateData | internal/provider/resource_account.go:120-145 | the name is copied; an optional field is set exactly when its key maps to a string, with that string; the ID is the zero known "" |
| Account.ToStateDataAfterToMap | internal/provider/resource_account.go:91-145 | map and back keeps the name and every non-empty field, while a field set to "" comes back unset |
| Account.RoundTripWithoutEmptyFields | internal/provider/resource_account.go:91-145 | without empty fields the round trip returns the data, with the ID reset to "" |
| Account.ToMapAfterToStateData | internal/provider/resource_account.go:91-145 | back to the map keeps exactly the non-empty string entries of a remote map, with their values |
| Account.EmptyAndAbsentConflated | internal/provider/resource_account.go:98-113 | data that differ only by "" versus unset fields give the same map |
| Account.ExcludeOnlyRemovesListed | internal/provider/resource_account.go:111-115 | excluding keys removes exactly those keys and leaves other entries unchanged |
| Account.Create | internal/provider/resource_account.go:155-170 | inserts the full sparse map; on success the state is the plan with the returned ID; on failure one diagnostic and no state |
| Account.Read | internal/provider/resource_account.go:172-194 | not-found removes the resource without a diagnostic; any other error adds one; success stores `ToStateData` of the fetched map, with the prior ID in place of its zero ID |
| Account.UpdateAccount | internal/provider/resource_account.go:196-209 | sends the full sparse map under the plan's ID; on success the state is the plan |
| Account.DeleteAccount | internal/provider/resource_account.go:211-222 | every error, not-found included, adds one diagnostic; success removes the state |
| Account.CreateAcme | internal/provider/resource_account.go:155-170 | creating "Acme" with nothing else set sends only the name and stores the returned ID |
| Account.UpdateSendsUnchangedFields | internal/provider/resource_account.go:203 | an update after a phone change still sends the unchanged name |
| Account.ReadNotFoundRemoves | internal/provider/resource_account.go:180-186 | a record the store no longer has leaves state silently |
| Account.ReadAfterUpdate | internal/provider/resource_account.go:189-203 | reading back the map an update sent gives the plan again, with fields set to "" unset and the stored ID kept |
| Account.ValidatedNameIsSent | internal/provider/resource_account.go:30-37 | a name that passes `notEmptyString` is always in the sent map with its value, so the map read back meets `ToStateData`'s demand for a string name |
| Profile.BaseRecord | internal/provider/resource_profile.go:86-92 | name and licence read from the plan; description set only when not null, "" otherwise |
| Profile.DescriptionGuardRedundant | internal/provider/resource_profile.go:90-92 | the null guard on the description gives the same record as reading it unguarded |
| Profile.PrefixPermissions | internal/provider/resource_profile.go:100-105 | each boolean element k is placed in the record's Permissions field as "Permissions"+k with its value; every key there is a prefixed boolean element key |
| Profile.PrefixedKeysMatchElements | internal/provider/resource_profile.go:100-105 | removing the prefix from the sent keys gives exactly the boolean elements' keys |
| Profile.BuildRecord | internal/provider/resource_profile.go:86-105 | the permission-carrying record exactly when the permissions map is not null, otherwise the plain profile |
| Profile.Create | internal/provider/resource_profile.go:78-123 | inserts the built record; on success stores the returned ID; on failure one diagnostic and no state |
| Profile.UpdateProfile | internal/provider/resource_profile.go:154-195 | sends the built record under the plan's ID; on success the state is the plan |
| Profile.CreateAndUpdateSendSameRecord | internal/provider/resource_profile.go:86-105 | create and update build the identical record for the same plan |
| Profile.ExpandPermissions | internal/provider/resource_profile.go:144-148 | every fetched permission becomes a known boolean element under the same key |
| Profile.Read | internal/provider/resource_profile.go:125-152 | any error adds one diagnostic; success sets name, description, licence and permissions to the fetched values and keeps the ID |
| Profile.ReadKeepsPrefix | internal/provider/resource_profile.go:101-103 | if the fetched record's Permissions field holds what the plan's record held, a permission placed there as "Permissions"+k is stored in state under the prefixed key, not under k |
| Profile.ReadNotFoundKeepsState | internal/provider/resource_profile.go:135-138 | a missing profile is an error and the state stays |
| Profile.DeleteProfile | internal/provider/resource_profile.go:197-209 | every error adds one diagnostic; success removes the state |
| User.UserDefaultsTable | internal/provider/resource_user.go:18-25 | exactly four defaulted paths, each with a known value; other paths keep the proposal |
| User.LanguageDefaultsToEnUs | internal/provider/resource_user.go:21 | an unconfigured language plans "en_US" whatever the state holds |
| User.BaseUser | internal/provider/resource_user.go:135-145 | every User field is the plan's value read as a string |
| User.RoleIdOnWire | internal/provider/resource_user.go:114-117 | the plain User carries no role ID; the custom record carries its role ID unless it is "", which the `omitempty` tag drops if the client encodes with encoding/json |
| User.CreateRecord | internal/provider/resource_user.go:148-166 | the custom record with the role ID exactly when the role ID is not null |
| User.UpdateRecord | internal/provider/resource_user.go:210-228 | always the custom record; a null role ID leaves "" and so is omitted on the wire |
| User.CreateAndUpdateAgreeOnWire | internal/provider/resource_user.go:114-117 | create and update send the same User fields and the same role ID on the wire |
| User.ResetPasswordNeverSent | internal/provider/resource_user.go:135-145 | reset_password has no influence on any record sent |
| User.Create | internal/provider/resource_user.go:127-170 | inserts the chosen record; on success stores the returned ID; on failure one diagnostic |
| User.UpdateUser | internal/provider/resource_user.go:202-237 | sends the custom record under the plan's ID; on success the state is the plan |
| User.Read | internal/provider/resource_user.go:172-200 | any error adds one diagnostic; success makes every store-backed attribute known with the fetched value, role ID included, and keeps the ID and reset_password |
| User.ReadAbsentRoleIsEmptyString | internal/provider/resource_user.go:196 | a user without a role reads back as a known "" role ID, not null |
| User.ReadAfterCreate | internal/provider/resource_user.go:127-200 | reading back what a fully known plan created reproduces the stored state, except that a null role ID comes back as "" |
| User.ReadNotFoundKeepsState | internal/provider/resource_user.go:182-185 | a missing user is an error and the state stays |
| User.DeleteUser | internal/provider/resource_user.go:239-251 | every error adds one diagnostic; success removes the state |

## Left out

- The remote store client (`force.ForceApi`) and its JSON wire encoding are
  answers passed in as parameters. Consequences:
  - the effect of the `json:"-"` tag on the profile permissions
    (resource_profile.go:67) is not modelled. If the client encodes and
    decodes records with Go's encoding/json, that tag keeps the Permissions
    field out of both directions: no permission reaches the store, and a read
    always stores an empty permissions map. The profile members state only
    what goes into and comes out of the Go record;
  - only the `omitempty` tag of the user's role ID is modelled
    (`User.RoleIdOnWire`), under the same assumption that the client encodes
    records with Go's encoding/json.
- `isNotFoundError` becomes a flag on the remote error.
- Terraform path rendering is abstract: request paths and `userDefaults` keys
  are plain attribute names. The schemas do not attach `userDefaults` to any
  attribute. Even if one did, the table's keys are rendered from
  `tftypes.AttributePath` (resource_user.go:20-23) while the lookup renders the
  framework's request path (modifiers.go:60), two different path types whose
  strings need not agree. So `User.LanguageDefaultsToEnUs` is a property of
  the table under `resourceDefaults`, not a promise about the provider.
- The `tfsdk` state and plan `Get`/`Set` diagnostics (type-conversion
  failures) are left out. Every operation assumes they succeed.
- Schema declarations, `Metadata`, `ImportState`, the `ApiName` methods, the
  provider's configuration, the data sources and the user-role resource are
  outside the core.
- Diagnostic texts are modelled. The error strings the store and the JSON
  decoder return are not.
- Profile.BuildRecord: `Elements()` of a non-null map is taken to be non-nil,
  as the framework always returns an allocated map.
- BoolJson.UnmarshalJson: does not model which error the JSON decoder returns,
  only that one is returned. Its token test covers only the three literals
  surrounded by JSON whitespace.
- Account.Read: a fetched map must hold a string name, and each optional
  field present must be null or a string. `ToStateData`'s unchecked type
  assertions panic on anything else, and a panic is not modelled.
- Validators.ValidateInSlice: the error detail's joined list is built by
  `Validators.Join`, but its text is not stated in the contract.

## Findings

| source | as written | input that shows it | evidently intended | confidence | as-written member | corrected member |
|---|---|---|---|---|---|---|
| internal/provider/modifiers.go:78-87 | returns as soon as the prior state is null, so the later test "configuration unknown and state null" can never be true; the modifier never changes the plan | prior state null, configuration unknown, proposal null: the plan stays null | plan unknown when the configuration is unknown and no state exists | medium, not executed | PlanModifiers.FixNullToUnknown, PlanModifiers.FixNullToUnknownKeepsNull | PlanModifiers.FixNullToUnknownIntended |
