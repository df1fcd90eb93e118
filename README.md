# Camp reservation store: a verified model of the in-memory backend

The system is the data-access layer of a disaster-relief shelter tool. Users
register and sign in. They browse camps and reserve one bed each, and
volunteers add camps and record camp assignments. In development all of this
is served by `MockSupabaseClient` (`src/lib/supabase.js`). It is an
in-memory store of four tables (`users`, `camps`, `campSelections`,
`volunteerAssignments`) plus a `currentUser` slot. This project models that
class and proves what its operations guarantee.

The project is in four modules:

- `Records` (`records.dfy`): the stored records, the error kinds with the
  mock's own messages, and the `{data, error}` envelope as `Result`.
- `Store` (`store.dfy`): the tables as one value `State`. `WellFormed` is the
  consistency condition. There is one function per operation, from the tables
  before the call to a `Step`: what the call returns and the tables after it.
  The read-only operations (`getCamps`, `getCurrentUser`,
  `getUserCampSelection`, `getVolunteerAssignments`) are functions of the
  state with contracts of their own.
- `StoreLemmas` (`store_lemmas.dfy`): what those functions guarantee.
  - Every operation keeps the store well formed: at most one selection per
    user, unique emails, every selection naming an existing camp, the
    seeded camps present, and no negative bed count on a camp that holds
    reservations.
  - `selectCamp` and `cancelCampSelection` only move beds between "free" and
    "reserved". A camp's `beds` plus its number of selections is the same
    before and after each call.
  - Failures change nothing, and the checks run in the order the source
    runs them.
  - A selection followed by its cancellation restores the store exactly.
- `MockClient` (`client.dfy`): the class `MockSupabaseClient`. Its map fields
  are updated in place, with the source's scan loops. Each method is proved
  to produce exactly the `Step` of the matching `Store` function and to keep
  `Valid()`.
- `Scenarios` (`scenarios.dfy`): short walk-throughs that use only the
  class's contracts. One shows that camp-1 goes from 50 free beds to 49 and
  back, and that a second reservation is refused. Another shows that a camp
  with no beds refuses a reservation. A third shows that a duplicate email
  is refused.

Ids from `generateId` are modelled as a nondeterministic choice of an id that
starts with `id_` and is not yet a key of the target table. Each method
exposes the id it chose as a ghost out-parameter `newId`, and the `Store`
functions take it as an argument. Timestamps are a caller-supplied opaque
`now`.

Points where the code's behaviour is easy to misread:

- `getUserCampSelection` reports a missing selection as a returned error with
  code `PGRST116` and `data: null`, not as a thrown error. The model returns
  `Err(NoRows)`, whose code is `PGRST116`.
- `createCamp` does not check its bed numbers, so `0 <= beds <= originalBeds`
  is proved only for the default camps. For every camp the model proves that
  `beds` plus the camp's reservation count never changes, and that a camp
  with a non-negative sum never has a negative `beds`.
- "Camp not found" is checked before "Cannot delete default camps", and "You
  already have a camp selected" is checked before "Camp not found".

The functions of `Store` that describe how an operation changes the tables
carry no contract of their own; the lemmas and methods in the table below
state what they do:

- `Store.SignUp` and `Store.NewUserRecord` (`src/lib/supabase.js:68-104`):
  `StoreLemmas.SignUpPreserves`, `MockClient.MockSupabaseClient.SignUp`.
- `Store.SignIn` (`src/lib/supabase.js:106-119`): `StoreLemmas.SignInPreserves`.
- `Store.SignOut` (`src/lib/supabase.js:121-124`): `StoreLemmas.SignOutPreserves`.
- `Store.CreateCamp` and `Store.NewCamp` (`src/lib/supabase.js:153-176`):
  `StoreLemmas.CreateCampPreserves`.
- `Store.DeleteCamp` and `Store.WithoutCamp` (`src/lib/supabase.js:178-197`):
  `StoreLemmas.DeleteCampOutcome`, `StoreLemmas.DeleteCampPreserves`,
  `StoreLemmas.ReservedWithoutCamp`.
- `Store.SelectCamp` (`src/lib/supabase.js:199-235`): `StoreLemmas.SelectCampFailures`,
  `StoreLemmas.SelectCampSuccess`, `StoreLemmas.SelectCampKeepsSeats`.
- `Store.CancelCampSelection` (`src/lib/supabase.js:237-265`):
  `StoreLemmas.CancelCampSelectionOutcome`, `StoreLemmas.CancelCampSelectionKeepsSeats`.
- `Store.CreateVolunteerAssignment` (`src/lib/supabase.js:287-302`):
  `StoreLemmas.CreateVolunteerAssignmentPreserves`.
- `Store.DefaultCamps` and `Store.Seeded` (`src/lib/supabase.js:19-60`):
  `StoreLemmas.InitialWellFormed`, `MockClient.MockSupabaseClient.InitializeDefaultCamps`.
- `Store.WithCreator` (`src/lib/supabase.js:136-144`): `Store.GetCamps`.

## Model

| member | source | states |
|---|---|---|
| MockClient.MockSupabaseClient.constructor | src/lib/supabase.js:7-16 | a new store has no users, selections, assignments or session, holds exactly the three seeded camps, and is well formed |
| MockClient.MockSupabaseClient.InitializeDefaultCamps | src/lib/supabase.js:18-61 | the camps table gains exactly the three seeded camps, each under its own id, and nothing else changes |
| MockClient.MockSupabaseClient.FindUserByEmail | src/lib/supabase.js:70-74 | the scan returns the key of an account whose profile has the email, and returns nothing exactly when no profile has it |
| MockClient.MockSupabaseClient.FindSelection | src/lib/supabase.js:242-248 | the scan returns the key of a selection held by the user, and returns nothing exactly when the user holds none |
| MockClient.MockSupabaseClient.SignUp | src/lib/supabase.js:68-104 | the result and new tables are those of `Store.SignUp` for a fresh `id_` id; the store stays well formed |
| MockClient.MockSupabaseClient.SignIn | src/lib/supabase.js:106-119 | the result and new session are those of `Store.SignIn`; the password takes no part; the store stays well formed |
| MockClient.MockSupabaseClient.SignOut | src/lib/supabase.js:121-124 | the session becomes empty and nothing else changes |
| MockClient.MockSupabaseClient.CreateCamp | src/lib/supabase.js:153-176 | the returned camp view and new camps table are those of `Store.CreateCamp` for a fresh id; the store stays well formed |
| MockClient.MockSupabaseClient.DeleteCamp | src/lib/supabase.js:178-197 | the result and new tables are those of `Store.DeleteCamp`; the store stays well formed |
| MockClient.MockSupabaseClient.RemoveSelectionsFor | src/lib/supabase.js:188-193 | deleting during the scan leaves exactly the selections that do not name the camp |
| MockClient.MockSupabaseClient.SelectCamp | src/lib/supabase.js:199-235 | the result and new tables are those of `Store.SelectCamp` for a fresh id; the store stays well formed |
| MockClient.MockSupabaseClient.CancelCampSelection | src/lib/supabase.js:237-265 | the result and new tables are those of `Store.CancelCampSelection`; the store stays well formed |
| MockClient.MockSupabaseClient.GetUserCampSelection | src/lib/supabase.js:267-285 | returns `Store.GetUserCampSelection`; in a valid store the joined camp is always present |
| MockClient.MockSupabaseClient.CreateVolunteerAssignment | src/lib/supabase.js:287-302 | the returned assignment and new table are those of `Store.CreateVolunteerAssignment` for a fresh id; the store stays well formed |
| Store.GetCurrentUser | src/lib/supabase.js:126-131 | in a well-formed store the signed-in account is one stored under its own id |
| Store.GetCamps | src/lib/supabase.js:134-151 | one view per stored camp, holding that camp; the creator's profile is attached exactly when the camp names a non-empty creator id of a stored user, and never to a default camp |
| Store.GetUserCampSelection | src/lib/supabase.js:267-285 | fails with the "no rows" error exactly when the user holds no selection; otherwise returns a selection of that user joined with the camp it names, if that camp exists |
| Store.GetVolunteerAssignments | src/lib/supabase.js:304-319 | exactly the assignments of that volunteer, each joined with the camp it names, if that camp exists |
| StoreLemmas.FreshIdExists | src/lib/supabase.js:63-65 | however many ids are taken, an unused id of the generated `id_` shape exists |
| StoreLemmas.InitialWellFormed | src/lib/supabase.js:18-60 | the seeded store is well formed and holds exactly camp-1, camp-2 and camp-3, each with all its original beds free |
| StoreLemmas.SignUpPreserves | src/lib/supabase.js:68-104 | sign-up fails with "User already exists" exactly when the email is taken, changing nothing; otherwise it stores the account and signs it in; emails stay unique |
| StoreLemmas.SignInPreserves | src/lib/supabase.js:106-119 | sign-in succeeds exactly when a stored profile has the email, and then signs in that stored account; otherwise it fails with "Invalid email or password" and changes nothing |
| StoreLemmas.SignOutPreserves | src/lib/supabase.js:121-124 | sign-out keeps the store well formed and leaves no session |
| StoreLemmas.CreateCampPreserves | src/lib/supabase.js:153-163 | a created camp is volunteer-added, records its creator and keeps the caller's bed count; no other camp or selection changes |
| StoreLemmas.ReservedOfAbsentCamp | src/lib/supabase.js:207-210 | in a well-formed store no selection names a camp that is not stored |
| StoreLemmas.DeleteCampOutcome | src/lib/supabase.js:178-197 | delete fails with "Camp not found" on an unknown camp and with "Cannot delete default camps" on any camp of default type, changing nothing; on any other stored camp it succeeds, and exactly that camp and its selections go while every other camp keeps its record and its free plus reserved beds |
| StoreLemmas.ReservedWithoutCamp | src/lib/supabase.js:188-193 | after the cascade the deleted camp has no reservations and every other camp keeps its count |
| StoreLemmas.DropCampKeepsBeds | src/lib/supabase.js:188-195 | removing a camp with its selections keeps the bed accounting consistent |
| StoreLemmas.DeleteCampPreserves | src/lib/supabase.js:178-197 | delete keeps the store well formed |
| StoreLemmas.DefaultCampsRemain | src/lib/supabase.js:184-186 | camp-1, camp-2 and camp-3 survive every delete |
| StoreLemmas.SelectCampFailures | src/lib/supabase.js:199-214 | an existing selection of the user fails first, then a missing camp, then a camp with no free bed; each failure changes nothing |
| StoreLemmas.SelectCampSuccess | src/lib/supabase.js:216-229 | success lowers exactly that camp's beds by one and adds exactly one selection for that user and camp under the fresh id; users, assignments and session are untouched |
| StoreLemmas.ReservedAfterInsert | src/lib/supabase.js:221-229 | storing a new selection raises the reservation count of its camp by one and of no other camp |
| StoreLemmas.SelectCampKeepsSeats | src/lib/supabase.js:216-229 | every camp's free plus reserved beds are unchanged by a select |
| StoreLemmas.InsertKeepsOnePerUser | src/lib/supabase.js:200-205 | adding a selection for a user who holds none keeps at most one selection per user |
| StoreLemmas.TakeBedKeepsBeds | src/lib/supabase.js:212-229 | taking a free bed keeps beds non-negative on camps with reservations and keeps default camps accounted for |
| StoreLemmas.SelectCampPreserves | src/lib/supabase.js:199-235 | select keeps the store well formed |
| StoreLemmas.SelectionKeyUnique | src/lib/supabase.js:242-248 | with one selection per user, the selection the scan finds is the only one the user holds |
| StoreLemmas.CancelCampSelectionOutcome | src/lib/supabase.js:237-265 | cancel fails with "No camp selection found" exactly when the user holds no selection, changing nothing; otherwise it removes that user's selection, gives exactly one bed back to the camp the selection names, and changes nothing else |
| StoreLemmas.ReservedAfterRemove | src/lib/supabase.js:261-262 | removing a selection lowers the reservation count of its camp by one and of no other camp |
| StoreLemmas.CancelCampSelectionKeepsSeats | src/lib/supabase.js:254-262 | every camp's free plus reserved beds are unchanged by a cancel, with no cap at the original bed count |
| StoreLemmas.ReturnBedKeepsBeds | src/lib/supabase.js:254-262 | giving a bed back keeps the bed accounting consistent |
| StoreLemmas.CancelCampSelectionPreserves | src/lib/supabase.js:237-265 | cancel keeps the store well formed |
| StoreLemmas.BedsNonNegative | src/lib/supabase.js:212-217 | a camp whose free plus reserved beds are non-negative never has a negative bed count |
| StoreLemmas.DefaultCampBedsInRange | src/lib/supabase.js:212-262 | a default camp always has between zero and its original number of beds free |
| StoreLemmas.SelectThenCancel | src/lib/supabase.js:199-265 | a successful select followed by a cancel by the same user restores the whole store |
| StoreLemmas.SelectThenLookup | src/lib/supabase.js:199-285 | after a successful select the lookup returns that selection joined with its camp, which has one bed fewer |
| StoreLemmas.SelectTwiceFails | src/lib/supabase.js:199-205 | a second select without a cancel fails with "You already have a camp selected" and takes no bed |
| StoreLemmas.CancelThenLookup | src/lib/supabase.js:237-285 | after a successful cancel the lookup reports "no rows" |
| StoreLemmas.CreateVolunteerAssignmentPreserves | src/lib/supabase.js:287-319 | an assignment is stored as given, changes no camp, and is listed among that volunteer's assignments |

## Left out

- Id generation: `generateId` draws random characters. The model chooses
  any unused id that starts with `id_`. A random id that collides with an
  existing key, which would make `Map.set` overwrite a record, is not
  modelled.
- Timestamps: `new Date().toISOString()` values are an opaque `now`
  parameter.
- Configuration: the `import.meta.env` reads are never used and are left out.
- Asynchrony: no method awaits anything, so each runs to completion, and the
  `async`/Promise wrapping is dropped. Thrown errors and returned errors both
  become `Err` values.
- The `subscriptions` object only logs to the console and is left out.
- The `auth`/`db` export objects only forward calls and are left out.
- Order: JavaScript `Map`s iterate in insertion order. Here the tables are
  unordered maps and the scans take the keys in any order. For the scans the
  order changes no result, because emails are unique and each user holds at
  most one selection, both proved invariants.
- Result order: `getCamps` and `getVolunteerAssignments` return arrays in
  insertion order (seeded camps first, then camps in order of creation). The
  model returns maps keyed by id, so that array order is lost.
- Aliasing: the source hands out its stored objects (default camps from
  `getCamps`, the camp in `getUserCampSelection`, the stored selection from
  `selectCamp`). A caller mutating them would change the store. The model
  works on values, so it does not capture this.
- `createCamp` input: only the named camp fields are modelled, as typed
  values. Extra keys of `campData` are not modelled. That includes an `id`,
  which the object spread would let override the stored record's `id` field.
  Non-numeric `beds` are not modelled either.
- Fractional bed counts: JavaScript numbers are doubles, while `beds` and
  `originalBeds` are integers here. A camp created with, say, `beds: 0.5`
  passes the `beds <= 0` check, drops to `-0.5`, and further reservations
  drive it lower. For such camps `BedsWellFormed` is false in the source,
  and the model excludes them.
- Profile fields: missing optional fields become `""` as with `|| ''`. Other
  falsy values of the JavaScript input are not distinguished.
- Store.GetCurrentUser: states its property only for a well-formed store,
  because the function itself reads any state.
