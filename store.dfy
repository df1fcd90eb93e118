/**
 The mock backend's tables as one value, the consistency conditions the
 operations keep, and each operation as a function from the tables before
 the call to what it returns and the tables after it.  The class in
 client.dfy updates its fields in place and is proved to agree with these
 functions; the lemmas in store_lemmas.dfy state what they guarantee.
 */
module Store {
  import opened Records

  /** The four tables of the mock plus its signed-in session. */
  datatype State = State(
    users: map<Id, UserRecord>,
    camps: map<Id, Camp>,
    campSelections: map<Id, Selection>,
    volunteerAssignments: map<Id, Assignment>,
    currentUser: Option<UserRecord>)

  /** What one operation returns, and the tables it leaves behind. */
  datatype Step<+T> = Step(result: Result<T>, state: State)

  function Lookup<K, V>(m: map<K, V>, k: K): (r: Option<V>)
    ensures r.Some? <==> k in m
    ensures r.Some? ==> r.value == m[k]
  {
    if k in m then Some(m[k]) else None
  }

  // ---------------------------------------------------------------------
  // Seed data
  // ---------------------------------------------------------------------

  const DefaultCampIds: set<Id> := {"camp-1", "camp-2", "camp-3"}

  /** The three camps every store starts with, stamped with the creation time. */
  function DefaultCamps(now: Timestamp): seq<Camp> {
    [ Camp("camp-1", "Community Hall", 50, 50,
           ["Food", "Water", "Medical Aid", "Blankets"],
           "+1-555-0101", "Yes", Default, now, None),
      Camp("camp-2", "Government High School", 75, 75,
           ["Food", "Water", "Clothing", "Basic Medical"],
           "+1-555-0102", "Nearby", Default, now, None),
      Camp("camp-3", "Sports Complex", 100, 100,
           ["Food", "Water", "Medical Aid", "Blankets", "Clothing"],
           "+1-555-0103", "Yes", Default, now, None) ]
  }

  /** The camps table after storing each of `cs` under its id, in order. */
  function Seeded(cs: seq<Camp>): map<Id, Camp> {
    if cs == [] then map[]
    else Seeded(cs[..|cs| - 1])[cs[|cs| - 1].id := cs[|cs| - 1]]
  }

  function Initial(now: Timestamp): State {
    State(map[], Seeded(DefaultCamps(now)), map[], map[], None)
  }

  // ---------------------------------------------------------------------
  // Derived quantities
  // ---------------------------------------------------------------------

  /** The keys of the selections that hold a bed in camp `c`. */
  function Holders(sels: map<Id, Selection>, c: Id): set<Id> {
    set k | k in sels && sels[k].campId == c
  }

  /** The number of beds of camp `c` currently reserved. */
  function Reserved(sels: map<Id, Selection>, c: Id): nat {
    |Holders(sels, c)|
  }

  /** Free beds plus reserved beds: the quantity reservations move but never change. */
  function Seats(s: State, c: Id): int
    requires c in s.camps
  {
    s.camps[c].beds + Reserved(s.campSelections, c)
  }

  predicate HasSelection(sels: map<Id, Selection>, userId: Id) {
    exists k :: k in sels && sels[k].userId == userId
  }

  /** The key of the user's selection (unique in a well-formed store). */
  ghost function SelectionKeyOf(sels: map<Id, Selection>, userId: Id): (k: Id)
    requires HasSelection(sels, userId)
    ensures k in sels && sels[k].userId == userId
  {
    var k :| k in sels && sels[k].userId == userId; k
  }

  predicate EmailTaken(users: map<Id, UserRecord>, email: string) {
    exists k :: k in users && users[k].profile.email == email
  }

  /** The id of the account registered under `email` (unique in a well-formed store). */
  ghost function AccountWithEmail(users: map<Id, UserRecord>, email: string): (k: Id)
    requires EmailTaken(users, email)
    ensures k in users && users[k].profile.email == email
  {
    var k :| k in users && users[k].profile.email == email; k
  }

  // ---------------------------------------------------------------------
  // Consistency of the tables
  // ---------------------------------------------------------------------

  ghost predicate UsersWellFormed(users: map<Id, UserRecord>) {
    && (forall k :: k in users ==>
          users[k].user.id == k && users[k].profile.id == k &&
          users[k].profile.email == users[k].user.email)
    && (forall k, k' ::
          k in users && k' in users && users[k].profile.email == users[k'].profile.email ==> k == k')
  }

  /** The three seeded camps are present and of default type. */
  predicate DefaultCampsPresent(camps: map<Id, Camp>) {
    && "camp-1" in camps && camps["camp-1"].campType == Default
    && "camp-2" in camps && camps["camp-2"].campType == Default
    && "camp-3" in camps && camps["camp-3"].campType == Default
  }

  /** Camps are stored under their own id, and exactly the default ones lack a creator. */
  ghost predicate CampsWellFormed(camps: map<Id, Camp>) {
    && DefaultCampsPresent(camps)
    && (forall k :: k in camps ==>
          camps[k].id == k && (camps[k].campType == Default <==> camps[k].addedByUserId.None?))
  }

  /** At most one selection per user. */
  ghost predicate OnePerUser(sels: map<Id, Selection>) {
    forall k, k' :: k in sels && k' in sels && sels[k].userId == sels[k'].userId ==> k == k'
  }

  ghost predicate SelectionsWellFormed(camps: map<Id, Camp>, sels: map<Id, Selection>) {
    && (forall k :: k in sels ==> sels[k].id == k && sels[k].campId in camps)
    && OnePerUser(sels)
  }

  /**
   A camp holding reservations has no negative bed count, and a default
   camp's free and reserved beds add up to its original capacity.
   */
  ghost predicate BedsWellFormed(camps: map<Id, Camp>, sels: map<Id, Selection>) {
    && (forall c {:trigger Reserved(sels, c)} :: c in camps && Reserved(sels, c) > 0 ==> camps[c].beds >= 0)
    && (forall c {:trigger Reserved(sels, c)} :: c in camps && camps[c].campType == Default ==>
          camps[c].originalBeds >= 0 &&
          camps[c].beds + Reserved(sels, c) == camps[c].originalBeds)
  }

  ghost predicate AssignmentsWellFormed(assignments: map<Id, Assignment>) {
    forall k :: k in assignments ==> assignments[k].id == k
  }

  ghost predicate SessionWellFormed(users: map<Id, UserRecord>, current: Option<UserRecord>) {
    current.Some? ==> current.value.user.id in users && users[current.value.user.id] == current.value
  }

  ghost predicate WellFormed(s: State) {
    && UsersWellFormed(s.users)
    && CampsWellFormed(s.camps)
    && SelectionsWellFormed(s.camps, s.campSelections)
    && BedsWellFormed(s.camps, s.campSelections)
    && AssignmentsWellFormed(s.volunteerAssignments)
    && SessionWellFormed(s.users, s.currentUser)
  }

  // ---------------------------------------------------------------------
  // Operations that change the tables
  // ---------------------------------------------------------------------

  /** The stored record of a new account; missing optional fields become "". */
  function NewUserRecord(id: Id, email: string, data: UserData, now: Timestamp): UserRecord {
    UserRecord(
      User(id, email, now),
      Profile(id, email, data.name, data.role, data.contact,
              data.address.GetOr(""), data.needs.GetOr(""),
              data.skills.GetOr(""), data.availability.GetOr(""),
              data.age, now))
  }

  /** `signUp`: refuse a taken email, else store the account and sign it in. */
  function SignUp(s: State, email: string, data: UserData, newId: Id, now: Timestamp): Step<UserRecord> {
    if EmailTaken(s.users, email) then Step(Err(UserAlreadyExists), s)
    else
      var rec := NewUserRecord(newId, email, data, now);
      Step(Ok(rec), s.(users := s.users[newId := rec], currentUser := Some(rec)))
  }

  /** `signIn`: sign in the account with this email; the password plays no part. */
  ghost function SignIn(s: State, email: string): Step<UserRecord> {
    if EmailTaken(s.users, email) then
      var k := AccountWithEmail(s.users, email);
      Step(Ok(s.users[k]), s.(currentUser := Some(s.users[k])))
    else Step(Err(InvalidCredentials), s)
  }

  /** `signOut`: forget the session. */
  function SignOut(s: State): Step<()> {
    Step(Ok(()), s.(currentUser := None))
  }

  /** `createCamp`: always a volunteer-added camp recording its creator. */
  function NewCamp(id: Id, data: CampData, userId: Id, now: Timestamp): Camp {
    Camp(id, data.name, data.beds, data.originalBeds, data.resources,
         data.contact, data.ambulance, VolunteerAdded, now, Some(userId))
  }

  function CreateCamp(s: State, data: CampData, userId: Id, newId: Id, now: Timestamp): Step<CampView> {
    var camp := NewCamp(newId, data, userId, now);
    var creator := if userId in s.users then Some(s.users[userId].profile) else None;
    Step(Ok(CampView(camp, creator)), s.(camps := s.camps[newId := camp]))
  }

  /** The selections that do not name camp `c`. */
  function WithoutCamp(sels: map<Id, Selection>, c: Id): map<Id, Selection> {
    map k | k in sels && sels[k].campId != c :: sels[k]
  }

  /** `deleteCamp`: refuse unknown and default camps, else drop the camp and its selections. */
  function DeleteCamp(s: State, campId: Id): Step<()> {
    if campId !in s.camps then Step(Err(CampNotFound), s)
    else if s.camps[campId].campType == Default then Step(Err(DefaultCampProtected), s)
    else Step(Ok(()), s.(camps := s.camps - {campId},
                         campSelections := WithoutCamp(s.campSelections, campId)))
  }

  /**
   `selectCamp`: the user's existing selection is checked first, then the
   camp's existence, then its free beds; success takes one bed and records
   the selection under `newId`.
   */
  function SelectCamp(s: State, userId: Id, campId: Id, newId: Id, now: Timestamp): Step<Selection> {
    if HasSelection(s.campSelections, userId) then Step(Err(AlreadySelected), s)
    else if campId !in s.camps then Step(Err(CampNotFound), s)
    else if s.camps[campId].beds <= 0 then Step(Err(NoBedsAvailable), s)
    else
      var camp := s.camps[campId];
      var sel := Selection(newId, userId, campId, now);
      Step(Ok(sel), s.(camps := s.camps[campId := camp.(beds := camp.beds - 1)],
                       campSelections := s.campSelections[newId := sel]))
  }

  /**
   `cancelCampSelection`: drop the user's selection and give its bed back to
   the camp it names, if that camp still exists; no cap is applied.
   */
  ghost function CancelCampSelection(s: State, userId: Id): Step<()> {
    if !HasSelection(s.campSelections, userId) then Step(Err(NoSelectionFound), s)
    else
      var k := SelectionKeyOf(s.campSelections, userId);
      var c := s.campSelections[k].campId;
      var camps' := if c in s.camps then s.camps[c := s.camps[c].(beds := s.camps[c].beds + 1)]
                    else s.camps;
      Step(Ok(()), s.(camps := camps', campSelections := s.campSelections - {k}))
  }

  /** `createVolunteerAssignment`: an unchecked insert; beds are untouched. */
  function CreateVolunteerAssignment(s: State, userId: Id, campId: Id, newId: Id, now: Timestamp): Step<Assignment> {
    var a := Assignment(newId, userId, campId, now);
    Step(Ok(a), s.(volunteerAssignments := s.volunteerAssignments[newId := a]))
  }

  // ---------------------------------------------------------------------
  // Read-only operations
  // ---------------------------------------------------------------------

  /** `getCurrentUser`: the signed-in account, which is always a stored one. */
  function GetCurrentUser(s: State): (r: Option<UserRecord>)
    ensures WellFormed(s) && r.Some? ==> r.value.user.id in s.users && s.users[r.value.user.id] == r.value
  {
    s.currentUser
  }

  /** The creator's profile is attached when the camp names a (non-empty) creator id. */
  function WithCreator(users: map<Id, UserRecord>, camp: Camp): CampView {
    if camp.addedByUserId.Some? && camp.addedByUserId.value != "" then
      CampView(camp, if camp.addedByUserId.value in users
                     then Some(users[camp.addedByUserId.value].profile) else None)
    else CampView(camp, None)
  }

  /** `getCamps`: every camp, with its creator's profile when it has one. */
  function GetCamps(s: State): (r: map<Id, CampView>)
    ensures r.Keys == s.camps.Keys
    ensures forall k :: k in r ==> r[k].camp == s.camps[k]
    ensures forall k :: k in r && r[k].addedByUser.Some? ==>
              s.camps[k].addedByUserId.Some? &&
              s.camps[k].addedByUserId.value in s.users &&
              r[k].addedByUser.value == s.users[s.camps[k].addedByUserId.value].profile
    ensures forall k :: k in r && s.camps[k].addedByUserId.Some? && s.camps[k].addedByUserId.value != "" &&
                        s.camps[k].addedByUserId.value in s.users ==>
              r[k].addedByUser == Some(s.users[s.camps[k].addedByUserId.value].profile)
    ensures WellFormed(s) ==>
              forall k :: k in r && s.camps[k].campType == Default ==> r[k].addedByUser.None?
  {
    map k | k in s.camps :: WithCreator(s.users, s.camps[k])
  }

  /**
   `getUserCampSelection`: the user's selection joined with its camp, or the
   returned (not thrown) "no rows" error.
   */
  ghost function GetUserCampSelection(s: State, userId: Id): (r: Result<SelectionWithCamp>)
    ensures r.Err? <==> !HasSelection(s.campSelections, userId)
    ensures r.Err? ==> r.error == NoRows
    ensures r.Ok? ==>
              r.value.selection in s.campSelections.Values &&
              r.value.selection.userId == userId &&
              r.value.camp == Lookup(s.camps, r.value.selection.campId)
  {
    if HasSelection(s.campSelections, userId) then
      var k := SelectionKeyOf(s.campSelections, userId);
      Ok(SelectionWithCamp(s.campSelections[k], Lookup(s.camps, s.campSelections[k].campId)))
    else Err(NoRows)
  }

  /** `getVolunteerAssignments`: this volunteer's assignments, each with its camp. */
  function GetVolunteerAssignments(s: State, userId: Id): (r: map<Id, AssignmentWithCamp>)
    ensures forall k :: k in r <==> k in s.volunteerAssignments && s.volunteerAssignments[k].userId == userId
    ensures forall k :: k in r ==>
              r[k].assignment == s.volunteerAssignments[k] &&
              r[k].camp == Lookup(s.camps, s.volunteerAssignments[k].campId)
  {
    map k | k in s.volunteerAssignments && s.volunteerAssignments[k].userId == userId ::
      AssignmentWithCamp(s.volunteerAssignments[k], Lookup(s.camps, s.volunteerAssignments[k].campId))
  }
}
