/**
 `MockSupabaseClient`: the in-memory backend as an object whose four tables
 and session are fields updated in place.  Each operation scans and updates
 the tables step by step, as the mock does, and is proved to leave exactly
 the tables the corresponding function of module Store describes, keeping
 the store well formed.
 */
module MockClient {
  import opened Records
  import opened Store
  import opened StoreLemmas

  /** The selections of `sels` left once those naming `campId` and not in `pending` are dropped. */
  ghost function PrunedExcept(sels: map<Id, Selection>, pending: set<Id>, campId: Id): map<Id, Selection> {
    map k | k in sels && (k in pending || sels[k].campId != campId) :: sels[k]
  }

  /** Passing over key `k` of the scan drops it exactly when its selection names `campId`. */
  lemma PrunedStep(sels: map<Id, Selection>, pending: set<Id>, campId: Id, k: Id)
    requires k in pending && pending <= sels.Keys
    ensures PrunedExcept(sels, pending - {k}, campId)
         == if sels[k].campId == campId then PrunedExcept(sels, pending, campId) - {k}
            else PrunedExcept(sels, pending, campId)
  {
  }

  class MockSupabaseClient {
    var users: map<Id, UserRecord>
    var camps: map<Id, Camp>
    var campSelections: map<Id, Selection>
    var volunteerAssignments: map<Id, Assignment>
    var currentUser: Option<UserRecord>

    /** The tables and session as one value. */
    function Snapshot(): State
      reads this
    {
      State(users, camps, campSelections, volunteerAssignments, currentUser)
    }

    ghost predicate Valid()
      reads this
    {
      WellFormed(Snapshot())
    }

    /** A fresh store holds only the three default camps. */
    constructor (now: Timestamp)
      ensures Valid() && Snapshot() == Initial(now)
    {
      users := map[];
      camps := map[];
      campSelections := map[];
      volunteerAssignments := map[];
      currentUser := None;
      new;
      InitializeDefaultCamps(now);
      assert camps == Seeded(DefaultCamps(now));
      InitialWellFormed(now);
    }

    /** Stores each default camp under its id, in order. */
    method InitializeDefaultCamps(now: Timestamp)
      modifies this`camps
      ensures camps == old(camps) + Seeded(DefaultCamps(now))
    {
      var defaults := DefaultCamps(now);
      for i := 0 to |defaults|
        invariant camps == old(camps) + Seeded(defaults[..i])
      {
        assert defaults[..i + 1][..i] == defaults[..i];
        camps := camps[defaults[i].id := defaults[i]];
      }
      assert defaults[..|defaults|] == defaults;
    }

    /** Scans the accounts for one registered under `email`. */
    method FindUserByEmail(email: string) returns (found: Option<Id>)
      ensures found.Some? ==> found.value in users && users[found.value].profile.email == email
      ensures found.None? <==> !EmailTaken(users, email)
    {
      var pending := users.Keys;
      while pending != {}
        invariant pending <= users.Keys
        invariant forall k :: k in users && k !in pending ==> users[k].profile.email != email
        decreases pending
      {
        var k :| k in pending;
        if users[k].profile.email == email {
          return Some(k);
        }
        pending := pending - {k};
      }
      return None;
    }

    /** Scans the selections for one held by `userId`. */
    method FindSelection(userId: Id) returns (found: Option<Id>)
      ensures found.Some? ==> found.value in campSelections && campSelections[found.value].userId == userId
      ensures found.None? <==> !HasSelection(campSelections, userId)
    {
      var pending := campSelections.Keys;
      while pending != {}
        invariant pending <= campSelections.Keys
        invariant forall k :: k in campSelections && k !in pending ==> campSelections[k].userId != userId
        decreases pending
      {
        var k :| k in pending;
        if campSelections[k].userId == userId {
          return Some(k);
        }
        pending := pending - {k};
      }
      return None;
    }

    /** `signUp`; `newId` is the id the account receives when the email is free. */
    method SignUp(email: string, password: string, userData: UserData, now: Timestamp)
      returns (r: Result<UserRecord>, ghost newId: Id)
      requires Valid()
      modifies this`users, this`currentUser
      ensures Valid()
      ensures IsGeneratedId(newId) && newId !in old(users)
      ensures Step(r, Snapshot()) == Store.SignUp(old(Snapshot()), email, userData, newId, now)
    {
      FreshIdExists(users.Keys);
      var userId :| IsGeneratedId(userId) && userId !in users;
      newId := userId;
      var existing := FindUserByEmail(email);
      if existing.Some? {
        return Err(UserAlreadyExists), newId;
      }
      SignUpPreserves(Snapshot(), email, userData, userId, now);
      var record := NewUserRecord(userId, email, userData, now);
      users := users[userId := record];
      currentUser := Some(record);
      r := Ok(record);
    }

    /** `signIn`: the password is accepted but never compared with anything. */
    method SignIn(email: string, password: string) returns (r: Result<UserRecord>)
      requires Valid()
      modifies this`currentUser
      ensures Valid()
      ensures Step(r, Snapshot()) == Store.SignIn(old(Snapshot()), email)
    {
      SignInPreserves(Snapshot(), email);
      var found := FindUserByEmail(email);
      if found.None? {
        return Err(InvalidCredentials);
      }
      assert found.value == AccountWithEmail(users, email);
      currentUser := Some(users[found.value]);
      r := Ok(users[found.value]);
    }

    method SignOut()
      requires Valid()
      modifies this`currentUser
      ensures Valid()
      ensures Snapshot() == Store.SignOut(old(Snapshot())).state
    {
      currentUser := None;
    }

    /** `createCamp`; `newId` is the id the new camp is stored under. */
    method CreateCamp(campData: CampData, userId: Id, now: Timestamp)
      returns (view: CampView, ghost newId: Id)
      requires Valid()
      modifies this`camps
      ensures Valid()
      ensures IsGeneratedId(newId) && newId !in old(camps)
      ensures Step(Ok(view), Snapshot()) == Store.CreateCamp(old(Snapshot()), campData, userId, newId, now)
    {
      FreshIdExists(camps.Keys);
      var campId :| IsGeneratedId(campId) && campId !in camps;
      newId := campId;
      CreateCampPreserves(Snapshot(), campData, userId, campId, now);
      var camp := NewCamp(campId, campData, userId, now);
      camps := camps[campId := camp];
      var creator := if userId in users then Some(users[userId].profile) else None;
      view := CampView(camp, creator);
    }

    /** `deleteCamp`: the camp's selections are removed before the camp itself. */
    method DeleteCamp(campId: Id) returns (r: Result<()>)
      requires Valid()
      modifies this`camps, this`campSelections
      ensures Valid()
      ensures Step(r, Snapshot()) == Store.DeleteCamp(old(Snapshot()), campId)
    {
      if campId !in camps {
        return Err(CampNotFound);
      }
      if camps[campId].campType == Default {
        return Err(DefaultCampProtected);
      }
      DeleteCampPreserves(Snapshot(), campId);
      RemoveSelectionsFor(campId);
      camps := camps - {campId};
      r := Ok(());
    }

    /** The scan of `deleteCamp` that deletes, as it goes, every selection naming `campId`. */
    method RemoveSelectionsFor(campId: Id)
      modifies this`campSelections
      ensures campSelections == WithoutCamp(old(campSelections), campId)
    {
      ghost var before := campSelections;
      var pending := campSelections.Keys;
      while pending != {}
        invariant pending <= before.Keys
        invariant campSelections == PrunedExcept(before, pending, campId)
        decreases pending
      {
        var k :| k in pending;
        PrunedStep(before, pending, campId, k);
        if campSelections[k].campId == campId {
          campSelections := campSelections - {k};
        }
        pending := pending - {k};
      }
      assert PrunedExcept(before, {}, campId) == WithoutCamp(before, campId);
    }

    /** `selectCamp`; `newId` is the id a successful selection is stored under. */
    method SelectCamp(userId: Id, campId: Id, now: Timestamp)
      returns (r: Result<Selection>, ghost newId: Id)
      requires Valid()
      modifies this`camps, this`campSelections
      ensures Valid()
      ensures IsGeneratedId(newId) && newId !in old(campSelections)
      ensures Step(r, Snapshot()) == Store.SelectCamp(old(Snapshot()), userId, campId, newId, now)
    {
      FreshIdExists(campSelections.Keys);
      var selectionId :| IsGeneratedId(selectionId) && selectionId !in campSelections;
      newId := selectionId;
      ghost var before := Snapshot();
      SelectCampFailures(before, userId, campId, newId, now);
      var existing := FindSelection(userId);
      if existing.Some? {
        return Err(AlreadySelected), newId;
      }
      if campId !in camps {
        return Err(CampNotFound), newId;
      }
      var camp := camps[campId];
      if camp.beds <= 0 {
        return Err(NoBedsAvailable), newId;
      }
      ghost var after := Store.SelectCamp(before, userId, campId, selectionId, now);
      SelectCampSuccess(before, userId, campId, selectionId, now);
      SelectCampPreserves(before, userId, campId, selectionId, now);
      camp := camp.(beds := camp.beds - 1);
      camps := camps[campId := camp];
      var selection := Selection(selectionId, userId, campId, now);
      campSelections := campSelections[selectionId := selection];
      r := Ok(selection);
      assert Snapshot() == after.state;
    }

    /** `cancelCampSelection`: the bed goes back only if the camp is still there. */
    method CancelCampSelection(userId: Id) returns (r: Result<()>)
      requires Valid()
      modifies this`camps, this`campSelections
      ensures Valid()
      ensures Step(r, Snapshot()) == Store.CancelCampSelection(old(Snapshot()), userId)
    {
      ghost var before := Snapshot();
      var found := FindSelection(userId);
      if found.None? {
        return Err(NoSelectionFound);
      }
      var selectionId := found.value;
      ghost var after := Store.CancelCampSelection(before, userId);
      assert after.state.campSelections == campSelections - {selectionId} by {
        SelectionKeyUnique(campSelections, userId, selectionId);
      }
      CancelCampSelectionPreserves(before, userId);
      var selection := campSelections[selectionId];
      if selection.campId in camps {
        var camp := camps[selection.campId];
        camps := camps[selection.campId := camp.(beds := camp.beds + 1)];
      }
      campSelections := campSelections - {selectionId};
      r := Ok(());
      assert Snapshot() == after.state by {
        assert camps == after.state.camps;
      }
    }

    /** `getUserCampSelection`: the same scan, reporting "no rows" instead of throwing. */
    method GetUserCampSelection(userId: Id) returns (r: Result<SelectionWithCamp>)
      requires Valid()
      ensures r == Store.GetUserCampSelection(Snapshot(), userId)
      ensures r.Ok? ==> r.value.selection.userId == userId && r.value.camp.Some? &&
                        r.value.camp.value.id == r.value.selection.campId
    {
      var found := FindSelection(userId);
      if found.None? {
        return Err(NoRows);
      }
      SelectionKeyUnique(campSelections, userId, found.value);
      var selection := campSelections[found.value];
      r := Ok(SelectionWithCamp(selection, Lookup(camps, selection.campId)));
    }

    /** `createVolunteerAssignment`; `newId` is the id the assignment is stored under. */
    method CreateVolunteerAssignment(userId: Id, campId: Id, now: Timestamp)
      returns (assignment: Assignment, ghost newId: Id)
      requires Valid()
      modifies this`volunteerAssignments
      ensures Valid()
      ensures IsGeneratedId(newId) && newId !in old(volunteerAssignments)
      ensures Step(Ok(assignment), Snapshot())
           == Store.CreateVolunteerAssignment(old(Snapshot()), userId, campId, newId, now)
    {
      FreshIdExists(volunteerAssignments.Keys);
      var assignmentId :| IsGeneratedId(assignmentId) && assignmentId !in volunteerAssignments;
      newId := assignmentId;
      CreateVolunteerAssignmentPreserves(Snapshot(), userId, campId, assignmentId, now);
      assignment := Assignment(assignmentId, userId, campId, now);
      volunteerAssignments := volunteerAssignments[assignmentId := assignment];
    }
  }
}
