/**
 What the operations of the mock backend guarantee: every operation keeps
 the tables consistent (at most one selection per user, beds of a camp with
 reservations never negative, default camps present and accounted for),
 reservations only move beds between "free" and "reserved", and a
 cancellation undoes a selection exactly.
 */
module StoreLemmas {
  import opened Records
  import opened Store

  // ---------------------------------------------------------------------
  // How the reserved count of a camp reacts to the three table updates
  // ---------------------------------------------------------------------

  lemma ReservedAfterInsert(sels: map<Id, Selection>, k: Id, sel: Selection, c: Id)
    requires k !in sels
    ensures Reserved(sels[k := sel], c) == Reserved(sels, c) + (if sel.campId == c then 1 else 0)
  {
    var before, after := Holders(sels, c), Holders(sels[k := sel], c);
    if sel.campId == c {
      assert after == before + {k};
    } else {
      assert after == before;
    }
  }

  lemma ReservedAfterRemove(sels: map<Id, Selection>, k: Id, c: Id)
    requires k in sels
    ensures Reserved(sels - {k}, c) == Reserved(sels, c) - (if sels[k].campId == c then 1 else 0)
  {
    var before, after := Holders(sels, c), Holders(sels - {k}, c);
    if sels[k].campId == c {
      assert after == before - {k};
    } else {
      assert after == before;
    }
  }

  lemma ReservedWithoutCamp(sels: map<Id, Selection>, d: Id, c: Id)
    ensures Reserved(WithoutCamp(sels, d), c) == if c == d then 0 else Reserved(sels, c)
  {
    if c == d {
      assert Holders(WithoutCamp(sels, d), c) == {};
    } else {
      assert Holders(WithoutCamp(sels, d), c) == Holders(sels, c);
    }
  }

  /** No selection names a camp that is not in the table. */
  lemma ReservedOfAbsentCamp(camps: map<Id, Camp>, sels: map<Id, Selection>, c: Id)
    requires SelectionsWellFormed(camps, sels) && c !in camps
    ensures Reserved(sels, c) == 0
  {
  }

  /** In a table with one selection per user, any selection of the user is the one chosen. */
  lemma SelectionKeyUnique(sels: map<Id, Selection>, userId: Id, k: Id)
    requires OnePerUser(sels) && k in sels && sels[k].userId == userId
    ensures HasSelection(sels, userId) && SelectionKeyOf(sels, userId) == k
  {
  }

  // ---------------------------------------------------------------------
  // Fresh ids
  // ---------------------------------------------------------------------

  ghost function MaxLength(ids: set<Id>): (n: nat)
    ensures forall id :: id in ids ==> |id| <= n
  {
    if ids == {} then 0
    else
      var id :| id in ids;
      var rest := MaxLength(ids - {id});
      if |id| > rest then |id| else rest
  }

  /** However many ids are taken, an id of the generated shape is still free. */
  lemma {:induction false} FreshIdExists(taken: set<Id>)
    ensures exists id :: IsGeneratedId(id) && id !in taken
  {
    var id := "id_" + seq(MaxLength(taken), _ => 'x');
    assert id[..3] == "id_";
    assert IsGeneratedId(id) && id !in taken;
  }

  // ---------------------------------------------------------------------
  // The seeded store
  // ---------------------------------------------------------------------

  lemma InitialWellFormed(now: Timestamp)
    ensures WellFormed(Initial(now))
    ensures Initial(now).camps.Keys == DefaultCampIds
    ensures forall c :: c in Initial(now).camps ==> Initial(now).camps[c].beds == Initial(now).camps[c].originalBeds
    ensures Initial(now).camps["camp-1"].beds == 50
  {
    var cs := DefaultCamps(now);
    assert cs[..3] == cs;
    assert cs[..2][..1] == cs[..1];
    assert cs[..3][..2] == cs[..2];
    var camps := Initial(now).camps;
    assert Seeded(cs[..1]) == map["camp-1" := cs[0]] by {
      assert cs[..1][..0] == [];
    }
    assert Seeded(cs[..2]) == map["camp-1" := cs[0], "camp-2" := cs[1]];
    assert camps == map["camp-1" := cs[0], "camp-2" := cs[1], "camp-3" := cs[2]];
    forall c | c in camps
      ensures Reserved(map[], c) == 0
    {
      assert Holders(map[], c) == {};
    }
  }

  // ---------------------------------------------------------------------
  // Accounts
  // ---------------------------------------------------------------------

  /**
   Signing up fails exactly when the email is taken and then changes nothing;
   otherwise the new account is stored, signed in, and emails stay unique.
   */
  lemma SignUpPreserves(s: State, email: string, data: UserData, newId: Id, now: Timestamp)
    requires WellFormed(s) && newId !in s.users
    ensures var st := SignUp(s, email, data, newId, now);
      && WellFormed(st.state)
      && (st.result.Err? <==> EmailTaken(s.users, email))
      && (st.result.Err? ==> st.result.error == UserAlreadyExists && st.state == s)
      && (st.result.Ok? ==>
            && st.state.users == s.users[newId := st.result.value]
            && st.state.currentUser == Some(st.result.value)
            && st.result.value.profile.email == email)
  {
  }

  /** Signing in succeeds exactly for a stored email and signs in that very account. */
  lemma SignInPreserves(s: State, email: string)
    requires WellFormed(s)
    ensures var st := SignIn(s, email);
      && WellFormed(st.state)
      && (st.result.Ok? <==> EmailTaken(s.users, email))
      && (st.result.Err? ==> st.result.error == InvalidCredentials && st.state == s)
      && (st.result.Ok? ==>
            && st.result.value in s.users.Values
            && st.result.value.profile.email == email
            && st.state == s.(currentUser := Some(st.result.value)))
  {
  }

  lemma SignOutPreserves(s: State)
    requires WellFormed(s)
    ensures WellFormed(SignOut(s).state) && SignOut(s).state.currentUser.None?
  {
  }

  // ---------------------------------------------------------------------
  // Camps
  // ---------------------------------------------------------------------

  /**
   A created camp is always volunteer-added and records its creator, whatever
   the caller supplied; no other camp and no selection is touched.
   */
  lemma CreateCampPreserves(s: State, data: CampData, userId: Id, newId: Id, now: Timestamp)
    requires WellFormed(s) && newId !in s.camps
    ensures var st := CreateCamp(s, data, userId, newId, now);
      && WellFormed(st.state)
      && st.result.Ok?
      && st.result.value.camp.campType == VolunteerAdded
      && st.result.value.camp.addedByUserId == Some(userId)
      && st.state.camps == s.camps[newId := st.result.value.camp]
      && st.state.campSelections == s.campSelections
      && Seats(st.state, newId) == data.beds
  {
    ReservedOfAbsentCamp(s.camps, s.campSelections, newId);
    var s' := CreateCamp(s, data, userId, newId, now).state;
    assert CampsWellFormed(s'.camps);
    assert SelectionsWellFormed(s'.camps, s'.campSelections);
    forall c | c in s'.camps
      ensures Reserved(s'.campSelections, c) == Reserved(s.campSelections, c)
    {
    }
  }

  /**
   Deleting fails for an unknown camp and for a default camp, leaving the
   store as it was; otherwise exactly that camp and the selections naming it
   go, and every remaining camp keeps its record and its free plus reserved beds.
   */
  lemma DeleteCampOutcome(s: State, campId: Id)
    requires WellFormed(s)
    ensures var st := DeleteCamp(s, campId);
      && (campId !in s.camps ==> st == Step(Err(CampNotFound), s))
      && (campId in s.camps && s.camps[campId].campType == Default ==> st == Step(Err(DefaultCampProtected), s))
      && (campId in s.camps && s.camps[campId].campType != Default ==> st.result.Ok?)
      && (campId in DefaultCampIds ==> st == Step(Err(DefaultCampProtected), s))
      && (st.result.Err? ==> st.state == s)
      && (st.result.Ok? ==>
            && st.state.camps.Keys == s.camps.Keys - {campId}
            && (forall k :: k in st.state.campSelections <==>
                  k in s.campSelections && s.campSelections[k].campId != campId)
            && (forall k :: k in st.state.campSelections ==> st.state.campSelections[k] == s.campSelections[k])
            && (forall c :: c in st.state.camps ==>
                  st.state.camps[c] == s.camps[c] && Seats(st.state, c) == Seats(s, c))
            && st.state.users == s.users
            && st.state.volunteerAssignments == s.volunteerAssignments
            && st.state.currentUser == s.currentUser)
  {
    var st := DeleteCamp(s, campId);
    if st.result.Ok? {
      var s' := st.state;
      forall c | c in s'.camps
        ensures Reserved(s'.campSelections, c) == Reserved(s.campSelections, c)
      {
        ReservedWithoutCamp(s.campSelections, campId, c);
      }
    }
  }

  /** Dropping a non-default camp together with its selections keeps the bed accounting consistent. */
  lemma DropCampKeepsBeds(camps: map<Id, Camp>, sels: map<Id, Selection>, c: Id)
    requires BedsWellFormed(camps, sels)
    ensures BedsWellFormed(camps - {c}, WithoutCamp(sels, c))
  {
    forall d | d in camps - {c}
      ensures Reserved(WithoutCamp(sels, c), d) == Reserved(sels, d)
    {
      ReservedWithoutCamp(sels, c, d);
    }
  }

  /** `deleteCamp` keeps the store consistent; the default camps cannot go. */
  lemma DeleteCampPreserves(s: State, campId: Id)
    requires WellFormed(s)
    ensures WellFormed(DeleteCamp(s, campId).state)
  {
    var st := DeleteCamp(s, campId);
    if st.result.Ok? {
      DropCampKeepsBeds(s.camps, s.campSelections, campId);
    }
  }

  /** The three seeded camps survive every delete attempt. */
  lemma DefaultCampsRemain(s: State, campId: Id)
    requires WellFormed(s)
    ensures DefaultCampIds <= DeleteCamp(s, campId).state.camps.Keys
  {
  }

  // ---------------------------------------------------------------------
  // Reservations
  // ---------------------------------------------------------------------

  /**
   `selectCamp` checks, in this order: an existing selection of the user,
   the camp's existence, a free bed; each failure leaves the store as it was.
   */
  lemma SelectCampFailures(s: State, userId: Id, campId: Id, newId: Id, now: Timestamp)
    ensures var st := SelectCamp(s, userId, campId, newId, now);
      && (HasSelection(s.campSelections, userId) ==> st == Step(Err(AlreadySelected), s))
      && (!HasSelection(s.campSelections, userId) && campId !in s.camps ==>
            st == Step(Err(CampNotFound), s))
      && (!HasSelection(s.campSelections, userId) && campId in s.camps && s.camps[campId].beds <= 0 ==>
            st == Step(Err(NoBedsAvailable), s))
      && (st.result.Err? ==> st.state == s)
  {
  }

  /**
   A successful `selectCamp` takes exactly one bed of exactly that camp and
   adds exactly one selection, for this user and camp; nothing else changes.
   */
  lemma SelectCampSuccess(s: State, userId: Id, campId: Id, newId: Id, now: Timestamp)
    requires SelectCamp(s, userId, campId, newId, now).result.Ok?
    ensures var st := SelectCamp(s, userId, campId, newId, now);
      && !HasSelection(s.campSelections, userId)
      && campId in s.camps && s.camps[campId].beds > 0
      && st.result.value == Selection(newId, userId, campId, now)
      && st.state.campSelections == s.campSelections[newId := st.result.value]
      && st.state.camps == s.camps[campId := s.camps[campId].(beds := s.camps[campId].beds - 1)]
      && st.state.users == s.users
      && st.state.volunteerAssignments == s.volunteerAssignments
      && st.state.currentUser == s.currentUser
  {
  }

  /** Every camp's free plus reserved beds are the same after `selectCamp`. */
  lemma SelectCampKeepsSeats(s: State, userId: Id, campId: Id, newId: Id, now: Timestamp)
    requires newId !in s.campSelections
    ensures var s' := SelectCamp(s, userId, campId, newId, now).state;
      forall c :: c in s.camps ==> c in s'.camps && Seats(s', c) == Seats(s, c)
  {
    var st := SelectCamp(s, userId, campId, newId, now);
    if st.result.Ok? {
      forall c | c in s.camps
        ensures Reserved(st.state.campSelections, c) == Reserved(s.campSelections, c) + (if c == campId then 1 else 0)
      {
        ReservedAfterInsert(s.campSelections, newId, st.result.value, c);
      }
    }
  }

  /** Adding a selection for a user who holds none keeps one selection per user. */
  lemma InsertKeepsOnePerUser(sels: map<Id, Selection>, k: Id, sel: Selection)
    requires OnePerUser(sels) && k !in sels && !HasSelection(sels, sel.userId)
    ensures OnePerUser(sels[k := sel])
  {
  }

  /** Taking a free bed of camp `c` for a new selection keeps the bed accounting consistent. */
  lemma TakeBedKeepsBeds(camps: map<Id, Camp>, sels: map<Id, Selection>, c: Id, k: Id, sel: Selection)
    requires BedsWellFormed(camps, sels)
    requires c in camps && camps[c].beds > 0 && k !in sels && sel.campId == c
    ensures BedsWellFormed(camps[c := camps[c].(beds := camps[c].beds - 1)], sels[k := sel])
  {
    var camps', sels' := camps[c := camps[c].(beds := camps[c].beds - 1)], sels[k := sel];
    forall d | d in camps'
      ensures Reserved(sels', d) == Reserved(sels, d) + (if d == c then 1 else 0)
    {
      ReservedAfterInsert(sels, k, sel, d);
    }
  }

  /** `selectCamp` keeps the store consistent, in particular one selection per user. */
  lemma SelectCampPreserves(s: State, userId: Id, campId: Id, newId: Id, now: Timestamp)
    requires WellFormed(s) && newId !in s.campSelections
    ensures WellFormed(SelectCamp(s, userId, campId, newId, now).state)
  {
    var st := SelectCamp(s, userId, campId, newId, now);
    if st.result.Ok? {
      SelectCampSuccess(s, userId, campId, newId, now);
      InsertKeepsOnePerUser(s.campSelections, newId, st.result.value);
      TakeBedKeepsBeds(s.camps, s.campSelections, campId, newId, st.result.value);
    }
  }

  /**
   `cancelCampSelection` fails, changing nothing, exactly when the user holds
   no selection; otherwise it removes that user's selection and nothing else,
   and gives the bed back to the camp the selection names.
   */
  lemma CancelCampSelectionOutcome(s: State, userId: Id)
    requires WellFormed(s)
    ensures var st := CancelCampSelection(s, userId);
      && (st.result.Err? <==> !HasSelection(s.campSelections, userId))
      && (st.result.Err? ==> st == Step(Err(NoSelectionFound), s))
      && (st.result.Ok? ==>
            && HasSelection(s.campSelections, userId)
            && var c := s.campSelections[SelectionKeyOf(s.campSelections, userId)].campId;
            && c in s.camps
            && st.state.camps == s.camps[c := s.camps[c].(beds := s.camps[c].beds + 1)]
            && !HasSelection(st.state.campSelections, userId)
            && (forall k :: k in st.state.campSelections <==>
                  k in s.campSelections && s.campSelections[k].userId != userId)
            && (forall k :: k in st.state.campSelections ==> st.state.campSelections[k] == s.campSelections[k])
            && st.state.camps.Keys == s.camps.Keys
            && st.state.users == s.users
            && st.state.volunteerAssignments == s.volunteerAssignments
            && st.state.currentUser == s.currentUser)
  {
  }

  /** Every camp's free plus reserved beds are the same after `cancelCampSelection`. */
  lemma CancelCampSelectionKeepsSeats(s: State, userId: Id)
    ensures var s' := CancelCampSelection(s, userId).state;
      forall c :: c in s.camps ==> c in s'.camps && Seats(s', c) == Seats(s, c)
  {
    var st := CancelCampSelection(s, userId);
    if st.result.Ok? {
      var s' := st.state;
      var k := SelectionKeyOf(s.campSelections, userId);
      assert s'.campSelections == s.campSelections - {k};
      var c0 := s.campSelections[k].campId;
      forall c | c in s.camps
        ensures c in s'.camps && Seats(s', c) == Seats(s, c)
      {
        ReservedAfterRemove(s.campSelections, k, c);
      }
    }
  }

  /** Giving the bed of selection `k` back to its camp keeps the bed accounting consistent. */
  lemma ReturnBedKeepsBeds(camps: map<Id, Camp>, sels: map<Id, Selection>, k: Id)
    requires BedsWellFormed(camps, sels)
    requires k in sels && sels[k].campId in camps
    ensures var c := sels[k].campId;
      BedsWellFormed(camps[c := camps[c].(beds := camps[c].beds + 1)], sels - {k})
  {
    var c := sels[k].campId;
    var camps', sels' := camps[c := camps[c].(beds := camps[c].beds + 1)], sels - {k};
    forall d | d in camps'
      ensures Reserved(sels', d) == Reserved(sels, d) - (if d == c then 1 else 0)
    {
      ReservedAfterRemove(sels, k, d);
    }
  }

  /** `cancelCampSelection` keeps the store consistent. */
  lemma CancelCampSelectionPreserves(s: State, userId: Id)
    requires WellFormed(s)
    ensures WellFormed(CancelCampSelection(s, userId).state)
  {
    var st := CancelCampSelection(s, userId);
    if st.result.Ok? {
      var k := SelectionKeyOf(s.campSelections, userId);
      ReturnBedKeepsBeds(s.camps, s.campSelections, k);
    }
  }

  /** Selections and cancellations never drive a camp with non-negative seats below zero. */
  lemma BedsNonNegative(s: State, c: Id)
    requires WellFormed(s) && c in s.camps && Seats(s, c) >= 0
    ensures s.camps[c].beds >= 0
  {
  }

  /** A default camp always has between zero and its original number of free beds. */
  lemma DefaultCampBedsInRange(s: State, c: Id)
    requires WellFormed(s) && c in DefaultCampIds
    ensures c in s.camps && 0 <= s.camps[c].beds <= s.camps[c].originalBeds
  {
    assert Reserved(s.campSelections, c) >= 0;
  }

  /** Selecting and then cancelling restores the store exactly. */
  lemma SelectThenCancel(s: State, userId: Id, campId: Id, newId: Id, now: Timestamp)
    requires WellFormed(s) && newId !in s.campSelections
    requires SelectCamp(s, userId, campId, newId, now).result.Ok?
    ensures CancelCampSelection(SelectCamp(s, userId, campId, newId, now).state, userId) == Step(Ok(()), s)
  {
    var s1 := SelectCamp(s, userId, campId, newId, now).state;
    SelectCampSuccess(s, userId, campId, newId, now);
    var camp := s.camps[campId];
    assert s1.campSelections[newId].userId == userId;
    var k := SelectionKeyOf(s1.campSelections, userId);
    assert k == newId;
    assert s1.campSelections - {newId} == s.campSelections;
    assert s1.camps[campId := s1.camps[campId].(beds := s1.camps[campId].beds + 1)] == s.camps by {
      assert camp.(beds := camp.beds - 1).(beds := camp.beds - 1 + 1) == camp;
    }
  }

  /** After a successful selection the lookup finds it, joined with the camp that lost a bed. */
  lemma SelectThenLookup(s: State, userId: Id, campId: Id, newId: Id, now: Timestamp)
    requires WellFormed(s) && newId !in s.campSelections
    requires SelectCamp(s, userId, campId, newId, now).result.Ok?
    ensures var st := SelectCamp(s, userId, campId, newId, now);
      && GetUserCampSelection(st.state, userId) == Ok(SelectionWithCamp(st.result.value, Some(st.state.camps[campId])))
      && st.state.camps[campId].beds == s.camps[campId].beds - 1
  {
    var st := SelectCamp(s, userId, campId, newId, now);
    SelectCampPreserves(s, userId, campId, newId, now);
    assert st.state.campSelections[newId].userId == userId;
  }

  /** A second selection without a cancellation in between fails and takes no further bed. */
  lemma SelectTwiceFails(s: State, userId: Id, campId: Id, newId: Id, now: Timestamp,
                         campId2: Id, newId2: Id, now2: Timestamp)
    requires WellFormed(s) && newId !in s.campSelections
    requires SelectCamp(s, userId, campId, newId, now).result.Ok?
    ensures var s1 := SelectCamp(s, userId, campId, newId, now).state;
      SelectCamp(s1, userId, campId2, newId2, now2) == Step(Err(AlreadySelected), s1)
  {
    var s1 := SelectCamp(s, userId, campId, newId, now).state;
    assert s1.campSelections[newId].userId == userId;
  }

  /** After a successful cancellation the lookup reports "no rows". */
  lemma CancelThenLookup(s: State, userId: Id)
    requires WellFormed(s)
    requires CancelCampSelection(s, userId).result.Ok?
    ensures GetUserCampSelection(CancelCampSelection(s, userId).state, userId) == Err(NoRows)
  {
  }

  // ---------------------------------------------------------------------
  // Volunteer assignments
  // ---------------------------------------------------------------------

  /** An assignment is recorded as given and has no effect on any camp. */
  lemma CreateVolunteerAssignmentPreserves(s: State, userId: Id, campId: Id, newId: Id, now: Timestamp)
    requires WellFormed(s) && newId !in s.volunteerAssignments
    ensures var st := CreateVolunteerAssignment(s, userId, campId, newId, now);
      && WellFormed(st.state)
      && st.result == Ok(Assignment(newId, userId, campId, now))
      && st.state == s.(volunteerAssignments := s.volunteerAssignments[newId := st.result.value])
      && newId in GetVolunteerAssignments(st.state, userId)
  {
  }
}
