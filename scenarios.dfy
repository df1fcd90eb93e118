/**
 Walk-throughs of the mock backend driven through the class's contracts
 alone: what a caller of `MockSupabaseClient` can conclude without looking
 inside its methods.
 */
module Scenarios {
  import opened Records
  import opened Store
  import opened StoreLemmas
  import opened MockClient

  /** Alice registers; a second registration with her email is refused. */
  method RegisterTwice(now: Timestamp, data: UserData)
  {
    var db := new MockSupabaseClient(now);
    var signedUp, _ := db.SignUp("a@x.com", "secret", data, now);
    assert signedUp.Ok?;
    var alice := signedUp.value.user.id;
    assert db.users[alice].profile.email == "a@x.com";
    var again, _ := db.SignUp("a@x.com", "other", data, now);
    assert again == Err(UserAlreadyExists);
    assert db.currentUser == Some(signedUp.value);
  }

  /**
   Alice takes a bed in camp-1 (50 free beds become 49), cannot take a
   second one, cancels, and camp-1 is back at 50 with no selection left.
   */
  method ReserveAndCancel(now: Timestamp, alice: Id)
  {
    var db := new MockSupabaseClient(now);
    InitialWellFormed(now);
    ghost var beforeSelect := db.Snapshot();
    var selected, selectionId := db.SelectCamp(alice, "camp-1", now);
    assert selected.Ok? && selected.value.userId == alice;
    assert db.camps["camp-1"].beds == 49;
    SelectTwiceFails(beforeSelect, alice, "camp-1", selectionId, now, "camp-2", "", now);
    SelectThenCancel(beforeSelect, alice, "camp-1", selectionId, now);
    ghost var afterSelect := db.Snapshot();
    var twice, _ := db.SelectCamp(alice, "camp-2", now);
    assert twice == Err(AlreadySelected);
    assert db.Snapshot() == afterSelect;

    var cancelled := db.CancelCampSelection(alice);
    assert cancelled.Ok? && db.Snapshot() == beforeSelect;
    assert db.camps["camp-1"].beds == 50;
    var lookup := db.GetUserCampSelection(alice);
    assert lookup == Err(NoRows);
  }

  /** Bob cannot reserve in a volunteer camp created with no beds, and nothing is recorded. */
  method FullCampRefuses(now: Timestamp, bob: Id, volunteer: Id)
  {
    var db := new MockSupabaseClient(now);
    var view, _ := db.CreateCamp(CampData("camp-x", 0, 0, [], "", "No"), volunteer, now);
    var refused, _ := db.SelectCamp(bob, view.camp.id, now);
    assert refused == Err(NoBedsAvailable);
    assert db.campSelections == map[];
  }
}
