/**
 The records held by the in-memory mock of the camp-management backend:
 user accounts with their profiles, camps, camp selections (bed
 reservations) and volunteer assignments, together with the error kinds the
 mock raises and the result envelope every operation returns.
 */
module Records {

  /** Identifiers are strings ("camp-1", or "id_" followed by random characters). */
  type Id = string

  /** Creation timestamps are wall-clock ISO strings; the model treats them as opaque. */
  type Timestamp = string

  datatype Option<+T> = None | Some(value: T) {
    function GetOr(default: T): T {
      match this
      case Some(v) => v
      case None => default
    }
  }

  /** The fields a caller hands to `signUp`; the last four may be missing. */
  datatype UserData = UserData(
    name: string,
    role: string,
    contact: string,
    address: Option<string>,
    needs: Option<string>,
    skills: Option<string>,
    availability: Option<string>,
    age: Option<int>)

  datatype User = User(id: Id, email: string, createdAt: Timestamp)

  datatype Profile = Profile(
    id: Id,
    email: string,
    name: string,
    role: string,
    contact: string,
    address: string,
    needs: string,
    skills: string,
    availability: string,
    age: Option<int>,
    createdAt: Timestamp)

  /** What the `users` table stores under a user id: the user and its profile. */
  datatype UserRecord = UserRecord(user: User, profile: Profile)

  datatype CampType = Default | VolunteerAdded

  datatype Camp = Camp(
    id: Id,
    name: string,
    beds: int,
    originalBeds: int,
    resources: seq<string>,
    contact: string,
    ambulance: string,
    campType: CampType,
    createdAt: Timestamp,
    addedByUserId: Option<Id>)

  /** The fields a volunteer supplies to `createCamp`. */
  datatype CampData = CampData(
    name: string,
    beds: int,
    originalBeds: int,
    resources: seq<string>,
    contact: string,
    ambulance: string)

  /** A camp as handed back to callers, with the profile of the user who added it. */
  datatype CampView = CampView(camp: Camp, addedByUser: Option<Profile>)

  /** A bed reservation: one user holds one bed in one camp. */
  datatype Selection = Selection(id: Id, userId: Id, campId: Id, selectedAt: Timestamp)

  /** A selection joined with the camp it names (absent if that camp is gone). */
  datatype SelectionWithCamp = SelectionWithCamp(selection: Selection, camp: Option<Camp>)

  datatype Assignment = Assignment(id: Id, userId: Id, campId: Id, assignedAt: Timestamp)

  datatype AssignmentWithCamp = AssignmentWithCamp(assignment: Assignment, camp: Option<Camp>)

  /** The failures of the mock; all but `NoRows` are thrown, `NoRows` is returned. */
  datatype Error =
    | UserAlreadyExists
    | InvalidCredentials
    | CampNotFound
    | DefaultCampProtected
    | AlreadySelected
    | NoBedsAvailable
    | NoSelectionFound
    | NoRows
  {
    function Message(): string {
      match this
      case UserAlreadyExists => "User already exists with this email"
      case InvalidCredentials => "Invalid email or password"
      case CampNotFound => "Camp not found"
      case DefaultCampProtected => "Cannot delete default camps"
      case AlreadySelected => "You already have a camp selected"
      case NoBedsAvailable => "No beds available in this camp"
      case NoSelectionFound => "No camp selection found"
      case NoRows => "No selection found"
    }

    /** Only the returned `NoRows` error carries a backend error code. */
    function Code(): Option<string> {
      if NoRows? then Some(NoRowsCode) else None
    }
  }

  /** The code of the hosted backend's "no rows" error, mimicked by the mock. */
  const NoRowsCode: string := "PGRST116"

  /** The `{data, error}` envelope as a tagged result. */
  datatype Result<+T> = Ok(value: T) | Err(error: Error)

  /** Ids produced by `generateId` all start with "id_". */
  predicate IsGeneratedId(id: Id) {
    |id| >= 3 && id[..3] == "id_"
  }
}
