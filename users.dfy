/** The account endpoints of backend/app/api/v1/users.py. Password
    hashing and checking (bcrypt) are parameters: `hash` for
    `get_password_hash`, `verify` for `verify_password`. */
module UserRoutes {
  import opened Wrappers
  import opened Seqs
  import opened Models
  import opened Http

  const UserExists: ApiError := ApiError(400, "User already exists")
  const InvalidCredentials: ApiError := ApiError(401, "Invalid credentials")
  const UserNotFound: ApiError := ApiError(404, "User not found")
  const NotAuthorizedToUpdate: ApiError := ApiError(403, "Not authorized to update this user")
  const NotAuthorizedToDelete: ApiError := ApiError(403, "Not authorized to delete this user")

  // ---------------------------------------------------------------------
  // register

  /** The registration body; an absent role takes the column default. */
  datatype UserCreate = UserCreate(email: string, password: string, role: Option<string>)

  /** The role that will be stored, or None when CHECK valid_role refuses it. */
  function RequestedRole(role: Option<string>): (r: Option<Role>)
    ensures r == Some(UserRole) <==> role.None? || role == Some("user")
    ensures r == Some(AdminRole) <==> role == Some("admin")
    ensures r.None? <==> role.Some? && role.value != "user" && role.value != "admin"
  {
    match role
    case None => Some(DefaultRole)
    case Some(name) => ParseRole(name)
  }

  /** `register`: a taken email answers 400; otherwise one user is added
      with the hashed password and the requested role, unless the commit
      is refused (a role other than 'user' or 'admin', or a value longer
      than its column). */
  method Register(db: Database, req: UserCreate, hash: string -> string, now: int) returns (r: Result<User>)
    requires db.Valid()
    modifies db
    ensures db.Valid()
    ensures r.Err? ==> db.State() == old(db.State())
    ensures (exists u :: u in old(db.users) && u.email == req.email) ==> r == Err(UserExists)
    ensures (forall u :: u in old(db.users) ==> u.email != req.email) ==>
              var role := RequestedRole(req.role);
              && (role.None? ==> r == Err(CommitRefused))
              && (role.Some? ==>
                    var row := User(old(db.nextUserId), req.email, hash(req.password), role.value, now);
                    && (!UserFits(row) ==> r == Err(CommitRefused))
                    && (UserFits(row) ==>
                          && r == Ok(row)
                          && db.State() == old(db.State()).(users := old(db.users) + [row],
                                                            nextUserId := old(db.nextUserId) + 1)))
  {
    var existing := FindUserByEmail(db.users, req.email);
    if existing.Some? {
      return Err(UserExists);
    }
    var passwordHash := hash(req.password);
    var role := RequestedRole(req.role);
    if role.None? {
      return Err(CommitRefused);
    }
    var row := User(db.nextUserId, req.email, passwordHash, role.value, now);
    if !UserFits(row) {
      return Err(CommitRefused);
    }
    PairwiseAppend(db.users, row, DistinctUsers);
    db.users := db.users + [row];
    db.nextUserId := db.nextUserId + 1;
    assert UserIds(old(db.users)) <= UserIds(db.users);
    r := Ok(row);
  }

  // ---------------------------------------------------------------------
  // login

  /** `login`: the id the access token is issued for. */
  function Login(db: Database, email: string, password: string, verify: (string, string) -> bool): (r: Result<nat>)
    reads db
    ensures r.Err? ==> r.error == InvalidCredentials
    ensures r.Ok? <==> FindUserByEmail(db.users, email).Some? &&
                       verify(password, FindUserByEmail(db.users, email).value.passwordHash)
    ensures r.Ok? ==> r.value == FindUserByEmail(db.users, email).value.id
  {
    match FindUserByEmail(db.users, email)
    case None => Err(InvalidCredentials)
    case Some(user) =>
      if !verify(password, user.passwordHash) then Err(InvalidCredentials) else Ok(user.id)
  }

  /** With unique emails, login succeeds for exactly the user with that
      email whose hash the password checks against; an unknown email and
      a wrong password are answered alike. */
  lemma LoginExactlyOwner(db: Database, email: string, password: string, verify: (string, string) -> bool, id: nat)
    requires Pairwise(db.users, DistinctUsers)
    ensures Login(db, email, password, verify) == Ok(id) <==>
            exists u :: u in db.users && u.email == email && u.id == id && verify(password, u.passwordHash)
    ensures Login(db, email, password, verify).Err? ==> Login(db, email, password, verify) == Err(InvalidCredentials)
  {
    var found := FindUserByEmail(db.users, email);
    if found.Some? {
      forall u | u in db.users && u.email == email ensures u == found.value {
        var p :| 0 <= p < |db.users| && db.users[p] == u;
        var q :| 0 <= q < |db.users| && db.users[q] == found.value;
        assert p == q;
      }
    }
  }

  // ---------------------------------------------------------------------
  // read_users, read_user

  /** `read_users`: admin only, `.offset(skip).limit(limit)`. */
  function ReadUsers(db: Database, caller: Caller, skip: nat, limit: nat): (r: Result<seq<User>>)
    reads db
    ensures caller.role != AdminRole ==> r == Err(NotEnoughPrivileges)
    ensures caller.role == AdminRole ==>
              && r.Ok? && |r.value| == Min(limit, if skip <= |db.users| then |db.users| - skip else 0)
              && forall k :: 0 <= k < |r.value| ==> skip + k < |db.users| && r.value[k] == db.users[skip + k]
  {
    if caller.role != AdminRole then Err(NotEnoughPrivileges) else Ok(Page(db.users, skip, limit))
  }

  /** `read_user`: any authenticated caller may read any user. */
  function ReadUser(db: Database, userId: nat): (r: Result<User>)
    reads db
    ensures r.Ok? <==> userId in UserIds(db.users)
    ensures r.Ok? ==> r.value in db.users && r.value.id == userId
    ensures r.Err? ==> r.error == UserNotFound
  {
    match FindUser(db.users, userId)
    case Some(u) => Ok(u)
    case None => Err(UserNotFound)
  }

  // ---------------------------------------------------------------------
  // update_user

  /** The update body: only the fields the client set. */
  datatype UserUpdate = UserUpdate(email: Option<string>, password: Option<string>, role: Option<string>)

  /** One `(key, value)` of `update_data`. */
  datatype Change = SetEmail(email: string) | SetPasswordHash(passwordHash: string) | SetRole(role: string)

  /** `user_update.dict(exclude_unset=True)` with "password" popped and
      replaced by a hashed "password_hash" at the end. */
  function UpdateData(upd: UserUpdate, hash: string -> string): (changes: seq<Change>)
    ensures forall c :: c in changes ==> c.SetPasswordHash? ==> upd.password.Some? && c.passwordHash == hash(upd.password.value)
    ensures upd.password.Some? <==> exists c :: c in changes && c.SetPasswordHash?
  {
    var changes :=
      (if upd.email.Some? then [SetEmail(upd.email.value)] else []) +
      (if upd.role.Some? then [SetRole(upd.role.value)] else []) +
      (if upd.password.Some? then [SetPasswordHash(hash(upd.password.value))] else []);
    assert upd.password.Some? ==> changes[|changes| - 1] in changes;
    changes
  }

  /** The ORM object while it is being edited: `role` is still a string,
      checked by CHECK valid_role at commit. */
  datatype UserDraft = UserDraft(email: string, passwordHash: string, role: string)

  function Apply(draft: UserDraft, c: Change): UserDraft {
    match c
    case SetEmail(e) => draft.(email := e)
    case SetPasswordHash(h) => draft.(passwordHash := h)
    case SetRole(name) => draft.(role := name)
  }

  function ApplyAll(draft: UserDraft, changes: seq<Change>): UserDraft
    decreases |changes|
  {
    if changes == [] then draft else ApplyAll(Apply(draft, changes[0]), changes[1..])
  }

  lemma {:induction false} ApplyAllSnoc(draft: UserDraft, changes: seq<Change>, c: Change)
    ensures ApplyAll(draft, changes + [c]) == Apply(ApplyAll(draft, changes), c)
    decreases |changes|
  {
    if changes != [] {
      assert (changes + [c])[1..] == changes[1..] + [c];
      ApplyAllSnoc(Apply(draft, changes[0]), changes[1..], c);
    }
  }

  /** `for key, value in update_data.items(): setattr(db_user, key, value)`. */
  method ApplyChanges(draft: UserDraft, changes: seq<Change>) returns (edited: UserDraft)
    ensures edited == ApplyAll(draft, changes)
  {
    edited := draft;
    for k := 0 to |changes|
      invariant edited == ApplyAll(draft, changes[..k])
    {
      assert changes[..k + 1] == changes[..k] + [changes[k]];
      ApplyAllSnoc(draft, changes[..k], changes[k]);
      edited := Apply(edited, changes[k]);
    }
    assert changes[..|changes|] == changes;
  }

  /** An update changes exactly the fields it supplies; a supplied
      password is stored only as its hash. */
  lemma UpdateChangesSuppliedFields(draft: UserDraft, upd: UserUpdate, hash: string -> string)
    ensures var edited := ApplyAll(draft, UpdateData(upd, hash));
            && edited.email == upd.email.GetOr(draft.email)
            && edited.role == upd.role.GetOr(draft.role)
            && edited.passwordHash == (if upd.password.Some? then hash(upd.password.value) else draft.passwordHash)
  {
    var e := if upd.email.Some? then [SetEmail(upd.email.value)] else [];
    var ro := if upd.role.Some? then [SetRole(upd.role.value)] else [];
    var pw := if upd.password.Some? then [SetPasswordHash(hash(upd.password.value))] else [];
    ApplyAllConcat(draft, e, ro);
    ApplyAllConcat(draft, e + ro, pw);
  }

  lemma {:induction false} ApplyAllConcat(draft: UserDraft, a: seq<Change>, b: seq<Change>)
    ensures ApplyAll(draft, a + b) == ApplyAll(ApplyAll(draft, a), b)
    decreases |a|
  {
    if a != [] {
      assert (a + b)[1..] == a[1..] + b;
      ApplyAllConcat(Apply(draft, a[0]), a[1..], b);
    } else {
      assert a + b == b;
    }
  }

  function DraftOf(u: User): UserDraft {
    UserDraft(u.email, u.passwordHash, RoleName(u.role))
  }

  /** The committed row, or None when the commit is refused: an unknown
      role, a value too long for its column, or an email another user
      already has (UNIQUE on `email`). */
  function Committed(u: User, draft: UserDraft, others: seq<User>): (r: Option<User>)
    ensures r.Some? ==> r.value.id == u.id && r.value.createdAt == u.createdAt && UserFits(r.value)
    ensures r.Some? ==> r.value.email == draft.email && r.value.passwordHash == draft.passwordHash
    ensures r.Some? ==> RoleName(r.value.role) == draft.role
    ensures r.Some? <==> ParseRole(draft.role).Some? && |draft.email| <= EmailWidth &&
                         |draft.passwordHash| <= PasswordHashWidth &&
                         forall o :: o in others && o.id != u.id ==> o.email != draft.email
  {
    match ParseRole(draft.role)
    case None => None
    case Some(role) =>
      var row := u.(email := draft.email, passwordHash := draft.passwordHash, role := role);
      if !UserFits(row) || (exists o :: o in others && o.id != u.id && o.email == draft.email) then None
      else Some(row)
  }

  /** The position of the first user row with this id. */
  function UserIndex(us: seq<User>, id: nat): (r: Option<nat>)
    ensures r.Some? <==> id in UserIds(us)
    ensures r.Some? ==> r.value < |us| && us[r.value].id == id
  {
    if us == [] then None
    else if us[0].id == id then Some(0)
    else
      assert UserIds(us) == {us[0].id} + UserIds(us[1..]);
      match UserIndex(us[1..], id)
      case None => None
      case Some(j) => Some(j + 1)
  }

  /** `update_user`: a caller may only update themselves, and this is
      checked before the user is looked up, so even an admin gets 403 for
      anyone else. */
  method UpdateUser(db: Database, caller: Caller, userId: nat, upd: UserUpdate, hash: string -> string)
    returns (r: Result<User>)
    requires db.Valid()
    modifies db
    ensures db.Valid()
    ensures r.Err? ==> db.State() == old(db.State())
    ensures userId != caller.id ==> r == Err(NotAuthorizedToUpdate)
    ensures userId == caller.id && userId !in UserIds(old(db.users)) ==> r == Err(UserNotFound)
    ensures userId == caller.id && userId in UserIds(old(db.users)) ==>
              var i := UserIndex(old(db.users), userId).value;
              var edited := ApplyAll(DraftOf(old(db.users)[i]), UpdateData(upd, hash));
              var row := Committed(old(db.users)[i], edited, old(db.users));
              && (row.None? ==> r == Err(CommitRefused))
              && (row.Some? ==> r == Ok(row.value) &&
                                db.State() == old(db.State()).(users := old(db.users)[i := row.value]))
  {
    if userId != caller.id {
      return Err(NotAuthorizedToUpdate);
    }
    var found := UserIndex(db.users, userId);
    if found.None? {
      return Err(UserNotFound);
    }
    var i := found.value;
    var updateData := UpdateData(upd, hash);
    var edited := ApplyChanges(DraftOf(db.users[i]), updateData);
    var row := Committed(db.users[i], edited, db.users);
    if row.None? {
      return Err(CommitRefused);
    }
    UpdateKeepsValid(db.State(), i, row.value);
    db.users := db.users[i := row.value];
    r := Ok(row.value);
  }

  /** Replacing a user row by one with the same id, an email no other user
      has and fitting values keeps every table invariant. */
  lemma UpdateKeepsValid(t: Tables, i: nat, row: User)
    requires TablesValid(t) && i < |t.users| && row.id == t.users[i].id && UserFits(row)
    requires forall o :: o in t.users && o.id != row.id ==> o.email != row.email
    ensures TablesValid(t.(users := t.users[i := row]))
  {
    var us := t.users[i := row];
    forall p, q | 0 <= p < q < |us| ensures DistinctUsers(us[p], us[q]) {
      assert DistinctUsers(t.users[p], t.users[q]);
      assert t.users[p] in t.users && t.users[q] in t.users;
    }
    assert UserIds(us) == UserIds(t.users) by {
      forall x | x in UserIds(t.users) ensures x in UserIds(us) {
        var u :| u in t.users && u.id == x;
        var k :| 0 <= k < |t.users| && t.users[k] == u;
        assert us[k].id == x;
      }
      forall x | x in UserIds(us) ensures x in UserIds(t.users) {
        var u :| u in us && u.id == x;
        var k :| 0 <= k < |us| && us[k] == u;
        assert t.users[k].id == x;
      }
    }
    assert forall u :: u in us ==> u == row || u in t.users;
  }

  // ---------------------------------------------------------------------
  // delete_user

  /** `delete_user`: allowed for oneself or an admin, checked before the
      lookup; the row goes, and `ON DELETE CASCADE` takes the user's
      reservations with it. */
  method DeleteUser(db: Database, caller: Caller, userId: nat) returns (r: Result<()>)
    requires db.Valid()
    modifies db
    ensures db.Valid()
    ensures r.Err? ==> db.State() == old(db.State())
    ensures userId != caller.id && caller.role != AdminRole ==> r == Err(NotAuthorizedToDelete)
    ensures (userId == caller.id || caller.role == AdminRole) && userId !in UserIds(old(db.users)) ==>
              r == Err(UserNotFound)
    ensures (userId == caller.id || caller.role == AdminRole) && userId in UserIds(old(db.users)) ==> r.Ok?
    ensures r.Ok? ==>
              && (userId == caller.id || caller.role == AdminRole) && userId in UserIds(old(db.users))
              && db.State() == old(db.State()).(
                   users := Filter(old(db.users), (u: User) => u.id != userId),
                   reservations := Filter(old(db.reservations), (x: Reservation) => x.userId != userId))
  {
    if userId != caller.id && caller.role != AdminRole {
      return Err(NotAuthorizedToDelete);
    }
    var user := FindUser(db.users, userId);
    if user.None? {
      return Err(UserNotFound);
    }
    var keepUser := (u: User) => u.id != userId;
    var keepReservation := (x: Reservation) => x.userId != userId;
    FilterPairwise(db.users, keepUser, DistinctUsers);
    FilterPairwise(db.reservations, keepReservation, DistinctReservations);
    FilterPairwise(db.reservations, keepReservation, NotBothActiveOnSeat);
    var users := Filter(db.users, keepUser);
    var reservations := Filter(db.reservations, keepReservation);
    forall x | x in reservations ensures x.userId in UserIds(users) {
      var u :| u in db.users && u.id == x.userId;
      assert u in users;
    }
    db.users := users;
    db.reservations := reservations;
    r := Ok(());
  }

  /** With distinct ids, deleting an existing user removes exactly one row. */
  lemma {:induction false} DeleteRemovesOne(us: seq<User>, userId: nat)
    requires Pairwise(us, DistinctUsers) && userId in UserIds(us)
    ensures |Filter(us, (u: User) => u.id != userId)| == |us| - 1
  {
    var keep := (u: User) => u.id != userId;
    assert UserIds(us) == {us[0].id} + UserIds(us[1..]);
    assert Pairwise(us[1..], DistinctUsers);
    if us[0].id == userId {
      forall k | 0 <= k < |us[1..]| ensures keep(us[1..][k]) {
        assert DistinctUsers(us[0], us[k + 1]);
      }
      FilterKeepsAll(us[1..], keep);
    } else {
      DeleteRemovesOne(us[1..], userId);
    }
  }

  /** After a delete, `read_user` answers 404 for that id and as before
      for every other. */
  lemma {:induction false} FindUserRemoved(us: seq<User>, gone: nat, id: nat)
    ensures FindUser(Filter(us, (u: User) => u.id != gone), id) == if id == gone then None else FindUser(us, id)
  {
    var keep := (u: User) => u.id != gone;
    if us != [] {
      var rest := Filter(us[1..], keep);
      FindUserRemoved(us[1..], gone, id);
      if us[0].id != gone {
        assert Filter(us, keep) == [us[0]] + rest;
        assert ([us[0]] + rest)[1..] == rest;
      } else {
        assert Filter(us, keep) == rest;
      }
    }
  }
}
