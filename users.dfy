/** Users (`dao/impl/UserDaoImpl.java`, `service/impl/UserServiceImpl.java`): the
    `users` table with its save-by-id dispatch, and the service rules for
    registration, profile and password changes, and the in-memory page of users. */
module Users {
  import opened Common

  /** The roles a user can hold; the security layer turns ADMIN into the authority
      "ROLE_ADMIN", and so on. */
  datatype Role = USER | MODERATOR | ADMIN

  /** A `users` row; `createdAt` is a clock reading, absent until the user is stored. */
  datatype User = User(
    id: int,
    username: string,
    email: string,
    passwordHash: string,
    role: Role,
    createdAt: Option<int>)

  predicate HasUserId(u: User, id: int) { u.id == id }

  function UserKey(u: User): int { u.id }

  /** The shape of the `users` table: ids from the sequence, ascending and unique. */
  ghost predicate UserRowsValid(rows: seq<User>, nextId: int)
  {
    1 <= nextId && Ascending(rows, UserKey) && forall u :: u in rows ==> 1 <= u.id < nextId
  }

  /** The table after `UPDATE users SET username, email, password_hash, role WHERE id`:
      the matching row takes the four columns and keeps its id and creation time. */
  function UpdateProfileRow(rows: seq<User>, user: User): (r: seq<User>)
    ensures |r| == |rows|
    ensures forall i :: 0 <= i < |r| ==>
              r[i] == if rows[i].id == user.id
                      then rows[i].(username := user.username, email := user.email,
                                    passwordHash := user.passwordHash, role := user.role)
                      else rows[i]
  {
    if rows == [] then []
    else
      [if rows[0].id == user.id
       then rows[0].(username := user.username, email := user.email, passwordHash := user.passwordHash, role := user.role)
       else rows[0]] + UpdateProfileRow(rows[1..], user)
  }

  /** The table after `UPDATE users SET role = ? WHERE id = ?`. */
  function UpdateRoleRow(rows: seq<User>, userId: int, role: Role): (r: seq<User>)
    ensures |r| == |rows|
    ensures forall i :: 0 <= i < |r| ==> r[i] == if rows[i].id == userId then rows[i].(role := role) else rows[i]
  {
    if rows == [] then [] else [if rows[0].id == userId then rows[0].(role := role) else rows[0]] + UpdateRoleRow(rows[1..], userId, role)
  }

  /** A row-wise rewrite that keeps every id keeps the table well formed. */
  lemma SameIdsValid(rows: seq<User>, updated: seq<User>, nextId: int)
    requires UserRowsValid(rows, nextId)
    requires |updated| == |rows| && forall i :: 0 <= i < |rows| ==> updated[i].id == rows[i].id
    ensures UserRowsValid(updated, nextId)
  {
    forall u | u in updated
      ensures 1 <= u.id < nextId
    {
      var i :| 0 <= i < |updated| && updated[i] == u;
      assert rows[i] in rows;
    }
  }

  /** The first match a finder returns is the earliest row that matches: `query(...)`
      returns rows in table order and the finder keeps element 0. */
  lemma {:induction false} FirstWhereIsFirst<T>(s: seq<T>, p: T -> bool) returns (k: nat)
    requires FirstWhere(s, p).Some?
    ensures k < |s| && s[k] == FirstWhere(s, p).value
    ensures forall j :: 0 <= j < k ==> !p(s[j])
  {
    if p(s[0]) {
      k := 0;
    } else {
      var k' := FirstWhereIsFirst(s[1..], p);
      k := k' + 1;
    }
  }

  class UserDao {
    var rows: seq<User>
    var nextId: int

    ghost predicate Valid()
      reads this
    {
      UserRowsValid(rows, nextId)
    }

    constructor ()
      ensures Valid() && rows == [] && nextId == 1
    {
      rows := [];
      nextId := 1;
    }

    function FindById(id: int): (r: Option<User>)
      reads this
      ensures r.None? <==> forall u :: u in rows ==> u.id != id
      ensures r.Some? ==> r.value in rows && r.value.id == id
    {
      FirstWhere(rows, u => HasUserId(u, id))
    }

    function FindByEmail(email: string): (r: Option<User>)
      reads this
      ensures r.None? <==> forall u :: u in rows ==> u.email != email
      ensures r.Some? ==> r.value in rows && r.value.email == email
    {
      FirstWhere(rows, (u: User) => u.email == email)
    }

    function FindByUsername(username: string): (r: Option<User>)
      reads this
      ensures r.None? <==> forall u :: u in rows ==> u.username != username
      ensures r.Some? ==> r.value in rows && r.value.username == username
    {
      FirstWhere(rows, (u: User) => u.username == username)
    }

    /** SELECT * FROM users, in table order. */
    function FindAll(): (r: seq<User>)
      reads this
      ensures |r| == |rows| && forall i :: 0 <= i < |r| ==> r[i] == rows[i]
    {
      rows
    }

    /** INSERT with a generated id; a missing creation time becomes `now`. */
    method Insert(user: User, now: int) returns (saved: User)
      requires Valid()
      modifies this
      ensures Valid()
      ensures saved == user.(id := old(nextId), createdAt := if user.createdAt.Some? then user.createdAt else Some(now))
      ensures rows == old(rows) + [saved] && nextId == old(nextId) + 1
    {
      saved := user.(id := nextId, createdAt := if user.createdAt.Some? then user.createdAt else Some(now));
      rows := rows + [saved];
      nextId := nextId + 1;
    }

    /** UPDATE of the profile columns of the row with the user's id; an id with no row
        changes nothing and is not reported. */
    method Update(user: User) returns (saved: User)
      requires Valid()
      modifies this
      ensures Valid() && nextId == old(nextId)
      ensures saved == user
      ensures rows == UpdateProfileRow(old(rows), user)
      ensures (forall u :: u in old(rows) ==> u.id != user.id) ==> rows == old(rows)
    {
      SameIdsValid(rows, UpdateProfileRow(rows, user), nextId);
      if forall u :: u in rows ==> u.id != user.id {
        assert UpdateProfileRow(rows, user) == rows;
      }
      rows := UpdateProfileRow(rows, user);
      saved := user;
    }

    /** `save`: a positive id means the user is stored already and is updated; any
        other id inserts a new row. */
    method Save(user: User, now: int) returns (saved: User)
      requires Valid()
      modifies this
      ensures Valid()
      ensures user.id > 0 ==> saved == user && rows == UpdateProfileRow(old(rows), user) && nextId == old(nextId)
      ensures user.id <= 0 ==>
                saved == user.(id := old(nextId), createdAt := if user.createdAt.Some? then user.createdAt else Some(now)) &&
                rows == old(rows) + [saved] && nextId == old(nextId) + 1
    {
      if user.id > 0 {
        saved := Update(user);
      } else {
        saved := Insert(user, now);
      }
    }

    method UpdateUserRole(userId: int, role: Role)
      requires Valid()
      modifies this
      ensures Valid() && nextId == old(nextId)
      ensures rows == UpdateRoleRow(old(rows), userId, role)
    {
      SameIdsValid(rows, UpdateRoleRow(rows, userId, role), nextId);
      rows := UpdateRoleRow(rows, userId, role);
    }

    method Delete(id: int)
      requires Valid()
      modifies this
      ensures Valid() && nextId == old(nextId)
      ensures rows == Filter(old(rows), u => !HasUserId(u, id))
      ensures forall u :: u in rows <==> u in old(rows) && u.id != id
    {
      var kept := Filter(rows, u => !HasUserId(u, id));
      FilterAscending(rows, u => !HasUserId(u, id), UserKey);
      forall u | u in rows && u.id != id
        ensures u in kept
      {
        FilterComplete(rows, u => !HasUserId(u, id), u);
      }
      rows := kept;
    }
  }

  /** The in-memory page as the source computes it, on `int`: `from = min(page*size, n)`
      and `to = min(from + size, n)` with both sums wrapping, then `subList(from, to)`,
      which throws for a negative `from` or a `to` below `from`. */
  function UsersPageAsWritten(users: seq<User>, page: int, size: int): (r: Result<seq<User>>)
    requires IsInt32(page) && IsInt32(size)
    ensures r.Ok? ==> |r.value| <= |users|
  {
    var n := |users|;
    var from := Min(Wrap32(page * size), n);
    var to := Min(Wrap32(from + size), n);
    if from < 0 || to < from then Err(IndexOutOfBounds) else Ok(users[from..to])
  }

  /** The page as it is evidently meant: the same bounds on exact integers. */
  function UsersPage(users: seq<User>, page: int, size: int): (r: Result<seq<User>>)
    ensures r.Err? <==> page * size < 0 || size < 0
    ensures r.Err? ==> r.error == IndexOutOfBounds
    ensures r.Ok? ==> |r.value| <= size && forall u :: u in r.value ==> u in users
  {
    var n := |users|;
    var from := Min(page * size, n);
    var to := Min(from + size, n);
    if from < 0 || to < from then Err(IndexOutOfBounds) else Ok(users[from..to])
  }

  function Min(a: int, b: int): int { if a <= b then a else b }

  /** For a page number and size that are not negative the page always exists: it is
      the users from position page*size on, at most `size` of them, and empty past
      the end. */
  lemma UsersPageIsSlice(users: seq<User>, page: int, size: int)
    requires page >= 0 && size >= 0
    ensures UsersPage(users, page, size).Ok?
    ensures var r := UsersPage(users, page, size).value;
            |r| <= size &&
            (page * size >= |users| ==> r == []) &&
            (page * size + size <= |users| ==> |r| == size) &&
            forall k :: 0 <= k < |r| ==> page * size + k < |users| && r[k] == users[page * size + k]
  {
    assert page * size >= 0;
  }

  /** Consecutive pages of one size do not overlap and leave no gap: the page after
      ends where this one would have ended. */
  lemma UsersPagesTile(users: seq<User>, page: int, size: int)
    requires page >= 0 && size >= 0
    ensures UsersPage(users, page, size).Ok? && UsersPage(users, page + 1, size).Ok?
    ensures UsersPage(users, page, size).value + UsersPage(users, page + 1, size).value ==
            users[Min(page * size, |users|)..Min((page + 2) * size, |users|)]
  {
    var start := page * size;
    assert start >= 0;
    assert (page + 1) * size == start + size;
    assert (page + 2) * size == start + size + size;
    var a := Min(start, |users|);
    var b := Min(start + size, |users|);
    var c := Min(start + size + size, |users|);
    assert 0 <= a <= b <= c <= |users|;
    assert UsersPage(users, page, size).value == users[a..b];
    assert UsersPage(users, page + 1, size).value == users[b..c];
    AdjacentSlices(users, a, b, c);
  }

  lemma AdjacentSlices<T>(s: seq<T>, a: int, b: int, c: int)
    requires 0 <= a <= b <= c <= |s|
    ensures s[a..b] + s[b..c] == s[a..c]
  {
  }

  /** Without overflow the code as written computes the intended page. */
  lemma UsersPageAsWrittenAgrees(users: seq<User>, page: int, size: int)
    requires IsInt32(page) && IsInt32(size) && IsInt32(page * size)
    requires IsInt32(Min(page * size, |users|) + size)
    ensures UsersPageAsWritten(users, page, size) == UsersPage(users, page, size)
  {
  }

  /** Overflow in `page * size`: page 65536 of size 32768 asks for position 2^31,
      which wraps to a negative `from`, and subList throws where an empty page is meant. */
  lemma UsersPageOffsetOverflows(users: seq<User>)
    requires |users| <= INT_MAX
    ensures UsersPageAsWritten(users, 65536, 32768) == Err(IndexOutOfBounds)
    ensures UsersPage(users, 65536, 32768) == Ok([])
  {
    assert 65536 * 32768 == 0x8000_0000;
    assert Wrap32(65536 * 32768) == INT_MIN;
  }

  /** Overflow in `from + size`: with any user stored, page 1 of size INT_MAX makes
      `to` wrap below `from`, and subList throws where an empty page is meant. */
  lemma UsersPageEndOverflows(users: seq<User>)
    requires |users| >= 1 && |users| <= INT_MAX
    ensures UsersPageAsWritten(users, 1, INT_MAX) == Err(IndexOutOfBounds)
    ensures UsersPage(users, 1, INT_MAX) == Ok([])
  {
    var n := |users|;
    assert Min(Wrap32(1 * INT_MAX), n) == n;
    assert Wrap32(n + INT_MAX) == n + INT_MAX - 0x1_0000_0000;
  }

  /** The user service; the password encoder is a parameter of the model. */
  class UserService {
    const dao: UserDao
    const encode: string -> string

    ghost predicate Valid()
      reads dao
    {
      dao.Valid()
    }

    constructor (dao: UserDao, encode: string -> string)
      ensures this.dao == dao && this.encode == encode
    {
      this.dao := dao;
      this.encode := encode;
    }

    function FindByEmail(email: string): (r: Option<User>)
      reads dao
      ensures r.None? <==> forall u :: u in dao.rows ==> u.email != email
      ensures r.Some? ==> r.value in dao.rows && r.value.email == email
    {
      dao.FindByEmail(email)
    }

    function FindByUsername(username: string): (r: Option<User>)
      reads dao
      ensures r.None? <==> forall u :: u in dao.rows ==> u.username != username
      ensures r.Some? ==> r.value in dao.rows && r.value.username == username
    {
      dao.FindByUsername(username)
    }

    function FindById(id: int): (r: Option<User>)
      reads dao
      ensures r.None? <==> forall u :: u in dao.rows ==> u.id != id
      ensures r.Some? ==> r.value in dao.rows && r.value.id == id
    {
      dao.FindById(id)
    }

    /** Refuses an email that is taken; otherwise stores the user with the encoded
        password as its hash and `now` as its creation time. */
    method Register(user: User, now: int) returns (r: Result<User>)
      requires Valid()
      modifies dao
      ensures Valid()
      ensures r.Err? <==> exists u :: u in old(dao.rows) && u.email == user.email
      ensures r.Err? ==> r.error == IllegalArgument && dao.rows == old(dao.rows) && dao.nextId == old(dao.nextId)
      ensures r.Ok? && user.id <= 0 ==>
                r.value == user.(id := old(dao.nextId), passwordHash := encode(user.passwordHash), createdAt := Some(now)) &&
                dao.rows == old(dao.rows) + [r.value]
      ensures r.Ok? && user.id > 0 ==>
                r.value == user.(passwordHash := encode(user.passwordHash), createdAt := Some(now)) &&
                dao.rows == UpdateProfileRow(old(dao.rows), r.value)
    {
      if dao.FindByEmail(user.email).Some? {
        return Err(IllegalArgument);
      }
      var toSave := user.(passwordHash := encode(user.passwordHash), createdAt := Some(now));
      var saved := dao.Save(toSave, now);
      r := Ok(saved);
    }

    /** Saves the profile of a stored user under the stored password hash, whatever
        hash the argument carries; an unknown id fails before any write. */
    method UpdateProfile(user: User) returns (r: Result<()>)
      requires Valid()
      modifies dao
      ensures Valid() && dao.nextId == old(dao.nextId)
      ensures r.Err? <==> forall u :: u in old(dao.rows) ==> u.id != user.id
      ensures r.Err? ==> r.error == IllegalArgument && dao.rows == old(dao.rows)
      ensures r.Ok? ==> dao.rows == UpdateProfileRow(old(dao.rows), user.(passwordHash := old(dao.FindById(user.id)).value.passwordHash))
    {
      var existing := dao.FindById(user.id);
      if existing.None? {
        return Err(IllegalArgument);
      }
      var toSave := user.(passwordHash := existing.value.passwordHash);
      assert toSave.id > 0;
      var _ := dao.Save(toSave, 0);
      r := Ok(());
    }

    /** Saves the user with the encoded new password as its hash; an unknown id fails
        before any write. */
    method ChangePassword(user: User, newPassword: string) returns (r: Result<()>)
      requires Valid()
      modifies dao
      ensures Valid() && dao.nextId == old(dao.nextId)
      ensures r.Err? <==> forall u :: u in old(dao.rows) ==> u.id != user.id
      ensures r.Err? ==> r.error == IllegalArgument && dao.rows == old(dao.rows)
      ensures r.Ok? ==> dao.rows == UpdateProfileRow(old(dao.rows), user.(passwordHash := encode(newPassword)))
    {
      var existing := dao.FindById(user.id);
      if existing.None? {
        return Err(IllegalArgument);
      }
      var toSave := user.(passwordHash := encode(newPassword));
      assert toSave.id > 0;
      var _ := dao.Save(toSave, 0);
      r := Ok(());
    }

    /** The page of all users, with the bounds computed exactly. */
    function GetUsersPage(page: int, size: int): (r: Result<seq<User>>)
      reads dao
      ensures r.Err? <==> page * size < 0 || size < 0
      ensures r.Ok? ==> |r.value| <= size && forall u :: u in r.value ==> u in dao.rows
    {
      UsersPage(dao.FindAll(), page, size)
    }

    function CountUsers(): (n: nat)
      reads dao
      ensures n == |dao.rows|
    {
      |dao.FindAll()|
    }

    method DeleteUser(id: int)
      requires Valid()
      modifies dao
      ensures Valid()
      ensures forall u :: u in dao.rows <==> u in old(dao.rows) && u.id != id
    {
      dao.Delete(id);
    }

    method UpdateRole(userId: int, role: Role)
      requires Valid()
      modifies dao
      ensures Valid()
      ensures dao.rows == UpdateRoleRow(old(dao.rows), userId, role)
    {
      dao.UpdateUserRole(userId, role);
    }
  }

  /** A profile update keeps the password: whatever hash the caller supplies, the
      stored row keeps its old hash. */
  lemma ProfileUpdateKeepsPassword(rows: seq<User>, user: User, storedHash: string, i: int)
    requires 0 <= i < |rows| && rows[i].id == user.id && rows[i].passwordHash == storedHash
    ensures UpdateProfileRow(rows, user.(passwordHash := storedHash))[i].passwordHash == rows[i].passwordHash
    ensures UpdateProfileRow(rows, user.(passwordHash := storedHash))[i].createdAt == rows[i].createdAt
  {
  }
}
