/**
 * UserService: the accounts of the desktop application. On top of the store
 * contract it rejects null users, updates of missing ids, and a username that
 * already belongs to another id.
 */
module UserServices {
  import opened Wrappers
  import opened JavaLang
  import opened Domain
  import opened Repository

  type Users = map<int, User>

  /** The ids whose user is called `name`. */
  function IdsNamed(m: Users, name: string): set<int> {
    set k | k in m && m[k].username == name
  }

  /** userRepository.findByUsername: the first user called `name`, or null. */
  function UserNamed(m: Users, name: string): (r: Option<User>)
    ensures r.None? <==> forall k :: k in m ==> m[k].username != name
    ensures r.Some? ==> r.value.username == name && exists k :: k in m && m[k] == r.value
  {
    var ids := IdsNamed(m, name);
    if ids == {} then
      assert forall k :: k in m && m[k].username == name ==> k in ids;
      None
    else
      var k := MinOf(ids);
      Some(m[k])
  }

  /** checkLogin: false for an unknown username, else whether the stored password is `password`. */
  function LoginValid(m: Users, username: string, password: string): (ok: bool)
    ensures (forall k :: k in m ==> m[k].username != username) ==> !ok
    ensures ok ==> exists k :: k in m && m[k].username == username && m[k].password == password
  {
    match UserNamed(m, username)
    case None => false
    case Some(user) => user.password == password
  }

  /** Every user is stored under its own id. */
  predicate KeysMatch(m: Users) {
    forall k :: k in m ==> m[k].id == k
  }

  /** No two ids hold the same username. */
  predicate UniqueUsernames(m: Users) {
    forall j, k :: j in m && k in m && m[j].username == m[k].username ==> j == k
  }

  /** The state the service keeps when every write goes through it with a matching id. */
  predicate Consistent(m: Users) {
    KeysMatch(m) && UniqueUsernames(m)
  }

  /** save(id, user): the new store, or the message of the IllegalArgumentException. */
  function Saved(m: Users, id: int32, user: Option<User>): (r: Result<Users, string>)
    ensures user.None? ==> r == Failure("User cannot be null")
    ensures r.Success? ==> user.Some? && r.value == m[id := user.value]
    ensures r.Failure? && user.Some? ==>
      r.error == "Username already exists: " + user.value.username &&
      exists k :: k in m && m[k].username == user.value.username && m[k].id != id
  {
    if user.None? then Failure("User cannot be null")
    else
      var existing := UserNamed(m, user.value.username);
      if existing.Some? && existing.value.id != id then
        Failure("Username already exists: " + user.value.username)
      else
        Success(m[id := user.value])
  }

  /** update(id, user): the new store, or the message of the IllegalArgumentException. */
  function Updated(m: Users, id: int32, user: Option<User>): (r: Result<Users, string>)
    ensures user.None? ==> r == Failure("User cannot be null")
    ensures user.Some? && id !in m ==> r == Failure("User not found with ID: " + IntToString(id))
    ensures user.Some? && id in m && m[id].username == user.value.username ==> r == Success(m[id := user.value])
    ensures r.Success? ==> user.Some? && id in m && r.value == m[id := user.value]
    ensures r.Failure? && user.Some? && id in m ==>
      r.error == "Username already exists: " + user.value.username &&
      exists k :: k in m && m[k].username == user.value.username && m[k].id != id
  {
    if user.None? then Failure("User cannot be null")
    else if id !in m then Failure("User not found with ID: " + IntToString(id))
    else if m[id].username == user.value.username then Success(m[id := user.value])
    else
      var other := UserNamed(m, user.value.username);
      if other.Some? && other.value.id != id then
        Failure("Username already exists: " + user.value.username)
      else
        Success(m[id := user.value])
  }

  /** With unique usernames, a login succeeds exactly when some account has that name and password. */
  lemma LoginValidExact(m: Users, username: string, password: string)
    requires UniqueUsernames(m)
    ensures LoginValid(m, username, password) <==>
      exists k :: k in m && m[k].username == username && m[k].password == password
  {
    if k :| k in m && m[k].username == username && m[k].password == password {
      var found := UserNamed(m, username);
      var j :| j in m && m[j] == found.value;
      assert j == k;
    }
  }

  /** In a consistent store, save is refused exactly when another id already holds the username. */
  lemma SavedRefusesTakenUsername(m: Users, id: int32, user: User)
    requires Consistent(m)
    ensures Saved(m, id, Some(user)).Failure? <==>
      exists k :: k in m && m[k].username == user.username && k != id
  {
    if k :| k in m && m[k].username == user.username && k != id {
      var found := UserNamed(m, user.username);
      var j :| j in m && m[j] == found.value;
      assert j == k;
    }
  }

  /** A save through the service, with the user's own id, keeps the store consistent. */
  lemma SavedKeepsConsistent(m: Users, user: User)
    requires Consistent(m)
    requires Saved(m, user.id, Some(user)).Success?
    ensures Consistent(Saved(m, user.id, Some(user)).value)
  {
    var r := Saved(m, user.id, Some(user)).value;
    SavedRefusesTakenUsername(m, user.id, user);
    forall j, k | j in r && k in r && r[j].username == r[k].username
      ensures j == k
    {
      if j != user.id && k != user.id {
        assert r[j] == m[j] && r[k] == m[k];
      }
    }
  }

  /** In a consistent store, an update that renames is refused exactly when another id holds the new name. */
  lemma UpdatedRefusesTakenUsername(m: Users, id: int32, user: User)
    requires Consistent(m)
    requires id in m && m[id].username != user.username
    ensures Updated(m, id, Some(user)).Failure? <==>
      exists k :: k in m && m[k].username == user.username && k != id
  {
    if k :| k in m && m[k].username == user.username && k != id {
      var found := UserNamed(m, user.username);
      var j :| j in m && m[j] == found.value;
      assert j == k;
    }
  }

  /** An update through the service, with the user's own id, keeps the store consistent. */
  lemma UpdatedKeepsConsistent(m: Users, user: User)
    requires Consistent(m)
    requires Updated(m, user.id, Some(user)).Success?
    ensures Consistent(Updated(m, user.id, Some(user)).value)
  {
    var id := user.id;
    var r := Updated(m, id, Some(user)).value;
    if m[id].username != user.username {
      UpdatedRefusesTakenUsername(m, id, user);
    }
    forall j, k | j in r && k in r && r[j].username == r[k].username
      ensures j == k
    {
      if j != id && k != id {
        assert r[j] == m[j] && r[k] == m[k];
      }
    }
  }

  /** Removing an id keeps the store consistent. */
  lemma DeletedKeepsConsistent(m: Users, id: int)
    requires Consistent(m)
    ensures Consistent(m - {id})
  {
  }

  /** UserService over its repository. */
  class UserService {
    const repo: MemoryRepository<User>

    constructor(repo: MemoryRepository<User>)
      ensures this.repo == repo
    {
      this.repo := repo;
    }

    method FindByUsername(username: string) returns (user: Option<User>)
      ensures user == UserNamed(repo.data, username)
    {
      user := UserNamed(repo.data, username);
    }

    method CheckLogin(username: string, password: string) returns (ok: bool)
      ensures ok == LoginValid(repo.data, username, password)
    {
      var user := FindByUsername(username);
      if user.None? {
        return false;
      }
      ok := user.value.password == password;
    }

    method FindById(id: int32) returns (user: Option<User>)
      ensures user == repo.FindById(id)
    {
      user := repo.FindById(id);
    }

    method Save(id: int32, user: Option<User>) returns (outcome: Outcome)
      modifies repo
      ensures Saved(old(repo.data), id, user).Success? ==>
        outcome == Pass && repo.data == Saved(old(repo.data), id, user).value
      ensures Saved(old(repo.data), id, user).Failure? ==>
        outcome == Fail(Saved(old(repo.data), id, user).error) && repo.data == old(repo.data)
    {
      if user.None? {
        return Fail("User cannot be null");
      }
      var existing := FindByUsername(user.value.username);
      if existing.Some? && existing.value.id != id {
        return Fail("Username already exists: " + user.value.username);
      }
      repo.Save(id, user.value);
      outcome := Pass;
    }

    method Update(id: int32, user: Option<User>) returns (outcome: Outcome)
      modifies repo
      ensures Updated(old(repo.data), id, user).Success? ==>
        outcome == Pass && repo.data == Updated(old(repo.data), id, user).value
      ensures Updated(old(repo.data), id, user).Failure? ==>
        outcome == Fail(Updated(old(repo.data), id, user).error) && repo.data == old(repo.data)
    {
      if user.None? {
        return Fail("User cannot be null");
      }
      var existing := FindById(id);
      if existing.None? {
        return Fail("User not found with ID: " + IntToString(id));
      }
      if existing.value.username != user.value.username {
        var sameName := FindByUsername(user.value.username);
        if sameName.Some? && sameName.value.id != id {
          return Fail("Username already exists: " + user.value.username);
        }
      }
      repo.Update(id, user.value);
      outcome := Pass;
    }

    /** Deletes whether or not the id is present (a missing id is only logged). */
    method Delete(id: int32)
      modifies repo
      ensures repo.data == old(repo.data) - {id}
    {
      var existing := FindById(id);
      repo.Delete(id);
    }

    /** Copies the repository iterator into a list, counting the elements. */
    method FindAll() returns (users: seq<User>)
      ensures users == ValuesOf(repo.data)
    {
      var elements := repo.FindAll();
      users := [];
      var count := 0;
      while count < |elements|
        invariant 0 <= count <= |elements|
        invariant users == elements[..count]
      {
        assert elements[..count + 1] == elements[..count] + [elements[count]];
        users := users + [elements[count]];
        count := count + 1;
      }
      assert elements[..count] == elements;
    }
  }
}
