/** The user list of api/lib/userStore.js: `findUserByEmail`, `addUser` and
    `updateUser`. The list that `loadUsers` reads and `saveUsers` writes is
    the `users` field of a `UserList`; the file and Drive round trips around
    each operation are left out. */
module UserStore {
  import opened Wrappers
  import opened JsText

  /** A stored user: its numeric `id`, its `email`, and its other
      properties (name, role, password hash, ...) by name. */
  datatype User = User(id: int, email: string, props: map<string, string>)

  /** The object passed to `addUser`: an `id` is optional and, when
      present, wins over the generated one. */
  datatype NewUser = NewUser(id: Option<int>, email: string, props: map<string, string>)

  /** The `fields` passed to `updateUser`: any subset of the properties. */
  datatype Fields = Fields(id: Option<int>, email: Option<string>, props: map<string, string>)

  /** `u.email.toLowerCase() === email.toLowerCase()` */
  predicate Matches(u: User, email: string) {
    ToLower(u.email) == ToLower(email)
  }

  /** `users.findIndex(...)`, as a position. */
  function FindIndex(users: seq<User>, email: string): (r: Option<nat>)
    ensures r.Some? ==>
      && r.value < |users| && Matches(users[r.value], email)
      && forall j :: 0 <= j < r.value ==> !Matches(users[j], email)
    ensures r.None? ==> forall j :: 0 <= j < |users| ==> !Matches(users[j], email)
  {
    if users == [] then None
    else if Matches(users[0], email) then Some(0)
    else
      var r := FindIndex(users[1..], email);
      if r.None? then None else Some(r.value + 1)
  }

  /** `users.find(...) || null` */
  function Find(users: seq<User>, email: string): (r: Option<User>)
    ensures r.Some? <==> exists j :: 0 <= j < |users| && Matches(users[j], email)
    ensures r.Some? ==> r.value in users && Matches(r.value, email)
  {
    var i := FindIndex(users, email);
    if i.None? then None else Some(users[i.value])
  }

  /** `Math.max(...users.map(u => u.id))` */
  function MaxId(users: seq<User>): (m: int)
    requires users != []
    ensures forall j :: 0 <= j < |users| ==> users[j].id <= m
    ensures exists j :: 0 <= j < |users| && users[j].id == m
  {
    if |users| == 1 then users[0].id
    else
      var m := MaxId(users[1..]);
      assert forall j :: 1 <= j < |users| ==> users[j] == users[1..][j - 1];
      if users[0].id >= m then users[0].id else m
  }

  /** The generated id: one more than the largest, or 1 for no users. It
      is above every existing id. */
  function NextId(users: seq<User>): (n: int)
    ensures forall j :: 0 <= j < |users| ==> users[j].id < n
    ensures users == [] ==> n == 1
    ensures users != [] ==> exists j :: 0 <= j < |users| && users[j].id == n - 1
  {
    if users == [] then 1 else MaxId(users) + 1
  }

  /** `{ id: nextId, ...user }` */
  function Created(users: seq<User>, nu: NewUser): (u: User)
    ensures u.id == if nu.id.Some? then nu.id.value else NextId(users)
    ensures u.email == nu.email && u.props == nu.props
  {
    User(nu.id.GetOr(NextId(users)), nu.email, nu.props)
  }

  /** `Object.assign(user, fields)`: the given properties override. */
  function Merge(u: User, f: Fields): (r: User)
    ensures r.id == f.id.GetOr(u.id) && r.email == f.email.GetOr(u.email)
    ensures forall k :: k in r.props <==> k in u.props || k in f.props
    ensures forall k :: k in f.props ==> r.props[k] == f.props[k]
    ensures forall k :: k in u.props && k !in f.props ==> r.props[k] == u.props[k]
  {
    User(f.id.GetOr(u.id), f.email.GetOr(u.email), u.props + f.props)
  }

  /** The list after `updateUser(email, fields)` and its result. */
  function Updated(users: seq<User>, email: string, f: Fields): (seq<User>, Option<User>) {
    var i := FindIndex(users, email);
    if i.None? then (users, None)
    else
      var u := Merge(users[i.value], f);
      (users[i.value := u], Some(u))
  }

  class UserList {
    var users: seq<User>

    constructor(loaded: seq<User>)
      ensures users == loaded
    {
      users := loaded;
    }

    /** `findUserByEmail(email)` */
    function FindUserByEmail(email: string): Option<User>
      reads this
    {
      Find(users, email)
    }

    /** `addUser(user)`: appends exactly one record. */
    method AddUser(nu: NewUser) returns (u: User)
      modifies this
      ensures u == Created(old(users), nu)
      ensures users == old(users) + [u]
    {
      var nextId := NextId(users);
      u := User(nu.id.GetOr(nextId), nu.email, nu.props);
      users := users + [u];
    }

    /** `updateUser(email, fields)`: merges into the first match in place. */
    method UpdateUser(email: string, f: Fields) returns (r: Option<User>)
      modifies this
      ensures (users, r) == Updated(old(users), email, f)
    {
      var idx := FindIndex(users, email);
      if idx.None? {
        return None;
      }
      users := users[idx.value := Merge(users[idx.value], f)];
      r := Some(users[idx.value]);
    }
  }

  // ---------------------------------------------------------------------------
  // Properties

  /** Lookup ignores (ASCII) case and returns the first match. */
  lemma FindFirstMatch(users: seq<User>, email: string, j: nat)
    requires j < |users| && Matches(users[j], email)
    requires forall i :: 0 <= i < j ==> !Matches(users[i], email)
    ensures Find(users, email) == Some(users[j])
    ensures Find(users, ToLower(email)) == Some(users[j])
  {
    ToLowerIdempotent(email);
    FindIndexAt(users, email, j);
    FindIndexAt(users, ToLower(email), j);
  }

  lemma FindIndexAt(users: seq<User>, email: string, j: nat)
    requires j < |users| && Matches(users[j], email)
    requires forall i :: 0 <= i < j ==> !Matches(users[i], email)
    ensures FindIndex(users, email) == Some(j)
  {
  }

  /** After `addUser` the new user keeps a fresh, generated id unless the
      caller gave one, and a lookup finds the old match if there was one,
      otherwise the new user when its email matches. */
  lemma AddThenFind(users: seq<User>, nu: NewUser, email: string)
    ensures var u := Created(users, nu);
      Find(users + [u], email) ==
        if Find(users, email).Some? then Find(users, email)
        else if Matches(u, email) then Some(u)
        else None
    ensures nu.id.None? ==> forall j :: 0 <= j < |users| ==> users[j].id != Created(users, nu).id
  {
    var u := Created(users, nu);
    var all := users + [u];
    var i := FindIndex(users, email);
    if i.Some? {
      FindIndexAt(all, email, i.value);
    } else if Matches(u, email) {
      FindIndexAt(all, email, |users|);
    } else {
      assert forall j :: 0 <= j < |all| ==> !Matches(all[j], email) by {
        assert forall j :: 0 <= j < |users| ==> all[j] == users[j];
      }
    }
  }

  /** `updateUser` with no matching user changes nothing and returns null;
      otherwise it changes the first match only and returns the merged user. */
  lemma UpdateFacts(users: seq<User>, email: string, f: Fields)
    ensures Find(users, email).None? ==> Updated(users, email, f) == (users, None)
    ensures Find(users, email).Some? ==>
      var i := FindIndex(users, email).value;
      var (after, r) := Updated(users, email, f);
      && |after| == |users|
      && r == Some(Merge(users[i], f)) && after[i] == r.value
      && forall j :: 0 <= j < |users| && j != i ==> after[j] == users[j]
  {
  }

  /** An update that leaves the email alone is seen by the next lookup. */
  lemma UpdateThenFind(users: seq<User>, email: string, f: Fields)
    requires f.email.None?
    ensures Find(Updated(users, email, f).0, email) == Updated(users, email, f).1
  {
    var i := FindIndex(users, email);
    if i.Some? {
      var after := Updated(users, email, f).0;
      FindIndexAt(after, email, i.value);
    }
  }

  /** Merging no fields changes nothing; merging the same fields twice is
      merging them once. */
  lemma MergeIdentityIdempotent(u: User, f: Fields)
    ensures Merge(u, Fields(None, None, map[])) == u
    ensures Merge(Merge(u, f), f) == Merge(u, f)
  {
    assert u.props + map[] == u.props;
    assert (u.props + f.props) + f.props == u.props + f.props;
  }
}
