/** The user store: five fixed accounts (two parents, three children) and
    the one currently logged in. Usernames match case-insensitively. The
    first parent login sets one shared password hash on every parent, and
    later parent logins are compared with the first hashed parent's hash.
    Child logins take no password and make the child's profile active in
    the child store. The hash is an uninterpreted function. */
module UserStore {
  import opened Strings
  import opened Types
  import ChildStore

  datatype UserRole = Parent | ChildRole

  datatype User = User(
    id: string,
    username: string,
    name: string,
    role: UserRole,
    passwordHash: Option<string>,
    assignedChildId: Option<ChildId>)

  /** The hard-coded accounts the store starts with. */
  const InitialUsers: seq<User> := [
    User("user-parent-george", "george", "George", Parent, None, None),
    User("user-parent-teresa", "teresa", "Teresa", Parent, None, None),
    User("user-child-yanthy", "yanthy", "Yanthy", ChildRole, None, Some("child-1")),
    User("user-child-mateo", "mateo", "Mateo", ChildRole, None, Some("child-2")),
    User("user-child-geordan", "geordan", "Geordan", ChildRole, None, Some("child-3"))
  ]

  /** JavaScript truthiness of an optional string: undefined and "" are
      both false. */
  predicate Truthy(s: Option<string>) {
    s.Some? && s.value != ""
  }

  /** `users.find(u => u.username.toLowerCase() === username.toLowerCase())`. */
  function FindUser(users: seq<User>, username: string): (r: Option<User>)
    ensures r.None? <==> forall i :: 0 <= i < |users| ==> Lower(users[i].username) != Lower(username)
    ensures r.Some? ==> exists i :: 0 <= i < |users| && users[i] == r.value
                          && Lower(r.value.username) == Lower(username)
                          && forall j :: 0 <= j < i ==> Lower(users[j].username) != Lower(username)
  {
    if users == [] then None
    else if Lower(users[0].username) == Lower(username) then Some(users[0])
    else
      var r := FindUser(users[1..], username);
      if r.Some? then
        var i :| 0 <= i < |users[1..]| && users[1..][i] == r.value
                 && Lower(r.value.username) == Lower(username)
                 && forall j :: 0 <= j < i ==> Lower(users[1..][j].username) != Lower(username);
        assert users[i + 1] == r.value;
        r
      else
        r
  }

  /** `u.role === 'parent' && u.passwordHash`. */
  predicate IsHashedParent(u: User) {
    u.role == Parent && Truthy(u.passwordHash)
  }

  /** `users.some(u => u.role === 'parent' && u.passwordHash)`. */
  predicate HasPasswordSet(users: seq<User>) {
    exists i :: 0 <= i < |users| && IsHashedParent(users[i])
  }

  /** `users.find(u => u.role === 'parent' && u.passwordHash)`. */
  function FirstHashedParent(users: seq<User>): (r: Option<User>)
    ensures r.None? <==> !HasPasswordSet(users)
    ensures r.Some? ==> IsHashedParent(r.value)
                        && exists i :: 0 <= i < |users| && users[i] == r.value
                             && forall j :: 0 <= j < i ==> !IsHashedParent(users[j])
  {
    if users == [] then None
    else if IsHashedParent(users[0]) then Some(users[0])
    else
      var r := FirstHashedParent(users[1..]);
      if r.Some? then
        var i :| 0 <= i < |users[1..]| && users[1..][i] == r.value
                 && forall j :: 0 <= j < i ==> !IsHashedParent(users[1..][j]);
        assert users[i + 1] == r.value;
        r
      else
        assert forall i :: 1 <= i < |users| ==> users[i] == users[1..][i - 1];
        r
  }

  /** `users.map(u => u.role === 'parent' ? { ...u, passwordHash: hash } : u)`. */
  function WithParentHash(users: seq<User>, hash: string): (r: seq<User>)
    ensures |r| == |users|
    ensures forall i :: 0 <= i < |users| ==>
              r[i] == if users[i].role == Parent then users[i].(passwordHash := Some(hash)) else users[i]
  {
    if users == [] then []
    else
      var u := users[0];
      [if u.role == Parent then u.(passwordHash := Some(hash)) else u] + WithParentHash(users[1..], hash)
  }

  /** The persisted store fields. */
  datatype Session = Session(users: seq<User>, currentUser: Option<User>)

  const InitialSession := Session(InitialUsers, None)

  /** The outcome of `login`: the new store fields, the returned flag, and
      the child id passed to the child store's `selectChild`, if any. */
  datatype LoginResult = LoginResult(session: Session, ok: bool, selects: Option<ChildId>)

  /** `login(username, password)`. */
  function LoginOutcome(s: Session, username: string, password: Option<string>, hash: string -> string): (r: LoginResult)
    ensures !r.ok ==> r.session == s && r.selects.None?
    ensures r.ok ==> r.session.currentUser == FindUser(s.users, username) && r.session.currentUser.Some?
    ensures r.selects.Some? ==> r.ok && r.session.currentUser.value.role == ChildRole
  {
    var u := FindUser(s.users, username);
    if u.None? then LoginResult(s, false, None)
    else if u.value.role == Parent then
      if !Truthy(password) then LoginResult(s, false, None)
      else if !HasPasswordSet(s.users) then
        LoginResult(Session(WithParentHash(s.users, hash(password.value)), u), true, None)
      else
        var parent := FirstHashedParent(s.users);
        if hash(password.value) != parent.value.passwordHash.value then LoginResult(s, false, None)
        else LoginResult(s.(currentUser := u), true, None)
    else
      assert u.value.role == ChildRole;
      LoginResult(s.(currentUser := u), true, if Truthy(u.value.assignedChildId) then u.value.assignedChildId else None)
  }

  /** The store fields after `logout`. */
  function LoggedOut(s: Session): (r: Session)
    ensures r.users == s.users && r.currentUser.None?
  {
    s.(currentUser := None)
  }

  /** `canSwitchChildren`. */
  predicate CanSwitchChildren(current: Option<User>) {
    current.Some? && current.value.role == Parent
  }

  /** `getCurrentChildId`. */
  function CurrentChildId(current: Option<User>): Option<ChildId> {
    if current.Some? && current.value.role == ChildRole then current.value.assignedChildId else None
  }

  /** The store, `UserState` in the source; it drives the child store. */
  class UserState {
    const hash: string -> string
    const childStore: ChildStore.ChildState
    var users: seq<User>
    var currentUser: Option<User>

    function Abs(): Session
      reads this
    {
      Session(users, currentUser)
    }

    constructor (hash: string -> string, childStore: ChildStore.ChildState)
      ensures this.hash == hash && this.childStore == childStore
      ensures Abs() == InitialSession
    {
      this.hash := hash;
      this.childStore := childStore;
      users := InitialUsers;
      currentUser := None;
    }

    /** `login`: updates the store as `LoginOutcome` says and, for a child
        with an assigned profile, selects that profile. */
    method Login(username: string, password: Option<string>) returns (ok: bool)
      modifies this, childStore
      ensures Abs() == LoginOutcome(old(Abs()), username, password, hash).session
      ensures ok == LoginOutcome(old(Abs()), username, password, hash).ok
      ensures childStore.children == old(childStore.children)
      ensures childStore.activeChild ==
                var sel := LoginOutcome(old(Abs()), username, password, hash).selects;
                if sel.Some? then ChildStore.Selected(old(childStore.children), old(childStore.activeChild), sel.value)
                else old(childStore.activeChild)
    {
      var r := LoginOutcome(Abs(), username, password, hash);
      users, currentUser, ok := r.session.users, r.session.currentUser, r.ok;
      if r.selects.Some? {
        childStore.SelectChild(r.selects.value);
      }
    }

    /** `logout`: clears the current user and calls `selectChild('')`. */
    method Logout()
      modifies this, childStore
      ensures Abs() == LoggedOut(old(Abs()))
      ensures childStore.children == old(childStore.children)
      ensures childStore.activeChild == ChildStore.Selected(childStore.children, old(childStore.activeChild), "")
    {
      currentUser := None;
      childStore.SelectChild("");
    }
  }

  /** A username that matches no account, ignoring case, is refused and
      changes nothing. */
  lemma UnknownUserFails(s: Session, username: string, password: Option<string>, hash: string -> string)
    requires forall i :: 0 <= i < |s.users| ==> Lower(s.users[i].username) != Lower(username)
    ensures LoginOutcome(s, username, password, hash) == LoginResult(s, false, None)
  {
  }

  /** A parent login without a password (undefined or empty) is refused. */
  lemma ParentNeedsPassword(s: Session, username: string, password: Option<string>, hash: string -> string)
    requires FindUser(s.users, username).Some? && FindUser(s.users, username).value.role == Parent
    requires !Truthy(password)
    ensures !LoginOutcome(s, username, password, hash).ok
  {
  }

  /** The first parent login succeeds, gives every parent the hash of its
      password, leaves child accounts as they were, and records the
      matched account as it was before the hash was set. */
  lemma FirstParentLogin(s: Session, username: string, password: string, hash: string -> string)
    requires FindUser(s.users, username).Some? && FindUser(s.users, username).value.role == Parent
    requires password != "" && !HasPasswordSet(s.users)
    ensures var r := LoginOutcome(s, username, Some(password), hash);
            && r.ok
            && r.session.currentUser == FindUser(s.users, username)
            && r.session.users == WithParentHash(s.users, hash(password))
            && |r.session.users| == |s.users|
            && (forall i :: 0 <= i < |s.users| && s.users[i].role == Parent ==>
                  r.session.users[i].passwordHash == Some(hash(password)))
            && (forall i :: 0 <= i < |s.users| && s.users[i].role == ChildRole ==>
                  r.session.users[i] == s.users[i])
  {
  }

  /** Setting the shared hash does not change which account a username
      finds: one is found before iff one is found after, with the same
      role. */
  lemma {:induction false} FindUserAfterHash(users: seq<User>, username: string, hash: string)
    ensures FindUser(WithParentHash(users, hash), username).Some? <==> FindUser(users, username).Some?
    ensures FindUser(users, username).Some? ==>
              FindUser(WithParentHash(users, hash), username).value.role == FindUser(users, username).value.role
  {
    if users != [] {
      FindUserAfterHash(users[1..], username, hash);
      assert WithParentHash(users, hash)[1..] == WithParentHash(users[1..], hash);
    }
  }

  /** Once the first parent login has set the shared hash, every parent can
      log in with that password, and a password with a different hash is
      refused for every parent. */
  lemma SharedPassword(s: Session, first: string, other: string, password: string, attempt: string, hash: string -> string)
    requires FindUser(s.users, first).Some? && FindUser(s.users, first).value.role == Parent
    requires FindUser(s.users, other).Some? && FindUser(s.users, other).value.role == Parent
    requires password != "" && attempt != "" && hash(password) != ""
    requires !HasPasswordSet(s.users)
    ensures var s1 := LoginOutcome(s, first, Some(password), hash).session;
            LoginOutcome(LoggedOut(s1), other, Some(attempt), hash).ok <==> hash(attempt) == hash(password)
  {
    var h := hash(password);
    FirstParentLogin(s, first, password, hash);
    var s1 := LoginOutcome(s, first, Some(password), hash).session;
    var k :| 0 <= k < |s.users| && s.users[k] == FindUser(s.users, first).value;
    HashedParentAfterHash(s.users, h, k);
    FindUserAfterHash(s.users, other, h);
    LaterParentLogin(LoggedOut(s1), other, attempt, hash);
  }

  /** After the shared hash is set on a list holding a parent, the first
      hashed parent carries that hash. */
  lemma HashedParentAfterHash(users: seq<User>, hash: string, k: nat)
    requires k < |users| && users[k].role == Parent && hash != ""
    ensures FirstHashedParent(WithParentHash(users, hash)).Some?
    ensures FirstHashedParent(WithParentHash(users, hash)).value.passwordHash == Some(hash)
  {
    var users1 := WithParentHash(users, hash);
    assert IsHashedParent(users1[k]);
    var p := FirstHashedParent(users1);
    var i :| 0 <= i < |users1| && users1[i] == p.value;
  }

  /** Once a hash is set, a parent login succeeds iff the password's hash
      equals the first hashed parent's, whichever parent logs in; a
      refused login changes nothing. */
  lemma LaterParentLogin(s: Session, username: string, password: string, hash: string -> string)
    requires FindUser(s.users, username).Some? && FindUser(s.users, username).value.role == Parent
    requires password != "" && HasPasswordSet(s.users)
    ensures var r := LoginOutcome(s, username, Some(password), hash);
            && (r.ok <==> hash(password) == FirstHashedParent(s.users).value.passwordHash.value)
            && r.session.users == s.users
            && (!r.ok ==> r.session == s)
  {
  }

  /** A child login ignores the password: any two passwords give the same
      outcome, which succeeds and selects the child's assigned profile. */
  lemma ChildIgnoresPassword(s: Session, username: string, p1: Option<string>, p2: Option<string>, hash: string -> string)
    requires FindUser(s.users, username).Some? && FindUser(s.users, username).value.role == ChildRole
    ensures LoginOutcome(s, username, p1, hash) == LoginOutcome(s, username, p2, hash)
    ensures var r := LoginOutcome(s, username, p1, hash);
            && r.ok && r.session.users == s.users
            && (Truthy(FindUser(s.users, username).value.assignedChildId) ==>
                  r.selects == FindUser(s.users, username).value.assignedChildId)
  {
  }

  /** The login outcome depends on the username only up to case. */
  lemma {:induction false} FindUserIgnoresCase(users: seq<User>, n1: string, n2: string)
    requires Lower(n1) == Lower(n2)
    ensures FindUser(users, n1) == FindUser(users, n2)
  {
    if users != [] {
      FindUserIgnoresCase(users[1..], n1, n2);
    }
  }

  lemma LoginIgnoresCase(s: Session, n1: string, n2: string, password: Option<string>, hash: string -> string)
    requires Lower(n1) == Lower(n2)
    ensures LoginOutcome(s, n1, password, hash) == LoginOutcome(s, n2, password, hash)
  {
    FindUserIgnoresCase(s.users, n1, n2);
  }

  /** After a successful login, `canSwitchChildren` holds iff the account
      is a parent's, and `getCurrentChildId` gives a child's assigned
      profile and nothing for a parent; after logout both are off. */
  lemma LoginDecidesQueries(s: Session, username: string, password: Option<string>, hash: string -> string)
    requires LoginOutcome(s, username, password, hash).ok
    ensures var cur := LoginOutcome(s, username, password, hash).session.currentUser;
            && (CanSwitchChildren(cur) <==> FindUser(s.users, username).value.role == Parent)
            && CurrentChildId(cur) == (if FindUser(s.users, username).value.role == ChildRole
                                       then FindUser(s.users, username).value.assignedChildId else None)
            && !CanSwitchChildren(LoggedOut(LoginOutcome(s, username, password, hash).session).currentUser)
            && CurrentChildId(LoggedOut(LoginOutcome(s, username, password, hash).session).currentUser).None?
  {
  }
}
