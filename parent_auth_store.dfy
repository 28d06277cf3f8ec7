/** The parent-authentication store: a stored password hash and an
    authenticated flag. The first password ever given becomes the stored
    one; later ones are compared with it. The hash (SHA-256 in hex) is an
    uninterpreted function supplied when the store is created. */
module ParentAuthStore {
  import opened Strings

  /** The persisted fields: `isAuthenticated` and `passwordHash`
      (`string | null`). */
  datatype AuthState = AuthState(isAuthenticated: bool, passwordHash: Option<string>)

  const InitialAuth := AuthState(false, None)

  /** `if (!passwordHash)`: JavaScript treats both null and "" as unset. */
  predicate HasHash(h: Option<string>) {
    h.Some? && h.value != ""
  }

  /** The state after `setPassword`, given the new password's digest. */
  function PasswordSet(s: AuthState, digest: string): (r: AuthState)
    ensures r.isAuthenticated && r.passwordHash == Some(digest)
  {
    AuthState(true, Some(digest))
  }

  datatype AuthResult = AuthResult(state: AuthState, ok: bool)

  /** `authenticate`, given the digest of the password offered. */
  function Attempt(s: AuthState, digest: string): (r: AuthResult)
    ensures !HasHash(s.passwordHash) ==> r.ok && r.state == PasswordSet(s, digest)
    ensures HasHash(s.passwordHash) ==>
              && (r.ok <==> digest == s.passwordHash.value)
              && r.state.passwordHash == s.passwordHash
              && r.state.isAuthenticated == (s.isAuthenticated || r.ok)
  {
    if !HasHash(s.passwordHash) then AuthResult(PasswordSet(s, digest), true)
    else if digest == s.passwordHash.value then AuthResult(s.(isAuthenticated := true), true)
    else AuthResult(s, false)
  }

  /** The state after `logout`. */
  function LoggedOut(s: AuthState): (r: AuthState)
    ensures !r.isAuthenticated && r.passwordHash == s.passwordHash
  {
    s.(isAuthenticated := false)
  }

  /** The store itself, `ParentAuthState` in the source. */
  class ParentAuthState {
    const hash: string -> string
    var isAuthenticated: bool
    var passwordHash: Option<string>

    function Abs(): AuthState
      reads this
    {
      AuthState(isAuthenticated, passwordHash)
    }

    constructor (hash: string -> string)
      ensures this.hash == hash && Abs() == InitialAuth
    {
      this.hash := hash;
      isAuthenticated := false;
      passwordHash := None;
    }

    /** `setPassword`: stores the new hash and authenticates. */
    method SetPassword(password: string)
      modifies this
      ensures Abs() == PasswordSet(old(Abs()), hash(password))
    {
      passwordHash := Some(hash(password));
      isAuthenticated := true;
    }

    /** `authenticate`: with no stored hash, stores this one and succeeds;
        otherwise succeeds iff the hashes are equal. */
    method Authenticate(password: string) returns (ok: bool)
      modifies this
      ensures AuthResult(Abs(), ok) == Attempt(old(Abs()), hash(password))
    {
      if !HasHash(passwordHash) {
        SetPassword(password);
        return true;
      }
      var digest := hash(password);
      ok := digest == passwordHash.value;
      if ok {
        isAuthenticated := true;
      }
    }

    /** `logout`: drops the authenticated flag and keeps the hash. */
    method Logout()
      modifies this
      ensures Abs() == LoggedOut(old(Abs()))
    {
      isAuthenticated := false;
    }
  }

  /** A failed attempt changes neither field. */
  lemma FailedAttemptChangesNothing(s: AuthState, digest: string)
    requires !Attempt(s, digest).ok
    ensures Attempt(s, digest).state == s
  {
  }

  /** The first password sticks: after it is accepted and the parent logs
      out, a later attempt succeeds exactly when its digest is the first
      one's, and a wrong attempt leaves the parent logged out. */
  lemma FirstPasswordSticks(s: AuthState, first: string, later: string)
    requires !HasHash(s.passwordHash) && first != ""
    ensures var out := LoggedOut(Attempt(s, first).state);
            && (Attempt(out, later).ok <==> later == first)
            && (later != first ==> !Attempt(out, later).state.isAuthenticated)
  {
  }

  /** Logging out never changes the outcome of a later attempt. */
  lemma LogoutKeepsOutcome(s: AuthState, digest: string)
    ensures Attempt(LoggedOut(s), digest).ok == Attempt(s, digest).ok
    ensures Attempt(LoggedOut(s), digest).state.passwordHash == Attempt(s, digest).state.passwordHash
  {
  }

  /** `setPassword` replaces whatever was stored: afterwards only the new
      password is accepted. */
  lemma SetPasswordReplaces(s: AuthState, digest: string, attempt: string)
    requires digest != ""
    ensures Attempt(PasswordSet(s, digest), attempt).ok <==> attempt == digest
  {
  }

  /** An accepted attempt leaves the parent authenticated, and repeating it
      changes nothing further. */
  lemma AcceptedIsStable(s: AuthState, digest: string)
    requires Attempt(s, digest).ok && digest != ""
    ensures Attempt(s, digest).state.isAuthenticated
    ensures Attempt(Attempt(s, digest).state, digest) == AuthResult(Attempt(s, digest).state, true)
  {
  }
}
