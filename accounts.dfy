/**
 * The account flows of AuthService (server/src/auth/auth.service.ts) as a
 * state machine over the user table. The table's own code (UsersService)
 * is not part of this model: its lookups are first matches over the rows,
 * and its writes are the record updates the service's calls name. bcrypt,
 * the random tokens and the clock are parameters: `compare` stands for
 * bcrypt.compare, `hashed` for the hash bcrypt.hash produced, `token` for
 * the random hex string, `now` for the current time in milliseconds.
 */
module Accounts {
  import opened Wrappers
  import opened Text

  /** 24 hours and 1 hour in milliseconds. */
  const DayMs: int := 24 * 60 * 60 * 1000
  const HourMs: int := 60 * 60 * 1000

  /** A user row without its password hash and its e-mail verification token. */
  datatype Account = Account(
    id: nat,
    email: String,
    username: String,
    firstName: String,
    lastName: String,
    avatarUrl: Option<String>,
    provider: Option<String>,
    providerId: Option<String>,
    isEmailVerified: bool,
    verificationExpires: Option<int>,
    resetToken: Option<String>,
    resetExpires: Option<int>)

  /** A user row. */
  datatype User = User(account: Account, passwordHash: Option<String>, verificationToken: Option<String>)

  /** `const { passwordHash, ...result } = user`: the row minus its hash. */
  datatype SafeUser = SafeUser(account: Account, verificationToken: Option<String>)

  function WithoutHash(u: User): SafeUser {
    SafeUser(u.account, u.verificationToken)
  }

  datatype AuthError =
    | UserAlreadyExists
    | InvalidVerificationToken
    | Expired
    | UserNotFound
    | EmailAlreadyVerified
    | InvalidResetToken
    | UniqueViolation  // the insert breaks the username unique constraint

  function Message(e: AuthError): String {
    match e
    case UserAlreadyExists => "User already exists"
    case InvalidVerificationToken => "Invalid verification token"
    case Expired => "expired"
    case UserNotFound => "User not found"
    case EmailAlreadyVerified => "Email already verified"
    case InvalidResetToken => "Invalid or expired reset token"
    case UniqueViolation => "duplicate key value violates unique constraint"
  }

  const EmailVerified: String := "Email verified successfully"
  const VerificationSent: String := "Verification email sent successfully"
  const ResetLinkSent: String := "If that email exists, a password reset link has been sent"
  const PasswordReset: String := "Password reset successfully"

  // ---------------------------------------------------------------- the table

  /** The lookups UsersService offers. */
  datatype Key =
    | ById(id: nat)
    | ByEmail(email: String)
    | ByUsername(username: String)
    | ByProvider(provider: String, providerId: String)
    | ByVerificationToken(token: String)
    | ByResetToken(token: String)

  predicate Matches(u: User, k: Key) {
    match k
    case ById(id) => u.account.id == id
    case ByEmail(e) => u.account.email == e
    case ByUsername(n) => u.account.username == n
    case ByProvider(p, id) => u.account.provider == Some(p) && u.account.providerId == Some(id)
    case ByVerificationToken(t) => u.verificationToken == Some(t)
    case ByResetToken(t) => u.account.resetToken == Some(t)
  }

  /** The index of the first row matching the key. */
  function FirstIndex(users: seq<User>, k: Key): (r: Option<nat>)
    ensures r.Some? ==> r.value < |users| && Matches(users[r.value], k)
                        && forall j | 0 <= j < r.value :: !Matches(users[j], k)
    ensures r.None? <==> forall j | 0 <= j < |users| :: !Matches(users[j], k)
    decreases |users|
  {
    if users == [] then None
    else if Matches(users[0], k) then Some(0)
    else
      match FirstIndex(users[1..], k)
      case None => None
      case Some(i) => Some(i + 1)
  }

  /** Ids, e-mails and usernames are unique, and every id is below the next one. */
  predicate Valid(users: seq<User>, nextId: nat) {
    && (forall i | 0 <= i < |users| :: users[i].account.id < nextId)
    && (forall i, j | 0 <= i < j < |users| ::
          && users[i].account.id != users[j].account.id
          && users[i].account.email != users[j].account.email
          && users[i].account.username != users[j].account.username)
  }

  /** The rows after a call, with the call's result. */
  datatype Outcome<T> = Outcome(result: Result<T, AuthError>, users: seq<User>, nextId: nat)

  /** Replacing a row by one with the same id, e-mail and username keeps the table valid. */
  lemma {:induction false} ReplaceKeepsValid(users: seq<User>, nextId: nat, i: nat, u: User)
    requires i < |users|
    requires u.account.id == users[i].account.id
    requires u.account.email == users[i].account.email
    requires u.account.username == users[i].account.username
    ensures Valid(users, nextId) ==> Valid(users[i := u], nextId)
  {
  }

  /** Appending a row with a fresh id, e-mail and username keeps the table valid. */
  lemma {:induction false} AppendKeepsValid(users: seq<User>, nextId: nat, u: User)
    requires u.account.id == nextId
    requires FirstIndex(users, ByEmail(u.account.email)).None?
    requires FirstIndex(users, ByUsername(u.account.username)).None?
    ensures Valid(users, nextId) ==> Valid(users + [u], nextId + 1)
  {
    if !Valid(users, nextId) { return; }
    var t := users + [u];
    forall i, j | 0 <= i < j < |t|
      ensures t[i].account.id != t[j].account.id
      ensures t[i].account.email != t[j].account.email
      ensures t[i].account.username != t[j].account.username
    {
      if j == |users| {
        assert !Matches(users[i], ByEmail(u.account.email));
        assert !Matches(users[i], ByUsername(u.account.username));
      }
    }
  }

  // ---------------------------------------------------------------- validateLocalUser

  /**
   * validateLocalUser: the first row with that e-mail, minus its hash, when it
   * has a hash that the password matches; otherwise null.
   */
  function ValidateLocalUser(users: seq<User>, email: String, password: String,
                             compare: (String, String) -> bool): (r: Option<SafeUser>)
    ensures r.Some? <==> exists i | 0 <= i < |users| ::
                           && users[i].account.email == email
                           && (forall j | 0 <= j < i :: users[j].account.email != email)
                           && users[i].passwordHash.Some? && users[i].passwordHash.value != []
                           && compare(password, users[i].passwordHash.value)
    ensures r.Some? ==> exists i | 0 <= i < |users| :: users[i].account.email == email && r.value == WithoutHash(users[i])
  {
    match FirstIndex(users, ByEmail(email))
    case None => None
    case Some(i) =>
      var u := users[i];
      if u.passwordHash.Some? && u.passwordHash.value != [] && compare(password, u.passwordHash.value) then Some(WithoutHash(u)) else None
  }

  // ---------------------------------------------------------------- validateOAuthUser

  datatype OAuthData = OAuthData(
    provider: String,
    providerId: String,
    email: String,
    username: String,
    firstName: String,
    lastName: String,
    avatarUrl: Option<String>)

  /** The row createOAuthUser inserts: no password, not verified, no tokens. */
  function OAuthRow(d: OAuthData, id: nat): User {
    User(Account(id, d.email, d.username, d.firstName, d.lastName, d.avatarUrl,
                 Some(d.provider), Some(d.providerId), false, None, None, None),
         None, None)
  }

  /** updateUserProvider: the provider pair is written onto the row. */
  function Linked(u: User, d: OAuthData): User {
    u.(account := u.account.(provider := Some(d.provider), providerId := Some(d.providerId)))
  }

  /**
   * validateOAuthUser: the row already holding this provider id; else the row
   * with that e-mail, linked to the provider; else a new row.
   */
  function ValidateOAuthUser(users: seq<User>, nextId: nat, d: OAuthData): (o: Outcome<SafeUser>)
    ensures Valid(users, nextId) ==> Valid(o.users, o.nextId)
    ensures FirstIndex(users, ByProvider(d.provider, d.providerId)).Some? ==>
              o.users == users && o.result == Ok(WithoutHash(users[FirstIndex(users, ByProvider(d.provider, d.providerId)).value]))
    ensures o.result.Ok? ==> o.result.value.account.provider == Some(d.provider)
                             && o.result.value.account.providerId == Some(d.providerId)
    ensures o.result.Err? ==> o.result.error == UniqueViolation && o.users == users && o.nextId == nextId
    ensures FirstIndex(users, ByProvider(d.provider, d.providerId)).None? && FirstIndex(users, ByEmail(d.email)).Some? ==>
              var i := FirstIndex(users, ByEmail(d.email)).value;
              && o.users == users[i := Linked(users[i], d)] && o.nextId == nextId
              && o.result == Ok(WithoutHash(Linked(users[i], d)))
    ensures o.result.Err? <==>
              && FirstIndex(users, ByProvider(d.provider, d.providerId)).None?
              && FirstIndex(users, ByEmail(d.email)).None?
              && FirstIndex(users, ByUsername(d.username)).Some?
    ensures FirstIndex(users, ByProvider(d.provider, d.providerId)).None? && FirstIndex(users, ByEmail(d.email)).None?
            && o.result.Ok? ==>
              && o.users == users + [OAuthRow(d, nextId)] && o.nextId == nextId + 1
              && o.result == Ok(WithoutHash(OAuthRow(d, nextId)))
  {
    match FirstIndex(users, ByProvider(d.provider, d.providerId))
    case Some(i) => Outcome(Ok(WithoutHash(users[i])), users, nextId)
    case None =>
      match FirstIndex(users, ByEmail(d.email))
      case Some(i) =>
        var u := Linked(users[i], d);
        ReplaceKeepsValid(users, nextId, i, u);
        Outcome(Ok(WithoutHash(u)), users[i := u], nextId)
      case None =>
        if FirstIndex(users, ByUsername(d.username)).Some? then Outcome(Err(UniqueViolation), users, nextId)
        else
          var u := OAuthRow(d, nextId);
          AppendKeepsValid(users, nextId, u);
          Outcome(Ok(WithoutHash(u)), users + [u], nextId + 1)
  }

  /** Signing in again with the same provider identity returns the same user and changes nothing. */
  lemma OAuthIdempotent(users: seq<User>, nextId: nat, d: OAuthData)
    requires ValidateOAuthUser(users, nextId, d).result.Ok?
    ensures var o := ValidateOAuthUser(users, nextId, d);
            ValidateOAuthUser(o.users, o.nextId, d) == Outcome(o.result, o.users, o.nextId)
  {
    var o := ValidateOAuthUser(users, nextId, d);
    var key := ByProvider(d.provider, d.providerId);
    if FirstIndex(users, key).None? {
      match FirstIndex(users, ByEmail(d.email))
      case Some(i) =>
        var u := Linked(users[i], d);
        assert Matches(o.users[i], key);
        forall j | 0 <= j < i ensures !Matches(o.users[j], key) {
          assert o.users[j] == users[j];
        }
        FirstIndexAt(o.users, key, i);
      case None =>
        var n := |users|;
        assert Matches(o.users[n], key);
        forall j | 0 <= j < n ensures !Matches(o.users[j], key) {
          assert o.users[j] == users[j];
        }
        FirstIndexAt(o.users, key, n);
    }
  }

  /** The first match is at i when row i matches and no earlier one does. */
  lemma {:induction false} FirstIndexAt(users: seq<User>, k: Key, i: nat)
    requires i < |users| && Matches(users[i], k)
    requires forall j | 0 <= j < i :: !Matches(users[j], k)
    ensures FirstIndex(users, k) == Some(i)
  {
  }

  // ---------------------------------------------------------------- register

  datatype Registration = Registration(email: String, username: String, firstName: String, lastName: String, password: String)

  /**
   * register: a taken e-mail is refused; otherwise a 'local' row with the
   * hash and a verification token valid for 24 hours is inserted, and the row
   * is returned without hash and token.
   */
  function Register(users: seq<User>, nextId: nat, d: Registration, hashed: String, token: String, now: int)
    : (o: Outcome<Account>)
    ensures Valid(users, nextId) ==> Valid(o.users, o.nextId)
    ensures o.result == Err(UserAlreadyExists) <==> exists i | 0 <= i < |users| :: users[i].account.email == d.email
    ensures o.result == Err(UniqueViolation) <==>
              && (forall i | 0 <= i < |users| :: users[i].account.email != d.email)
              && (exists i | 0 <= i < |users| :: users[i].account.username == d.username)
    ensures o.result.Ok? <==> forall i | 0 <= i < |users| ::
                                users[i].account.email != d.email && users[i].account.username != d.username
    ensures o.result.Err? ==> o.users == users && o.nextId == nextId
    ensures o.result.Ok? ==>
              && o.users == users + [User(o.result.value, Some(hashed), Some(token))]
              && o.nextId == nextId + 1
              && o.result.value.id == nextId
              && o.result.value.username == d.username
              && o.result.value.firstName == d.firstName
              && o.result.value.lastName == d.lastName
              && o.result.value.provider == Some("local")
              && o.result.value.email == d.email
              && o.result.value.verificationExpires == Some(now + DayMs)
              && !o.result.value.isEmailVerified
  {
    if FirstIndex(users, ByEmail(d.email)).Some? then Outcome(Err(UserAlreadyExists), users, nextId)
    else if FirstIndex(users, ByUsername(d.username)).Some? then Outcome(Err(UniqueViolation), users, nextId)
    else
      var account := Account(nextId, d.email, d.username, d.firstName, d.lastName, None,
                             Some("local"), None, false, Some(now + DayMs), None, None);
      var u := User(account, Some(hashed), Some(token));
      AppendKeepsValid(users, nextId, u);
      Outcome(Ok(account), users + [u], nextId + 1)
  }

  /** After registering, the e-mail and password sign in as the new user. */
  lemma RegisterThenSignIn(users: seq<User>, nextId: nat, d: Registration, hashed: String, token: String, now: int,
                           compare: (String, String) -> bool)
    requires Register(users, nextId, d, hashed, token, now).result.Ok?
    requires hashed != [] && compare(d.password, hashed)
    ensures var o := Register(users, nextId, d, hashed, token, now);
            ValidateLocalUser(o.users, d.email, d.password, compare) == Some(SafeUser(o.result.value, Some(token)))
  {
    var o := Register(users, nextId, d, hashed, token, now);
    forall j | 0 <= j < |users| ensures !Matches(o.users[j], ByEmail(d.email)) {
      assert o.users[j] == users[j];
    }
    FirstIndexAt(o.users, ByEmail(d.email), |users|);
  }

  // ---------------------------------------------------------------- verifyEmail

  /** `expires && new Date(expires) < new Date()`: a missing expiry never expires. */
  predicate IsExpired(expires: Option<int>, now: int) {
    expires.Some? && expires.value < now
  }

  /** verifyEmail: an unknown token and an expired one are refused; otherwise the row is marked verified. */
  function VerifyEmail(users: seq<User>, nextId: nat, token: String, now: int): (o: Outcome<String>)
    ensures Valid(users, nextId) ==> Valid(o.users, o.nextId)
    ensures var f := FirstIndex(users, ByVerificationToken(token));
            && (o.result == Err(InvalidVerificationToken) <==> f.None?)
            && (o.result == Err(Expired) <==> f.Some? && IsExpired(users[f.value].account.verificationExpires, now))
            && (o.result.Err? ==> o.users == users)
            && (o.result.Ok? ==>
                  && o.result.value == EmailVerified
                  && o.users == users[f.value := users[f.value].(account := users[f.value].account.(isEmailVerified := true))])
  {
    match FirstIndex(users, ByVerificationToken(token))
    case None => Outcome(Err(InvalidVerificationToken), users, nextId)
    case Some(i) =>
      if IsExpired(users[i].account.verificationExpires, now) then Outcome(Err(Expired), users, nextId)
      else
        var u := users[i].(account := users[i].account.(isEmailVerified := true));
        ReplaceKeepsValid(users, nextId, i, u);
        Outcome(Ok(EmailVerified), users[i := u], nextId)
  }

  /**
   * A fresh registration token verifies the account up to 24 hours later,
   * and is reported expired after that.
   */
  lemma RegisterThenVerify(users: seq<User>, nextId: nat, d: Registration, hashed: String, token: String,
                           now: int, later: int)
    requires Register(users, nextId, d, hashed, token, now).result.Ok?
    requires FirstIndex(users, ByVerificationToken(token)).None?
    ensures var o := Register(users, nextId, d, hashed, token, now);
            var v := VerifyEmail(o.users, o.nextId, token, later);
            && (v.result.Ok? <==> later <= now + DayMs)
            && (v.result.Err? ==> v.result.error == Expired)
            && (v.result.Ok? ==> v.users[|users|].account.isEmailVerified)
  {
    var o := Register(users, nextId, d, hashed, token, now);
    RegisteredTokenFound(users, nextId, d, hashed, token, now);
    VerifyFound(o.users, o.nextId, token, later, |users|);
  }

  /** When row n is the first holding the token, verification succeeds exactly while that row's token is live. */
  lemma VerifyFound(users: seq<User>, nextId: nat, token: String, now: int, n: nat)
    requires FirstIndex(users, ByVerificationToken(token)) == Some(n)
    ensures var v := VerifyEmail(users, nextId, token, now);
            && (v.result.Ok? <==> !IsExpired(users[n].account.verificationExpires, now))
            && (v.result.Err? ==> v.result.error == Expired)
            && (v.result.Ok? ==> v.users[n].account.isEmailVerified)
  {
  }

  /** The new row is the first holding the fresh token, and it expires a day after registering. */
  lemma RegisteredTokenFound(users: seq<User>, nextId: nat, d: Registration, hashed: String, token: String, now: int)
    requires Register(users, nextId, d, hashed, token, now).result.Ok?
    requires FirstIndex(users, ByVerificationToken(token)).None?
    ensures var o := Register(users, nextId, d, hashed, token, now);
            && FirstIndex(o.users, ByVerificationToken(token)) == Some(|users|)
            && o.users[|users|].account.verificationExpires == Some(now + DayMs)
  {
    var o := Register(users, nextId, d, hashed, token, now);
    forall j | 0 <= j < |users| ensures !Matches(o.users[j], ByVerificationToken(token)) {
      assert o.users[j] == users[j];
    }
    FirstIndexAt(o.users, ByVerificationToken(token), |users|);
  }

  // ---------------------------------------------------------------- resendVerificationEmail

  /** resendVerificationEmail: unknown and verified users are refused; otherwise a new 24-hour token is stored. */
  function ResendVerification(users: seq<User>, nextId: nat, email: String, token: String, now: int)
    : (o: Outcome<String>)
    ensures Valid(users, nextId) ==> Valid(o.users, o.nextId)
    ensures var f := FirstIndex(users, ByEmail(email));
            && (o.result == Err(UserNotFound) <==> f.None?)
            && (o.result == Err(EmailAlreadyVerified) <==> f.Some? && users[f.value].account.isEmailVerified)
            && (o.result.Err? ==> o.users == users)
            && (o.result.Ok? ==>
                  && o.result.value == VerificationSent
                  && o.users == users[f.value := users[f.value].(verificationToken := Some(token),
                                                                  account := users[f.value].account.(verificationExpires := Some(now + DayMs)))])
  {
    match FirstIndex(users, ByEmail(email))
    case None => Outcome(Err(UserNotFound), users, nextId)
    case Some(i) =>
      if users[i].account.isEmailVerified then Outcome(Err(EmailAlreadyVerified), users, nextId)
      else
        var u := users[i].(verificationToken := Some(token),
                           account := users[i].account.(verificationExpires := Some(now + DayMs)));
        ReplaceKeepsValid(users, nextId, i, u);
        Outcome(Ok(VerificationSent), users[i := u], nextId)
  }

  // ---------------------------------------------------------------- forgotPassword / resetPassword

  /**
   * forgotPassword: the same message whether or not the e-mail is known; for a
   * known one a reset token valid for one hour is stored.
   */
  function ForgotPassword(users: seq<User>, nextId: nat, email: String, token: String, now: int)
    : (o: Outcome<String>)
    ensures Valid(users, nextId) ==> Valid(o.users, o.nextId)
    ensures o.result == Ok(ResetLinkSent)
    ensures FirstIndex(users, ByEmail(email)).None? ==> o.users == users
    ensures FirstIndex(users, ByEmail(email)).Some? ==>
              var i := FirstIndex(users, ByEmail(email)).value;
              o.users == users[i := users[i].(account := users[i].account.(resetToken := Some(token),
                                                                         resetExpires := Some(now + HourMs)))]
  {
    match FirstIndex(users, ByEmail(email))
    case None => Outcome(Ok(ResetLinkSent), users, nextId)
    case Some(i) =>
      var u := users[i].(account := users[i].account.(resetToken := Some(token), resetExpires := Some(now + HourMs)));
      ReplaceKeepsValid(users, nextId, i, u);
      Outcome(Ok(ResetLinkSent), users[i := u], nextId)
  }

  /**
   * resetPassword: an unknown token and an expired one are refused (a missing
   * expiry is not expired); otherwise the new hash is stored and the reset
   * token cleared.
   */
  function ResetPassword(users: seq<User>, nextId: nat, token: String, hashed: String, now: int)
    : (o: Outcome<String>)
    ensures Valid(users, nextId) ==> Valid(o.users, o.nextId)
    ensures var f := FirstIndex(users, ByResetToken(token));
            && (o.result == Err(InvalidResetToken) <==> f.None?)
            && (o.result == Err(Expired) <==> f.Some? && IsExpired(users[f.value].account.resetExpires, now))
            && (o.result.Err? ==> o.users == users)
            && (o.result.Ok? ==>
                  && o.result.value == PasswordReset
                  && o.users == users[f.value := users[f.value].(passwordHash := Some(hashed),
                                                                  account := users[f.value].account.(resetToken := None, resetExpires := None))])
  {
    match FirstIndex(users, ByResetToken(token))
    case None => Outcome(Err(InvalidResetToken), users, nextId)
    case Some(i) =>
      if IsExpired(users[i].account.resetExpires, now) then Outcome(Err(Expired), users, nextId)
      else
        var u := users[i].(passwordHash := Some(hashed),
                           account := users[i].account.(resetToken := None, resetExpires := None));
        ReplaceKeepsValid(users, nextId, i, u);
        Outcome(Ok(PasswordReset), users[i := u], nextId)
  }

  /**
   * The reset flow: a fresh reset token used within the hour replaces the
   * password, the new password then signs in, and the token cannot be used again.
   */
  lemma ForgotThenReset(users: seq<User>, nextId: nat, email: String, token: String, now: int, later: int,
                        newPassword: String, hashed: String, compare: (String, String) -> bool)
    requires Valid(users, nextId)
    requires FirstIndex(users, ByEmail(email)).Some?
    requires FirstIndex(users, ByResetToken(token)).None?
    requires later <= now + HourMs
    requires hashed != [] && compare(newPassword, hashed)
    ensures var f := ForgotPassword(users, nextId, email, token, now);
            var r := ResetPassword(f.users, f.nextId, token, hashed, later);
            && r.result == Ok(PasswordReset)
            && ValidateLocalUser(r.users, email, newPassword, compare).Some?
            && ResetPassword(r.users, r.nextId, token, hashed, later).result == Err(InvalidResetToken)
  {
    var i := FirstIndex(users, ByEmail(email)).value;
    var f := ForgotPassword(users, nextId, email, token, now);
    forall j | 0 <= j < |users| && j != i ensures !Matches(f.users[j], ByResetToken(token)) {
      assert f.users[j] == users[j];
    }
    FirstIndexAt(f.users, ByResetToken(token), i);
    var r := ResetPassword(f.users, f.nextId, token, hashed, later);
    assert r.users[i].passwordHash == Some(hashed);
    forall j | 0 <= j < i ensures !Matches(r.users[j], ByEmail(email)) {
      assert r.users[j] == users[j];
    }
    FirstIndexAt(r.users, ByEmail(email), i);
    forall j | 0 <= j < |r.users| ensures !Matches(r.users[j], ByResetToken(token)) {
      if j != i {
        assert r.users[j] == users[j];
      }
    }
  }

  // ---------------------------------------------------------------- the store

  /**
   * The user table as the service sees it. Each flow reads with a first-match
   * lookup, then writes one row or appends one.
   */
  class UserStore {
    var users: seq<User>
    var nextId: nat

    constructor ()
      ensures users == [] && nextId == 1 && Valid(users, nextId)
    {
      users := [];
      nextId := 1;
    }

    /** UsersService's row update. */
    method SetUser(i: nat, u: User)
      requires i < |users|
      modifies this
      ensures users == old(users)[i := u] && nextId == old(nextId)
    {
      users := users[i := u];
    }

    /** UsersService's insert; the id comes from the serial column. */
    method Insert(u: User)
      modifies this
      ensures users == old(users) + [u] && nextId == old(nextId) + 1
    {
      users := users + [u];
      nextId := nextId + 1;
    }

    method ValidateOAuth(d: OAuthData) returns (r: Result<SafeUser, AuthError>)
      modifies this
      ensures Outcome(r, users, nextId) == ValidateOAuthUser(old(users), old(nextId), d)
    {
      var byProvider := FirstIndex(users, ByProvider(d.provider, d.providerId));
      if byProvider.Some? {
        return Ok(WithoutHash(users[byProvider.value]));
      }
      var byEmail := FirstIndex(users, ByEmail(d.email));
      if byEmail.Some? {
        var u := Linked(users[byEmail.value], d);
        SetUser(byEmail.value, u);
        return Ok(WithoutHash(u));
      }
      if FirstIndex(users, ByUsername(d.username)).Some? {
        return Err(UniqueViolation);
      }
      var u := OAuthRow(d, nextId);
      Insert(u);
      r := Ok(WithoutHash(u));
    }

    method RegisterUser(d: Registration, hashed: String, token: String, now: int) returns (r: Result<Account, AuthError>)
      modifies this
      ensures Outcome(r, users, nextId) == Register(old(users), old(nextId), d, hashed, token, now)
    {
      var existing := FirstIndex(users, ByEmail(d.email));
      if existing.Some? {
        return Err(UserAlreadyExists);
      }
      if FirstIndex(users, ByUsername(d.username)).Some? {
        return Err(UniqueViolation);
      }
      var account := Account(nextId, d.email, d.username, d.firstName, d.lastName, None,
                             Some("local"), None, false, Some(now + DayMs), None, None);
      Insert(User(account, Some(hashed), Some(token)));
      r := Ok(account);
    }

    method VerifyEmailToken(token: String, now: int) returns (r: Result<String, AuthError>)
      modifies this
      ensures Outcome(r, users, nextId) == VerifyEmail(old(users), old(nextId), token, now)
    {
      var found := FirstIndex(users, ByVerificationToken(token));
      if found.None? {
        return Err(InvalidVerificationToken);
      }
      var i := found.value;
      if IsExpired(users[i].account.verificationExpires, now) {
        return Err(Expired);
      }
      SetUser(i, users[i].(account := users[i].account.(isEmailVerified := true)));
      r := Ok(EmailVerified);
    }

    method Resend(email: String, token: String, now: int) returns (r: Result<String, AuthError>)
      modifies this
      ensures Outcome(r, users, nextId) == ResendVerification(old(users), old(nextId), email, token, now)
    {
      var found := FirstIndex(users, ByEmail(email));
      if found.None? {
        return Err(UserNotFound);
      }
      var i := found.value;
      if users[i].account.isEmailVerified {
        return Err(EmailAlreadyVerified);
      }
      SetUser(i, users[i].(verificationToken := Some(token),
                           account := users[i].account.(verificationExpires := Some(now + DayMs))));
      r := Ok(VerificationSent);
    }

    method Forgot(email: String, token: String, now: int) returns (r: Result<String, AuthError>)
      modifies this
      ensures Outcome(r, users, nextId) == ForgotPassword(old(users), old(nextId), email, token, now)
    {
      var found := FirstIndex(users, ByEmail(email));
      if found.Some? {
        var i := found.value;
        SetUser(i, users[i].(account := users[i].account.(resetToken := Some(token), resetExpires := Some(now + HourMs))));
      }
      r := Ok(ResetLinkSent);
    }

    method Reset(token: String, hashed: String, now: int) returns (r: Result<String, AuthError>)
      modifies this
      ensures Outcome(r, users, nextId) == ResetPassword(old(users), old(nextId), token, hashed, now)
    {
      var found := FirstIndex(users, ByResetToken(token));
      if found.None? {
        return Err(InvalidResetToken);
      }
      var i := found.value;
      if IsExpired(users[i].account.resetExpires, now) {
        return Err(Expired);
      }
      SetUser(i, users[i].(passwordHash := Some(hashed),
                           account := users[i].account.(resetToken := None, resetExpires := None)));
      r := Ok(PasswordReset);
    }
  }
}
