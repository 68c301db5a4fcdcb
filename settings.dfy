/**
 * The settings services: profile fields and language
 * (server/src/userSetting/service/settings.service.ts), the e-mail change
 * and its confirmation (server/src/userSetting/service/updateMail.service.ts),
 * over the same user rows as the account flows. The repository methods these
 * services call beyond findById, updateEmail and updatePassword are not part
 * of this model; they are taken to do what their names say. The JWT check of
 * a confirmation key is a parameter.
 */
module Settings {
  import opened Wrappers
  import opened Text
  import opened Http
  import Accounts
  import Passwords

  type User = Accounts.User

  const UsernameTaken: String := "This username already exists"
  const ProfileUpdated: String := "Profile updated successfully"
  const LanguageNotFound: String := "Language not found"
  const LanguageUpdated: String := "Language updated successfully"
  const EmailInUse: String := "Email already in use"
  const InvalidKey: String := "Invalid or expired key"
  const DuplicateKey: String := "duplicate key value violates unique constraint"

  /** A string field that is present and non-empty (truthy). */
  predicate Given(s: Option<String>) {
    s.Some? && s.value != []
  }

  /** Some row other than the user's own holds this username. */
  predicate UsernameHeldByOther(users: seq<User>, id: nat, name: String) {
    exists i | 0 <= i < |users| :: users[i].account.id != id && users[i].account.username == name
  }

  /** Some row other than the user's own holds this e-mail. */
  predicate EmailHeldByOther(users: seq<User>, id: nat, email: String) {
    exists i | 0 <= i < |users| :: users[i].account.id != id && users[i].account.email == email
  }

  /** Under the table invariant the first row holding a username is the only one. */
  lemma FirstHolderIsOnly(users: seq<User>, nextId: nat, id: nat, name: String)
    requires Accounts.Valid(users, nextId)
    ensures UsernameHeldByOther(users, id, name) <==>
              match Accounts.FirstIndex(users, Accounts.ByUsername(name))
              case None => false
              case Some(i) => users[i].account.id != id
  {
  }

  // ---------------------------------------------------------------- updateProfileSettings

  /** The fields of ProfileSettingsDto; an absent one is undefined. */
  datatype ProfileDto = ProfileDto(
    username: Option<String>,
    firstName: Option<String>,
    lastName: Option<String>,
    avatarUrl: Option<String>)

  /** `Object.keys(updateData).length > 0` */
  predicate AnyField(d: ProfileDto) {
    d.username.Some? || d.firstName.Some? || d.lastName.Some? || d.avatarUrl.Some?
  }

  /** The row with the defined fields written over it; empty strings are written too. */
  function ApplyProfile(u: User, d: ProfileDto): (r: User)
    ensures r.account.id == u.account.id && r.account.email == u.account.email
    ensures r.account.username == (if d.username.Some? then d.username.value else u.account.username)
    ensures r.account.firstName == (if d.firstName.Some? then d.firstName.value else u.account.firstName)
    ensures r.account.lastName == (if d.lastName.Some? then d.lastName.value else u.account.lastName)
    ensures r.account.avatarUrl == (if d.avatarUrl.Some? then d.avatarUrl else u.account.avatarUrl)
    ensures r.passwordHash == u.passwordHash
  {
    var a := u.account;
    var a1 := if d.username.Some? then a.(username := d.username.value) else a;
    var a2 := if d.firstName.Some? then a1.(firstName := d.firstName.value) else a1;
    var a3 := if d.lastName.Some? then a2.(lastName := d.lastName.value) else a2;
    var a4 := if d.avatarUrl.Some? then a3.(avatarUrl := d.avatarUrl) else a3;
    u.(account := a4)
  }

  /** `update(users).set(updateData).where(eq(users.id, id))` */
  function SetProfile(users: seq<User>, id: nat, d: ProfileDto): (r: seq<User>)
    ensures |r| == |users|
    ensures forall i | 0 <= i < |users| :: r[i] == if users[i].account.id == id then ApplyProfile(users[i], d) else users[i]
  {
    seq(|users|, i requires 0 <= i < |users| => if users[i].account.id == id then ApplyProfile(users[i], d) else users[i])
  }

  /** What updateProfileSettings answers: the fields it wrote, or the fixed message. */
  datatype ProfileReply = Written(data: ProfileDto) | Done(message: String)

  datatype Outcome<T> = Outcome(result: Result<T, HttpError>, users: seq<User>)

  /**
   * updateProfileSettings. A truthy username held by another user is
   * refused before anything is written. The defined fields are then written;
   * the table's unique constraint refuses a username another row holds (only
   * an empty one gets past the check). `updated` is the truthiness of what
   * the repository's write returns.
   */
  function UpdateProfileSettings(users: seq<User>, nextId: nat, id: nat, d: ProfileDto, updated: bool)
    : (o: Outcome<ProfileReply>)
    ensures Accounts.Valid(users, nextId) ==> Accounts.Valid(o.users, nextId)
    ensures Accounts.Valid(users, nextId) ==>
              (o.result == Err(BadRequest(UsernameTaken)) <==> Given(d.username) && UsernameHeldByOther(users, id, d.username.value))
    ensures o.result.Ok? <==> !(d.username.Some? && UsernameHeldByOther(users, id, d.username.value))
    ensures o.result.Err? ==> o.users == users
    ensures !AnyField(d) ==> o == Outcome(Ok(Done(ProfileUpdated)), users)
    ensures o.result.Ok? && AnyField(d) ==> o.users == SetProfile(users, id, d)
    ensures o.result.Ok? ==> (o.result.value.Written? <==> AnyField(d) && updated)
    ensures o.result.Ok? && o.result.value.Written? ==> o.result.value.data == d
  {
    if Given(d.username) && Accounts.FirstIndex(users, Accounts.ByUsername(d.username.value)).Some?
       && users[Accounts.FirstIndex(users, Accounts.ByUsername(d.username.value)).value].account.id != id then
      Outcome(Err(BadRequest(UsernameTaken)), users)
    else if !AnyField(d) then Outcome(Ok(Done(ProfileUpdated)), users)
    else if d.username.Some? && UsernameHeldByOther(users, id, d.username.value) then
      Outcome(Err(InternalServerError(DuplicateKey)), users)
    else
      SetProfileKeepsValid(users, nextId, id, d);
      Outcome(Ok(if updated then Written(d) else Done(ProfileUpdated)), SetProfile(users, id, d))
  }

  lemma SetProfileKeepsValid(users: seq<User>, nextId: nat, id: nat, d: ProfileDto)
    requires d.username.Some? ==> !UsernameHeldByOther(users, id, d.username.value)
    ensures Accounts.Valid(users, nextId) ==> Accounts.Valid(SetProfile(users, id, d), nextId)
  {
    if Accounts.Valid(users, nextId) {
      var r := SetProfile(users, id, d);
      forall i, j | 0 <= i < j < |r| ensures r[i].account.username != r[j].account.username {
        if d.username.Some? && users[i].account.id == id {
          assert !(users[j].account.id != id && users[j].account.username == d.username.value);
        }
        if d.username.Some? && users[j].account.id == id {
          assert !(users[i].account.id != id && users[i].account.username == d.username.value);
        }
      }
    }
  }

  /**
   * The uniqueness check only looks at truthy usernames: the database's
   * constraint is reached only by an empty one.
   */
  lemma OnlyEmptyUsernameReachesConstraint(users: seq<User>, nextId: nat, id: nat, d: ProfileDto, updated: bool)
    requires Accounts.Valid(users, nextId)
    requires UpdateProfileSettings(users, nextId, id, d, updated).result == Err(InternalServerError(DuplicateKey))
    ensures d.username == Some([])
  {
    if d.username.Some? {
      FirstHolderIsOnly(users, nextId, id, d.username.value);
    }
  }

  /** A user may keep their own username: with no other holder nothing is refused. */
  lemma KeepingOwnUsername(users: seq<User>, nextId: nat, k: nat, d: ProfileDto, updated: bool)
    requires Accounts.Valid(users, nextId) && k < |users|
    requires d.username == Some(users[k].account.username)
    ensures UpdateProfileSettings(users, nextId, users[k].account.id, d, updated).result.Ok?
  {
    FirstHolderIsOnly(users, nextId, users[k].account.id, users[k].account.username);
  }

  // ---------------------------------------------------------------- updateLanguage

  /**
   * updateLanguage: nothing happens and nothing is returned without a
   * language code; a failing write becomes NotFound. `writeFails` says
   * whether the repository's write throws.
   */
  function UpdateLanguage(languageCode: Option<String>, writeFails: bool): (r: Result<Option<String>, HttpError>)
    ensures languageCode.None? ==> r == Ok(None)
    ensures languageCode.Some? ==> (r.Err? <==> writeFails)
    ensures r.Err? ==> r.error == NotFound(LanguageNotFound)
    ensures languageCode.Some? && r.Ok? ==> r.value == Some(LanguageUpdated)
  {
    if languageCode.None? then Ok(None)
    else if writeFails then Err(NotFound(LanguageNotFound))
    else Ok(Some(LanguageUpdated))
  }

  // ---------------------------------------------------------------- updateEmailSettings

  /** `update(users).set({ email }).where(eq(users.id, id))` */
  function SetEmail(users: seq<User>, id: nat, email: String): (r: seq<User>)
    ensures |r| == |users|
    ensures forall i | 0 <= i < |users| ::
              r[i] == if users[i].account.id == id then users[i].(account := users[i].account.(email := email)) else users[i]
  {
    seq(|users|, i requires 0 <= i < |users| =>
      if users[i].account.id == id then users[i].(account := users[i].account.(email := email)) else users[i])
  }

  lemma SetEmailKeepsValid(users: seq<User>, nextId: nat, id: nat, email: String)
    requires !EmailHeldByOther(users, id, email)
    ensures Accounts.Valid(users, nextId) ==> Accounts.Valid(SetEmail(users, id, email), nextId)
  {
    if Accounts.Valid(users, nextId) {
      var r := SetEmail(users, id, email);
      forall i, j | 0 <= i < j < |r| ensures r[i].account.email != r[j].account.email {
        if users[i].account.id == id {
          assert !(users[j].account.id != id && users[j].account.email == email);
        }
        if users[j].account.id == id {
          assert !(users[i].account.id != id && users[i].account.email == email);
        }
      }
    }
  }

  /** Under the table invariant the first row holding an e-mail is the only one. */
  lemma FirstEmailHolderIsOnly(users: seq<User>, nextId: nat, id: nat, email: String)
    requires Accounts.Valid(users, nextId)
    ensures EmailHeldByOther(users, id, email) <==>
              match Accounts.FirstIndex(users, Accounts.ByEmail(email))
              case None => false
              case Some(i) => users[i].account.id != id
  {
  }

  /**
   * updateEmailSettings: a truthy e-mail held by another user is refused;
   * otherwise it is written on the user's row. Without one nothing is looked
   * up or written. The reply echoes the e-mail.
   */
  function UpdateEmailSettings(users: seq<User>, nextId: nat, userId: nat, email: Option<String>)
    : (o: Outcome<Option<String>>)
    ensures Accounts.Valid(users, nextId) ==> Accounts.Valid(o.users, nextId)
    ensures Accounts.Valid(users, nextId) ==>
              (o.result == Err(BadRequest(EmailInUse)) <==> Given(email) && EmailHeldByOther(users, userId, email.value))
    ensures Accounts.Valid(users, nextId) ==> o.result.Err? ==> o.result == Err(BadRequest(EmailInUse))
    ensures o.result.Err? ==> o.users == users
    ensures o.result.Ok? ==> o.result.value == email
    ensures o.result.Ok? ==> o.users == if Given(email) then SetEmail(users, userId, email.value) else users
  {
    if !Given(email) then Outcome(Ok(email), users)
    else
      var holder := Accounts.FirstIndex(users, Accounts.ByEmail(email.value));
      if holder.Some? && users[holder.value].account.id != userId then Outcome(Err(BadRequest(EmailInUse)), users)
      else if EmailHeldByOther(users, userId, email.value) then Outcome(Err(InternalServerError(DuplicateKey)), users)
      else
        SetEmailKeepsValid(users, nextId, userId, email.value);
        Outcome(Ok(email), SetEmail(users, userId, email.value))
  }

  /** Under the table invariant the check is exact: the constraint is never what refuses an e-mail. */
  lemma EmailCheckIsExact(users: seq<User>, nextId: nat, userId: nat, email: String)
    requires Accounts.Valid(users, nextId)
    ensures UpdateEmailSettings(users, nextId, userId, Some(email)).result != Err(InternalServerError(DuplicateKey))
  {
    FirstEmailHolderIsOnly(users, nextId, userId, email);
  }

  // ---------------------------------------------------------------- verifyUpdateMail

  /** A row of user_mail_tokens: one pending key per user id. */
  datatype MailToken = MailToken(id: nat, token: String)

  /** The claims of a key that passes the JWT check. */
  datatype MailClaims = MailClaims(email: String, id: nat)

  datatype MailState = MailState(users: seq<User>, tokens: seq<MailToken>)

  /** `delete(mailTokens).where(eq(mailTokens.id, id))` */
  function DeleteTokens(tokens: seq<MailToken>, id: nat): (r: seq<MailToken>)
    ensures forall k | 0 <= k < |r| :: r[k].id != id && r[k] in tokens
    ensures forall k | 0 <= k < |tokens| :: tokens[k].id != id ==> tokens[k] in r
  {
    if tokens == [] then []
    else if tokens[0].id == id then DeleteTokens(tokens[1..], id)
    else [tokens[0]] + DeleteTokens(tokens[1..], id)
  }

  predicate Saved(tokens: seq<MailToken>, id: nat, key: String) {
    MailToken(id, key) in tokens
  }

  /**
   * verifyUpdateMail as written. A key that fails the JWT check is refused.
   * The token lookup is not awaited, so the guard tests a Promise, which is
   * always truthy: a verified key is never refused. The two writes are not
   * awaited either: the e-mail is written unless the unique constraint
   * rejects it (that rejection is never caught), and the user's tokens are
   * deleted.
   */
  function VerifyUpdateMailAsWritten(s: MailState, key: String, claims: Option<MailClaims>)
    : (r: (Result<(), HttpError>, MailState))
    ensures claims.None? ==> r == (Err(Unauthorized(InvalidKey)), s)
    ensures claims.Some? ==> r.0.Ok?
  {
    match claims
    case None => (Err(Unauthorized(InvalidKey)), s)
    case Some(c) =>
      var users := if EmailHeldByOther(s.users, c.id, c.email) then s.users else SetEmail(s.users, c.id, c.email);
      (Ok(()), MailState(users, DeleteTokens(s.tokens, c.id)))
  }

  /**
   * verifyUpdateMail with the lookup and the writes awaited and the lookup
   * checked for a row: the key must be the one saved for that user, and every failure, the unique constraint's
   * included, becomes the same Unauthorized reply.
   */
  function VerifyUpdateMail(s: MailState, key: String, claims: Option<MailClaims>)
    : (r: (Result<(), HttpError>, MailState))
    ensures r.0.Ok? <==> claims.Some? && Saved(s.tokens, claims.value.id, key)
                         && !EmailHeldByOther(s.users, claims.value.id, claims.value.email)
    ensures r.0.Err? ==> r == (Err(Unauthorized(InvalidKey)), s)
    ensures r.0.Ok? ==> r.1.users == SetEmail(s.users, claims.value.id, claims.value.email)
                        && r.1.tokens == DeleteTokens(s.tokens, claims.value.id)
                        && !Saved(r.1.tokens, claims.value.id, key)
  {
    match claims
    case None => (Err(Unauthorized(InvalidKey)), s)
    case Some(c) =>
      if !Saved(s.tokens, c.id, key) || EmailHeldByOther(s.users, c.id, c.email) then (Err(Unauthorized(InvalidKey)), s)
      else
        var rest := DeleteTokens(s.tokens, c.id);
        (Ok(()), MailState(SetEmail(s.users, c.id, c.email), rest))
  }

  /**
   * As written, a key that passes the JWT check but was never saved (or was
   * already used) still changes the e-mail; with the lookup awaited it is refused.
   */
  lemma UnsavedKeyAccepted(s: MailState, key: String, c: MailClaims)
    requires !Saved(s.tokens, c.id, key)
    requires !EmailHeldByOther(s.users, c.id, c.email)
    ensures VerifyUpdateMailAsWritten(s, key, Some(c)).0.Ok?
    ensures VerifyUpdateMailAsWritten(s, key, Some(c)).1.users == SetEmail(s.users, c.id, c.email)
    ensures VerifyUpdateMail(s, key, Some(c)) == (Err(Unauthorized(InvalidKey)), s)
  {
  }

  /** A confirmation key works once: after it has been used, the same key is refused. */
  lemma KeyUsedOnce(s: MailState, key: String, c: MailClaims)
    requires VerifyUpdateMail(s, key, Some(c)).0.Ok?
    ensures var t := VerifyUpdateMail(s, key, Some(c)).1;
            VerifyUpdateMail(t, key, Some(c)).0.Err?
  {
  }

  // ---------------------------------------------------------------- the settings store

  /**
   * The rows the settings services write, and the pending e-mail keys. Each
   * method does the service's checks and then its one write.
   */
  class SettingsStore {
    var users: seq<User>
    var nextId: nat
    var tokens: seq<MailToken>

    ghost predicate Valid()
      reads this
    {
      Accounts.Valid(users, nextId)
    }

    constructor (users0: seq<User>, nextId0: nat, tokens0: seq<MailToken>)
      requires Accounts.Valid(users0, nextId0)
      ensures Valid() && users == users0 && nextId == nextId0 && tokens == tokens0
    {
      users := users0;
      nextId := nextId0;
      tokens := tokens0;
    }

    /** updateProfileSettings: the uniqueness check, updateData built field by field, one write. */
    method SaveProfileSettings(id: nat, dto: ProfileDto, updated: bool) returns (r: Result<ProfileReply, HttpError>)
      requires Valid()
      modifies this
      ensures Valid() && nextId == old(nextId) && tokens == old(tokens)
      ensures Outcome(r, users) == UpdateProfileSettings(old(users), old(nextId), id, dto, updated)
    {
      if Given(dto.username) {
        var holder := Accounts.FirstIndex(users, Accounts.ByUsername(dto.username.value));
        if holder.Some? && users[holder.value].account.id != id {
          return Err(BadRequest(UsernameTaken));
        }
      }
      var data := ProfileDto(None, None, None, None);
      if dto.firstName.Some? { data := data.(firstName := dto.firstName); }
      if dto.lastName.Some? { data := data.(lastName := dto.lastName); }
      if dto.username.Some? { data := data.(username := dto.username); }
      if dto.avatarUrl.Some? { data := data.(avatarUrl := dto.avatarUrl); }
      assert data == dto;
      if AnyField(data) {
        if data.username.Some? && UsernameHeldByOther(users, id, data.username.value) {
          return Err(InternalServerError(DuplicateKey));
        }
        SetProfileKeepsValid(users, nextId, id, data);
        users := SetProfile(users, id, data);
        if updated {
          return Ok(Written(data));
        }
      }
      r := Ok(Done(ProfileUpdated));
    }

    /** updateEmailSettings: the uniqueness check, then one write. */
    method SaveEmailSettings(userId: nat, email: Option<String>) returns (r: Result<Option<String>, HttpError>)
      requires Valid()
      modifies this
      ensures Valid() && nextId == old(nextId) && tokens == old(tokens)
      ensures Outcome(r, users) == UpdateEmailSettings(old(users), old(nextId), userId, email)
    {
      if Given(email) {
        var holder := Accounts.FirstIndex(users, Accounts.ByEmail(email.value));
        if holder.Some? && users[holder.value].account.id != userId {
          return Err(BadRequest(EmailInUse));
        }
        if EmailHeldByOther(users, userId, email.value) {
          return Err(InternalServerError(DuplicateKey));
        }
        SetEmailKeepsValid(users, nextId, userId, email.value);
        users := SetEmail(users, userId, email.value);
      }
      r := Ok(email);
    }

    /** verifyUpdateMail with the lookup awaited: check the saved key, write the e-mail, delete the key. */
    method ConfirmMail(key: String, claims: Option<MailClaims>) returns (r: Result<(), HttpError>)
      requires Valid()
      modifies this
      ensures Valid() && nextId == old(nextId)
      ensures (r, MailState(users, tokens)) == VerifyUpdateMail(MailState(old(users), old(tokens)), key, claims)
    {
      if claims.None? {
        return Err(Unauthorized(InvalidKey));
      }
      var c := claims.value;
      if !Saved(tokens, c.id, key) || EmailHeldByOther(users, c.id, c.email) {
        return Err(Unauthorized(InvalidKey));
      }
      SetEmailKeepsValid(users, nextId, c.id, c.email);
      users := SetEmail(users, c.id, c.email);
      tokens := DeleteTokens(tokens, c.id);
      r := Ok(());
    }

    /** updatePassword with the lookup awaited: the guard chain, then one write. */
    method SavePassword(userId: nat, b: Passwords.PasswordBody, compare: (String, String) -> bool, hashed: String)
      returns (r: Result<bool, HttpError>)
      requires Valid()
      modifies this
      ensures Valid() && nextId == old(nextId) && tokens == old(tokens)
      ensures Passwords.PasswordOutcome(r, users) == Passwords.UpdatePassword(old(users), userId, b, compare, hashed)
    {
      if !Passwords.AllGiven(b) {
        return Err(BadRequest(Passwords.FieldsRequired));
      }
      if b.confirmPassword != b.newPassword {
        return Err(Unauthorized(Passwords.ConfirmMismatch));
      }
      var broken := Passwords.FirstBroken(b.newPassword.value);
      if broken.Some? {
        return Err(BadRequest(Passwords.RuleMessage(broken.value)));
      }
      var user := Passwords.FindById(users, userId);
      if user.None? {
        return Err(Unauthorized(Passwords.UserNotFound));
      }
      if user.value.passwordHash.None? || user.value.passwordHash.value == [] {
        return Err(Unauthorized(Passwords.NoLocalPassword));
      }
      if !compare(b.oldPassword.value, user.value.passwordHash.value) {
        return Err(Unauthorized(Passwords.WrongOldPassword));
      }
      Passwords.SetPasswordHashKeepsValid(users, nextId, userId, hashed);
      users := Passwords.SetPasswordHash(users, userId, hashed);
      r := Ok(true);
    }
  }
}
