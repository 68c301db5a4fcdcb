/**
 * Password rules on both sides of the wire: the server's password-change
 * service (server/src/userSetting/service/updatePassword.service.ts), the
 * client's form schemas (client/lib/validations/auth.ts) and the server's
 * registration schema (server/src/auth/dto/register.dto.ts). Lengths are
 * JavaScript lengths (UTF-16 code units); bcrypt is a parameter.
 */
module Passwords {
  import opened Wrappers
  import opened Text
  import opened Http
  import Accounts

  type User = Accounts.User

  // ---------------------------------------------------------------- character classes

  /** The server's `/[!@#$%^&*(),.?":{}|<>]/`. */
  const ServerSpecials: String := "!@#$%^&*(),.?\":{}|<>"
  /** The client's and the registration schema's `[@$!%*?&#]`. */
  const ClientSpecials: String := "@$!%*?&#"

  predicate IsServerSpecial(c: char) { c in ServerSpecials }
  predicate IsClientSpecial(c: char) { c in ClientSpecials }

  /** Every special character the client demands is one the server accepts. */
  lemma ClientSpecialIsServerSpecial(c: char)
    ensures IsClientSpecial(c) ==> IsServerSpecial(c)
  {
    if IsClientSpecial(c) {
      assert c in ClientSpecials;
      assert c == '@' || c == '$' || c == '!' || c == '%' || c == '*' || c == '?' || c == '&' || c == '#';
      assert ServerSpecials[1] == '@' && ServerSpecials[3] == '$' && ServerSpecials[0] == '!'
          && ServerSpecials[4] == '%' && ServerSpecials[7] == '*' && ServerSpecials[12] == '?'
          && ServerSpecials[6] == '&' && ServerSpecials[2] == '#';
    }
  }

  // ---------------------------------------------------------------- the server's strength rules

  /** The five validators, in the order updatePassword applies them. */
  datatype Rule = MinLength | Upper | Lower | Number | Special

  /** validateMinLength (with its default 8), validateUpper, validateLower, validateNumber, validateSpecial. */
  predicate Satisfies(p: String, r: Rule) {
    match r
    case MinLength => JsLength(p) >= 8
    case Upper => HasCharWhere(p, IsUpper)
    case Lower => HasCharWhere(p, IsLower)
    case Number => HasCharWhere(p, IsDigit)
    case Special => HasCharWhere(p, IsServerSpecial)
  }

  function Position(r: Rule): nat {
    match r
    case MinLength => 0
    case Upper => 1
    case Lower => 2
    case Number => 3
    case Special => 4
  }

  function RuleMessage(r: Rule): String {
    match r
    case MinLength => "Password must be at least 8 characters long"
    case Upper => "Password must include at least one uppercase letter"
    case Lower => "Password must include at least one lowercase letter"
    case Number => "Password must include at least one number"
    case Special => "Password must include at least one special character"
  }

  predicate Strong(p: String) {
    forall r: Rule :: Satisfies(p, r)
  }

  lemma StrongByCases(p: String)
    requires Satisfies(p, MinLength) && Satisfies(p, Upper) && Satisfies(p, Lower)
    requires Satisfies(p, Number) && Satisfies(p, Special)
    ensures Strong(p)
  {
    forall q: Rule ensures Satisfies(p, q) {
      match q
      case MinLength =>
      case Upper =>
      case Lower =>
      case Number =>
      case Special =>
    }
  }

  /** The first rule the password breaks, in the order the service checks them. */
  function FirstBroken(p: String): (r: Option<Rule>)
    ensures r.None? <==> Strong(p)
    ensures r.Some? ==> !Satisfies(p, r.value)
                        && forall q: Rule :: Position(q) < Position(r.value) ==> Satisfies(p, q)
  {
    if !Satisfies(p, MinLength) then Some(MinLength)
    else if !Satisfies(p, Upper) then Some(Upper)
    else if !Satisfies(p, Lower) then Some(Lower)
    else if !Satisfies(p, Number) then Some(Number)
    else if !Satisfies(p, Special) then Some(Special)
    else
      StrongByCases(p);
      None
  }

  // ---------------------------------------------------------------- updatePassword

  const FieldsRequired: String := "Old password, new password, and confirm password are required"
  const ConfirmMismatch: String := "Confirm password must equal to new password"
  const UserNotFound: String := "User not found"
  const NoLocalPassword: String := "You are not allowed to modify password here"
  const WrongOldPassword: String := "Wrong old password"

  /**
   * The request body. The service reads `old_password`; the DTO class
   * declares `current_password` instead, so both are kept apart here.
   */
  datatype PasswordBody = PasswordBody(
    oldPassword: Option<String>,
    currentPassword: Option<String>,
    newPassword: Option<String>,
    confirmPassword: Option<String>)

  /** A string field that is present and non-empty. */
  predicate Given(s: Option<String>) {
    s.Some? && s.value != []
  }

  predicate AllGiven(b: PasswordBody) {
    Given(b.oldPassword) && Given(b.newPassword) && Given(b.confirmPassword)
  }

  /** `update(users).set({ passwordHash }).where(eq(users.id, id))` */
  function SetPasswordHash(users: seq<User>, id: nat, hashed: String): (r: seq<User>)
    ensures |r| == |users|
    ensures forall i | 0 <= i < |users| ::
              r[i] == if users[i].account.id == id then users[i].(passwordHash := Some(hashed)) else users[i]
  {
    seq(|users|, i requires 0 <= i < |users| =>
      if users[i].account.id == id then users[i].(passwordHash := Some(hashed)) else users[i])
  }

  /** Changing a hash leaves ids, e-mails and usernames as they were. */
  lemma SetPasswordHashKeepsValid(users: seq<User>, nextId: nat, id: nat, hashed: String)
    ensures Accounts.Valid(users, nextId) ==> Accounts.Valid(SetPasswordHash(users, id, hashed), nextId)
  {
  }

  datatype PasswordOutcome = PasswordOutcome(result: Result<bool, HttpError>, users: seq<User>)

  /**
   * updatePassword once the row has been looked up as `found`: the fields,
   * the confirmation, the five rules in order, then the row, its hash and
   * the old password; only when all pass is the new hash written.
   */
  function UpdatePasswordWith(users: seq<User>, userId: nat, b: PasswordBody, found: Option<User>,
                              compare: (String, String) -> bool, hashed: String): (o: PasswordOutcome)
    ensures o.result == Err(BadRequest(FieldsRequired)) <==> !AllGiven(b)
    ensures AllGiven(b) ==> (o.result == Err(Unauthorized(ConfirmMismatch)) <==> b.confirmPassword != b.newPassword)
    ensures AllGiven(b) && b.confirmPassword == b.newPassword && FirstBroken(b.newPassword.value).Some? ==>
              o.result == Err(BadRequest(RuleMessage(FirstBroken(b.newPassword.value).value)))
    ensures AllGiven(b) && b.confirmPassword == b.newPassword && FirstBroken(b.newPassword.value).None? ==>
              && (found.None? ==> o.result == Err(Unauthorized(UserNotFound)))
              && (found.Some? && (found.value.passwordHash.None? || found.value.passwordHash.value == []) ==>
                    o.result == Err(Unauthorized(NoLocalPassword)))
              && (found.Some? && found.value.passwordHash.Some? && found.value.passwordHash.value != []
                  && !compare(b.oldPassword.value, found.value.passwordHash.value) ==>
                    o.result == Err(Unauthorized(WrongOldPassword)))
    ensures o.result.Ok? <==>
              && AllGiven(b) && b.confirmPassword == b.newPassword && Strong(b.newPassword.value)
              && found.Some? && found.value.passwordHash.Some? && found.value.passwordHash.value != []
              && compare(b.oldPassword.value, found.value.passwordHash.value)
    ensures o.result.Ok? ==> o.result.value && o.users == SetPasswordHash(users, userId, hashed)
    ensures o.result.Err? ==> o.users == users
  {
    if !AllGiven(b) then PasswordOutcome(Err(BadRequest(FieldsRequired)), users)
    else if b.confirmPassword != b.newPassword then PasswordOutcome(Err(Unauthorized(ConfirmMismatch)), users)
    else
      match FirstBroken(b.newPassword.value)
      case Some(r) => PasswordOutcome(Err(BadRequest(RuleMessage(r))), users)
      case None =>
        if found.None? then PasswordOutcome(Err(Unauthorized(UserNotFound)), users)
        else if found.value.passwordHash.None? || found.value.passwordHash.value == [] then PasswordOutcome(Err(Unauthorized(NoLocalPassword)), users)
        else if !compare(b.oldPassword.value, found.value.passwordHash.value) then
          PasswordOutcome(Err(Unauthorized(WrongOldPassword)), users)
        else PasswordOutcome(Ok(true), SetPasswordHash(users, userId, hashed))
  }

  /**
   * SettingsRepository.findById as written: the query builder is indexed
   * without being awaited, so `result[0]` is undefined and the call yields null.
   */
  function FindByIdAsWritten(users: seq<User>, id: nat): (r: Option<User>)
    ensures r.None?
  {
    None
  }

  /** findById with the query awaited: the row with that id. */
  function FindById(users: seq<User>, id: nat): (r: Option<User>)
    ensures r.Some? <==> exists i | 0 <= i < |users| :: users[i].account.id == id
    ensures r.Some? ==> r.value.account.id == id && r.value in users
  {
    match Accounts.FirstIndex(users, Accounts.ById(id))
    case None =>
      assert forall i | 0 <= i < |users| :: !Accounts.Matches(users[i], Accounts.ById(id));
      None
    case Some(i) => Some(users[i])
  }

  /** updatePassword as written, over the unawaited lookup. */
  function UpdatePasswordAsWritten(users: seq<User>, userId: nat, b: PasswordBody,
                                   compare: (String, String) -> bool, hashed: String): PasswordOutcome {
    UpdatePasswordWith(users, userId, b, FindByIdAsWritten(users, userId), compare, hashed)
  }

  /** updatePassword with the lookup awaited. */
  function UpdatePassword(users: seq<User>, userId: nat, b: PasswordBody,
                          compare: (String, String) -> bool, hashed: String): PasswordOutcome {
    UpdatePasswordWith(users, userId, b, FindById(users, userId), compare, hashed)
  }

  /**
   * As written, a request that passes every input check is refused with
   * 'User not found', whatever the table holds, and no password ever changes.
   */
  lemma AsWrittenNeverUpdates(users: seq<User>, userId: nat, b: PasswordBody,
                              compare: (String, String) -> bool, hashed: String)
    ensures UpdatePasswordAsWritten(users, userId, b, compare, hashed).result.Err?
    ensures UpdatePasswordAsWritten(users, userId, b, compare, hashed).users == users
    ensures AllGiven(b) && b.confirmPassword == b.newPassword && Strong(b.newPassword.value) ==>
              UpdatePasswordAsWritten(users, userId, b, compare, hashed).result == Err(Unauthorized(UserNotFound))
  {
  }

  /**
   * With the lookup awaited, the owner of a local password who gives the
   * right old password and a strong new one has the new hash stored on
   * their row alone, and signs in with the new password afterwards.
   */
  lemma UpdateThenSignIn(users: seq<User>, nextId: nat, k: nat, b: PasswordBody,
                         compare: (String, String) -> bool, hashed: String)
    requires Accounts.Valid(users, nextId) && k < |users|
    requires users[k].passwordHash.Some? && users[k].passwordHash.value != [] && hashed != []
    requires AllGiven(b) && b.confirmPassword == b.newPassword
    requires Strong(b.newPassword.value)
    requires compare(b.oldPassword.value, users[k].passwordHash.value)
    requires compare(b.newPassword.value, hashed)
    ensures var o := UpdatePassword(users, users[k].account.id, b, compare, hashed);
            && o.result == Ok(true)
            && o.users == users[k := users[k].(passwordHash := Some(hashed))]
            && Accounts.ValidateLocalUser(o.users, users[k].account.email, b.newPassword.value, compare).Some?
  {
    var id := users[k].account.id;
    Accounts.FirstIndexAt(users, Accounts.ById(id), k);
    var o := UpdatePassword(users, id, b, compare, hashed);
    assert o.users == users[k := users[k].(passwordHash := Some(hashed))];
    Accounts.FirstIndexAt(o.users, Accounts.ByEmail(users[k].account.email), k);
  }

  /**
   * A body that names the old password `current_password`, as the DTO
   * declares it, is refused for a missing field.
   */
  lemma CurrentPasswordIgnored(users: seq<User>, userId: nat, current: String, newPassword: String,
                               confirm: String, compare: (String, String) -> bool, hashed: String)
    ensures var b := PasswordBody(None, Some(current), Some(newPassword), Some(confirm));
            UpdatePassword(users, userId, b, compare, hashed).result == Err(BadRequest(FieldsRequired))
  {
  }

  // ---------------------------------------------------------------- the client's schemas

  /** client passwordSchema: 8 to 128 code units, upper, lower, digit and one of @$!%*?&#. */
  predicate ClientPassword(p: String) {
    && 8 <= JsLength(p) <= 128
    && HasCharWhere(p, IsUpper) && HasCharWhere(p, IsLower) && HasCharWhere(p, IsDigit)
    && HasCharWhere(p, IsClientSpecial)
  }

  /** A password the client's form accepts passes all five of the server's change rules. */
  lemma ClientPasswordIsStrong(p: String)
    requires ClientPassword(p)
    ensures Strong(p)
  {
    var i :| 0 <= i < |p| && IsClientSpecial(p[i]);
    ClientSpecialIsServerSpecial(p[i]);
    forall r: Rule ensures Satisfies(p, r) {
      match r
      case MinLength =>
      case Upper =>
      case Lower =>
      case Number =>
      case Special =>
    }
  }

  /** A zod issue: the field it is attached to and its message. */
  datatype Issue = Issue(path: String, message: String)

  /** One check: no message when it holds. */
  function Check(ok: bool, message: String): (r: seq<String>)
    ensures ok <==> r == []
    ensures !ok ==> r == [message]
  {
    if ok then [] else [message]
  }

  /** `z.string().min(lo, ..).max(hi, ..)`: both checks run. */
  function LengthMessages(s: String, lo: nat, hi: nat, tooShort: String, tooLong: String): (r: seq<String>)
    ensures r == [] <==> lo <= JsLength(s) <= hi
  {
    Check(JsLength(s) >= lo, tooShort) + Check(JsLength(s) <= hi, tooLong)
  }

  /** The messages of one field, as issues attached to its path. */
  function At(path: String, messages: seq<String>): (r: seq<Issue>)
    ensures |r| == |messages|
    ensures forall k | 0 <= k < |r| :: r[k] == Issue(path, messages[k])
    ensures forall x | x in r :: x.path == path
  {
    seq(|messages|, k requires 0 <= k < |messages| => Issue(path, messages[k]))
  }

  /** passwordSchema's messages; every check runs. */
  function PasswordMessages(p: String): (r: seq<String>)
    ensures r == [] <==> ClientPassword(p)
  {
    LengthMessages(p, 8, 128, "Password must be at least 8 characters long", "Password must be less than 128 characters")
    + Check(HasCharWhere(p, IsUpper), "Password must contain at least one uppercase letter")
    + Check(HasCharWhere(p, IsLower), "Password must contain at least one lowercase letter")
    + Check(HasCharWhere(p, IsDigit), "Password must contain at least one number")
    + Check(HasCharWhere(p, IsClientSpecial), "Password must contain at least one special character (@$!%*?&#)")
  }

  /** passwordSchema's issues on a field. */
  function PasswordIssues(p: String, path: String): (r: seq<Issue>)
    ensures r == [] <==> ClientPassword(p)
    ensures forall x | x in r :: x.path == path
  {
    At(path, PasswordMessages(p))
  }

  const Mismatch: Issue := Issue("confirmPassword", "Passwords do not match")

  datatype RegisterForm = RegisterForm(
    email: String,
    username: String,
    firstName: String,
    lastName: String,
    password: String,
    confirmPassword: String)

  /** The bounds registerSchema puts on the four profile fields; `isEmail` is zod's e-mail format. */
  predicate ProfileFieldsValid(email: String, username: String, firstName: String, lastName: String,
                               isEmail: String -> bool) {
    && isEmail(email) && JsLength(email) <= 255
    && 1 <= JsLength(username) <= 50
    && 1 <= JsLength(firstName) <= 100
    && 1 <= JsLength(lastName) <= 100
  }

  function ProfileFieldIssues(f: RegisterForm, isEmail: String -> bool): (r: seq<Issue>)
    ensures r == [] <==> ProfileFieldsValid(f.email, f.username, f.firstName, f.lastName, isEmail)
    ensures forall x | x in r :: x.path != Mismatch.path
  {
    ProfilePathsDiffer();
    At("email", Check(isEmail(f.email), "Invalid email address")
                + Check(JsLength(f.email) <= 255, "Email must be less than 255 characters"))
    + At("username", LengthMessages(f.username, 1, 50, "Username is required", "Username must be less than 50 characters"))
    + At("firstName", LengthMessages(f.firstName, 1, 100, "First name is required", "First name must be less than 100 characters"))
    + At("lastName", LengthMessages(f.lastName, 1, 100, "Last name is required", "Last name must be less than 100 characters"))
  }

  /** The refinement's issue when the passwords differ. */
  function Refinement(same: bool): (r: seq<Issue>)
    ensures r == [] <==> same
    ensures Mismatch in r <==> !same
  {
    if same then [] else [Mismatch]
  }

  /** None of the profile fields, nor the password field, is the field the mismatch is attached to. */
  lemma ProfilePathsDiffer()
    ensures forall p | p in ["email", "username", "firstName", "lastName", "password"] :: p != Mismatch.path
  {
    assert Mismatch.path[0] == 'c';
  }

  /**
   * registerSchema's issues: those of every field, then the refinement that
   * the two passwords agree, attached to confirmPassword.
   */
  function RegisterIssues(f: RegisterForm, isEmail: String -> bool): (r: seq<Issue>)
    ensures r == [] <==> && ProfileFieldsValid(f.email, f.username, f.firstName, f.lastName, isEmail)
                         && ClientPassword(f.password) && f.password == f.confirmPassword
    ensures Mismatch in r <==> f.password != f.confirmPassword
  {
    ProfilePathsDiffer();
    var fields := ProfileFieldIssues(f, isEmail) + PasswordIssues(f.password, "password");
    assert Mismatch !in fields;
    fields + Refinement(f.password == f.confirmPassword)
  }

  datatype ResetForm = ResetForm(password: String, confirmPassword: String)

  /** resetPasswordSchema: the same password rules as registration, and the same refinement. */
  function ResetIssues(f: ResetForm): (r: seq<Issue>)
    ensures r == [] <==> ClientPassword(f.password) && f.password == f.confirmPassword
    ensures Mismatch in r <==> f.password != f.confirmPassword
  {
    ProfilePathsDiffer();
    var fields := PasswordIssues(f.password, "password");
    assert Mismatch !in fields;
    fields + Refinement(f.password == f.confirmPassword)
  }

  /** The reset form accepts exactly the passwords the registration form accepts. */
  lemma ResetMatchesRegister(f: RegisterForm, isEmail: String -> bool)
    requires ProfileFieldsValid(f.email, f.username, f.firstName, f.lastName, isEmail)
    ensures RegisterIssues(f, isEmail) == [] <==> ResetIssues(ResetForm(f.password, f.confirmPassword)) == []
  {
  }

  // ---------------------------------------------------------------- the server's registration schema

  predicate NoLineTerminator(s: String) {
    forall i | 0 <= i < |s| :: !IsLineTerminator(s[i])
  }

  /**
   * `(?=.*[X])` at the start of the input: some character of class X is
   * reached by `.*`, which does not cross a line terminator.
   */
  predicate Lookahead(p: String, cls: char -> bool) {
    exists i | 0 <= i < |p| :: cls(p[i]) && NoLineTerminator(p[..i])
  }

  /**
   * `/^(?=.*[a-z])(?=.*[A-Z])(?=.*\d)(?=.*[@$!%*?&#]).{8,}$/`: the four
   * lookaheads, then eight or more code units none of which is a line
   * terminator, up to the end of the input.
   */
  predicate ServerPattern(p: String) {
    && Lookahead(p, IsLower) && Lookahead(p, IsUpper) && Lookahead(p, IsDigit) && Lookahead(p, IsClientSpecial)
    && NoLineTerminator(p) && JsLength(p) >= 8
  }

  /** RegisterDto: the registration fields, without a confirmation. */
  datatype RegisterDto = RegisterDto(email: String, username: String, firstName: String, lastName: String, password: String)

  predicate ServerAccepts(d: RegisterDto, isEmail: String -> bool) {
    && ProfileFieldsValid(d.email, d.username, d.firstName, d.lastName, isEmail)
    && 8 <= JsLength(d.password) <= 128
    && ServerPattern(d.password)
  }

  /** What the form sends: everything but the confirmation. */
  function DtoOf(f: RegisterForm): RegisterDto {
    RegisterDto(f.email, f.username, f.firstName, f.lastName, f.password)
  }

  /** On a line without terminators a lookahead finds exactly the characters a class test finds. */
  lemma LookaheadOnOneLine(p: String, cls: char -> bool)
    requires NoLineTerminator(p)
    ensures Lookahead(p, cls) <==> HasCharWhere(p, cls)
  {
    if HasCharWhere(p, cls) {
      var i :| 0 <= i < |p| && cls(p[i]);
      assert NoLineTerminator(p[..i]);
    }
  }

  /** For passwords without line terminators the server pattern and the client schema agree. */
  lemma ServerPasswordMatchesClient(p: String)
    requires NoLineTerminator(p)
    ensures (8 <= JsLength(p) <= 128 && ServerPattern(p)) <==> ClientPassword(p)
  {
    LookaheadOnOneLine(p, IsLower);
    LookaheadOnOneLine(p, IsUpper);
    LookaheadOnOneLine(p, IsDigit);
    LookaheadOnOneLine(p, IsClientSpecial);
  }

  /**
   * A form the client accepts passes the server schema exactly when its
   * password has no line terminator; any password with one is refused.
   */
  lemma ClientFormReachesServer(f: RegisterForm, isEmail: String -> bool)
    requires RegisterIssues(f, isEmail) == []
    ensures ServerAccepts(DtoOf(f), isEmail) <==> NoLineTerminator(f.password)
  {
    if NoLineTerminator(f.password) {
      ServerPasswordMatchesClient(f.password);
    }
  }

  /** With a line terminator anywhere in it, no password passes the registration schema. */
  lemma LineTerminatorRejected(d: RegisterDto, isEmail: String -> bool, i: nat)
    requires i < |d.password| && IsLineTerminator(d.password[i])
    ensures !ServerAccepts(d, isEmail)
  {
  }

  /** The registration schema accepts exactly what the client's form accepts, on one-line passwords. */
  lemma ServerMatchesClientForm(f: RegisterForm, isEmail: String -> bool)
    requires NoLineTerminator(f.password) && f.password == f.confirmPassword
    ensures ServerAccepts(DtoOf(f), isEmail) <==> RegisterIssues(f, isEmail) == []
  {
    ServerPasswordMatchesClient(f.password);
  }
}
