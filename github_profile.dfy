/**
 * GitHubStrategy (server/src/auth/strategies/github.strategy.ts): the
 * configuration guard and the mapping from a GitHub profile to the fields
 * handed to AuthService.validateOAuthUser. JavaScript's `||` picks its right
 * operand when the left one is falsy; for strings that means undefined or "".
 */
module GithubProfile {
  import opened Wrappers
  import opened Text

  const ConfigError: String := "GitHub OAuth credentials are not properly configured"
  const NoreplyDomain: String := "@users.noreply.github.com"

  /** A string that may be undefined is truthy when present and non-empty. */
  predicate Truthy(s: Option<String>) {
    s.Some? && s.value != []
  }

  /** `a || b` on strings that may be undefined. */
  function Or(a: Option<String>, b: Option<String>): (r: Option<String>)
    ensures Truthy(a) ==> r == a
    ensures !Truthy(a) ==> r == b
  {
    if Truthy(a) then a else b
  }

  datatype Config = Config(clientId: Option<String>, clientSecret: Option<String>, callbackUrl: Option<String>)

  /** The strategy is only built when all three settings are present and non-empty. */
  function CheckConfig(c: Config): (r: Result<Config, String>)
    ensures r.Ok? <==> Truthy(c.clientId) && Truthy(c.clientSecret) && Truthy(c.callbackUrl)
    ensures r.Ok? ==> r.value == c
    ensures r.Err? ==> r.error == ConfigError
  {
    if !Truthy(c.clientId) || !Truthy(c.clientSecret) || !Truthy(c.callbackUrl) then Err(ConfigError)
    else Ok(c)
  }

  /**
   * The parts of a GitHub profile the strategy reads. `emails` and `photos`
   * are the `value` fields of the lists' entries (an absent list is empty).
   */
  datatype Profile = Profile(
    id: String,
    emails: seq<Option<String>>,
    displayName: Option<String>,
    username: Option<String>,
    photos: seq<Option<String>>)

  /** The payload for validateOAuthUser, before it reaches the table. */
  datatype Payload = Payload(
    provider: String,
    providerId: String,
    email: String,
    username: Option<String>,
    firstName: String,
    lastName: String,
    avatarUrl: Option<String>)

  /** `list?.[0]?.value` */
  function FirstValue(values: seq<Option<String>>): Option<String> {
    if values == [] then None else values[0]
  }

  /** A template literal prints an undefined value as "undefined". */
  function Interpolate(s: Option<String>): String {
    if s.Some? then s.value else "undefined"
  }

  /** The e-mail: the first listed one, else a no-reply address made from the username. */
  function EmailOf(p: Profile): (e: String)
    ensures Truthy(FirstValue(p.emails)) ==> e == p.emails[0].value
    ensures !Truthy(FirstValue(p.emails)) ==> EndsWith(e, NoreplyDomain)
  {
    var first := FirstValue(p.emails);
    if Truthy(first) then first.value
    else
      var e := Interpolate(p.username) + NoreplyDomain;
      assert e[|e| - |NoreplyDomain|..] == NoreplyDomain;
      e
  }

  /** `displayName?.split(' ')[0]` */
  function FirstWord(d: Option<String>): Option<String> {
    if d.None? then None else Some(Split(d.value, " ")[0])
  }

  /** `displayName?.split(' ').slice(1).join(' ')` */
  function OtherWords(d: Option<String>): Option<String> {
    if d.None? then None else Some(Join(Split(d.value, " ")[1..], " "))
  }

  /**
   * `validate`: the payload built from the profile. The provider pair is
   * always 'github' and the profile id; the username is the login, else the
   * display name; a hidden e-mail becomes the login's no-reply address (with
   * "undefined" for a missing login); without a display name the first name
   * falls back to the login or ""; the avatar is the first photo when non-empty.
   */
  function PayloadOf(p: Profile): (r: Payload)
    ensures r.provider == "github" && r.providerId == p.id
    ensures Truthy(p.username) ==> r.username == p.username
    ensures !Truthy(p.username) ==> r.username == p.displayName
    ensures Truthy(FirstValue(p.emails)) ==> r.email == p.emails[0].value
    ensures !Truthy(FirstValue(p.emails)) && p.username.Some? ==> r.email == p.username.value + NoreplyDomain
    ensures !Truthy(FirstValue(p.emails)) && p.username.None? ==> r.email == "undefined" + NoreplyDomain
    ensures p.displayName.None? ==> r.firstName == (if Truthy(p.username) then p.username.value else "") && r.lastName == ""
    ensures r.avatarUrl.Some? <==> p.photos != [] && Truthy(p.photos[0])
    ensures r.avatarUrl.Some? ==> r.avatarUrl == p.photos[0]
  {
    var first := Or(FirstWord(p.displayName), p.username);
    var last := OtherWords(p.displayName);
    var avatar := FirstValue(p.photos);
    Payload(
      "github",
      p.id,
      EmailOf(p),
      Or(p.username, p.displayName),
      if Truthy(first) then first.value else "",
      if Truthy(last) then last.value else "",
      if Truthy(avatar) then avatar else None)
  }

  /**
   * A display name with a space splits at the first space: the first name is
   * what comes before it (when non-empty) and the last name all that comes
   * after it, so the two joined by a space give back the display name.
   */
  lemma NameSplitAtFirstSpace(p: Profile, i: nat)
    requires p.displayName.Some?
    requires IndexOf(p.displayName.value, " ") == Some(i)
    requires i > 0 && i + 1 < |p.displayName.value|
    ensures PayloadOf(p).firstName == p.displayName.value[..i]
    ensures PayloadOf(p).lastName == p.displayName.value[i + 1..]
    ensures PayloadOf(p).firstName + " " + PayloadOf(p).lastName == p.displayName.value
  {
    var d := p.displayName.value;
    SplitHead(d, " ");
    SplitTailJoin(d, " ");
    SplitAt(d, " ", i);
    assert |Split(d, " ")[0]| == i;
    assert |Join(Split(d, " ")[1..], " ")| == |d| - i - 1;
  }

  /** A display name without a space is the whole first name, and the last name is empty. */
  lemma SingleWordName(p: Profile)
    requires Truthy(p.displayName)
    requires IndexOf(p.displayName.value, " ").None?
    ensures PayloadOf(p).firstName == p.displayName.value
    ensures PayloadOf(p).lastName == ""
  {
    var d := p.displayName.value;
    SplitHead(d, " ");
    SplitTailJoin(d, " ");
  }
}
