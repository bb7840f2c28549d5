/**
 * The demonstration login service: an e-mail is looked up (ignoring case)
 * in the user list, the password is compared with a fixed table, tokens are
 * stored only on success, and every attempt is audited. It also keeps the
 * current user under the storage key `current_user`.
 */
module AuthService {
  import opened Wrappers
  import opened Text
  import opened Domain
  import opened Storage
  import Auth
  import Audit

  /** The demonstration password for each lower-cased e-mail. */
  const DemoPasswords: map<string, string> := map[
    "somchai@student.spu.ac.th" := "Student123!@#",
    "somying@student.spu.ac.th" := "Student123!@#",
    "prayuth@student.spu.ac.th" := "Student123!@#",
    "wichai@spu.ac.th" := "Advisor123!@#",
    "suda@spu.ac.th" := "Advisor123!@#",
    "admin@spu.ac.th" := "Admin123!@#",
    "external@company.com" := "Committee123!@#"
  ]

  /** The one message for an unknown e-mail and for a wrong password alike. */
  const InvalidCredentials := "อีเมลหรือรหัสผ่านไม่ถูกต้อง"

  /** Two hours, in milliseconds. */
  const SessionLifetimeMs := 2 * 60 * 60 * 1000

  const CurrentUserKey := "current_user"

  predicate EmailMatches(u: User, email: string) {
    ToLower(u.email) == ToLower(email)
  }

  /** `users.find(...)`: the position of the first user whose e-mail matches ignoring case. */
  function FindUserIndex(users: seq<User>, email: string): (r: Option<nat>)
    ensures r.Some? ==> r.value < |users| && EmailMatches(users[r.value], email)
    ensures r.Some? ==> forall j | 0 <= j < r.value :: !EmailMatches(users[j], email)
    ensures r.None? ==> forall j | 0 <= j < |users| :: !EmailMatches(users[j], email)
  {
    if users == [] then None
    else if EmailMatches(users[0], email) then Some(0)
    else match FindUserIndex(users[1..], email)
      case None => None
      case Some(k) => Some(k + 1)
  }

  /** `!correctPassword || password !== correctPassword` fails. */
  predicate PasswordAccepted(u: User, password: string) {
    var key := ToLower(u.email);
    key in DemoPasswords && DemoPasswords[key] != "" && password == DemoPasswords[key]
  }

  /** The tokens a successful login stores. */
  function MockTokens(u: User, now: int): (t: Auth.AuthTokens)
    ensures t.expiresAt == now + SessionLifetimeMs
  {
    Auth.AuthTokens("mock_token_" + u.id + "_" + IntToString(now),
                    "mock_refresh_" + u.id + "_" + IntToString(now),
                    now + SessionLifetimeMs)
  }

  datatype LoginResult = LoginResult(success: bool, user: Option<User>, error: Option<string>)

  /** The audit entry one login attempt writes. */
  function LoginAudit(users: seq<User>, email: string, password: string, now: int): (log: Audit.AuditLog)
    ensures FindUserIndex(users, email).None? ==> log.userId == "" && log.userRole == "guest"
    ensures log.success <==> log.action == Audit.Login
  {
    match FindUserIndex(users, email)
    case None =>
      Audit.MakeLog("", "guest", Audit.LoginFailed,
                    Audit.LogOptions(None, None, Some(map["email" := email, "error" := "User not found"]), Some(false)), now)
    case Some(i) =>
      var u := users[i];
      if !PasswordAccepted(u, password) then
        Audit.MakeLog(u.id, RoleName(u.role), Audit.LoginFailed,
                      Audit.LogOptions(None, None, Some(map["email" := email, "error" := "Invalid password"]), Some(false)), now)
      else
        Audit.MakeLog(u.id, RoleName(u.role), Audit.Login,
                      Audit.LogOptions(None, None, Some(map["email" := email]), Some(true)), now)
  }

  /**
   * `login(email, password)` at time `now`. The simulated delay is left out.
   */
  method Login(users: seq<User>, email: string, password: string, now: int,
               ls: LocalStorage, audit: Audit.AuditTrail) returns (result: LoginResult)
    modifies ls, audit
    ensures var i := FindUserIndex(users, email);
            result.success <==> i.Some? && PasswordAccepted(users[i.value], password)
    ensures result.success ==> var i := FindUserIndex(users, email).value;
            result.user == Some(users[i]) && result.error == None &&
            ls.items == Auth.WithTokens(old(ls.items), MockTokens(users[i], now))
    ensures !result.success ==> result == LoginResult(false, None, Some(InvalidCredentials)) && ls.items == old(ls.items)
    ensures audit.auditLogs == old(audit.auditLogs) + [LoginAudit(users, email, password, now)]
    ensures audit.persisted == Audit.KeepNewest(old(audit.persisted) + [LoginAudit(users, email, password, now)])
  {
    var found := FindUserIndex(users, email);
    if found.None? {
      audit.LogAuditEvent("", "guest", Audit.LoginFailed,
                          Audit.LogOptions(None, None, Some(map["email" := email, "error" := "User not found"]), Some(false)), now);
      return LoginResult(false, None, Some(InvalidCredentials));
    }
    var user := users[found.value];
    if !PasswordAccepted(user, password) {
      audit.LogAuditEvent(user.id, RoleName(user.role), Audit.LoginFailed,
                          Audit.LogOptions(None, None, Some(map["email" := email, "error" := "Invalid password"]), Some(false)), now);
      return LoginResult(false, None, Some(InvalidCredentials));
    }
    Auth.StoreTokens(ls, MockTokens(user, now));
    audit.LogAuditEvent(user.id, RoleName(user.role), Audit.Login,
                        Audit.LogOptions(None, None, Some(map["email" := email]), Some(true)), now);
    result := LoginResult(true, Some(user), None);
  }

  /** A successful login leaves a session that is not expired until two hours later. */
  lemma LoginSessionLifetime(items: map<string, string>, u: User, now: int, later: int)
    ensures !Auth.ExpiredIn(Auth.WithTokens(items, MockTokens(u, now)), later) <==> later < now + SessionLifetimeMs
  {
    Auth.StoredTokensReadBack(items, MockTokens(u, now), later);
  }

  // ---------------------------------------------------------------------
  // The stored user. JSON text is modelled by a length-prefixed encoding
  // with the same round-trip property.

  /** One text field: its length in decimal, a colon, then the text. */
  function Field(s: string): string {
    NatToString(|s|) + ":" + s
  }

  /** Reads one field from the front of `s`, returning it and the rest. */
  function ReadField(s: string): Option<(string, string)> {
    var k := DigitPrefixLen(s);
    if k == 0 || k >= |s| || s[k] != ':' then None
    else
      var n := DigitsValue(s[..k]);
      if k + 1 + n > |s| then None else Some((s[k + 1..k + 1 + n], s[k + 1 + n..]))
  }

  lemma ReadFieldOfField(x: string, rest: string)
    ensures ReadField(Field(x) + rest) == Some((x, rest))
  {
    var ds := NatToString(|x|);
    var s := Field(x) + rest;
    assert s == ds + (":" + x + rest);
    DigitPrefixOfDigits(ds, ":" + x + rest);
    assert DigitPrefixLen(":" + x + rest) == 0;
    var k := |ds|;
    assert s[..k] == ds;
    assert s[k] == ':';
    DigitsValueOfNatToString(|x|);
    assert s[k + 1..k + 1 + |x|] == x;
    assert s[k + 1 + |x|..] == rest;
  }

  function AvatarText(avatar: Option<string>): string {
    match avatar
    case None => "N"
    case Some(a) => "S" + Field(a)
  }

  function ReadAvatar(s: string): Option<Option<string>> {
    if s == "N" then Some(None)
    else if |s| > 0 && s[0] == 'S' then
      match ReadField(s[1..])
      case Some((a, rest)) => if rest == "" then Some(Some(a)) else None
      case None => None
    else None
  }

  /** `JSON.stringify(user)`. */
  function EncodeUser(u: User): string {
    Field(u.id) + (Field(u.name) + (Field(u.email) + (Field(RoleName(u.role)) + AvatarText(u.avatar))))
  }

  /** `JSON.parse(text)` for a stored user; `None` for a text that does not parse. */
  function DecodeUser(s: string): Option<User> {
    match ReadField(s)
    case None => None
    case Some((id, s1)) =>
      match ReadField(s1)
      case None => None
      case Some((name, s2)) =>
        match ReadField(s2)
        case None => None
        case Some((email, s3)) =>
          match ReadField(s3)
          case None => None
          case Some((roleName, s4)) =>
            match RoleFromName(roleName)
            case None => None
            case Some(role) =>
              match ReadAvatar(s4)
              case None => None
              case Some(avatar) => Some(User(id, name, email, role, avatar))
  }

  lemma ReadAvatarOfAvatarText(avatar: Option<string>)
    ensures ReadAvatar(AvatarText(avatar)) == Some(avatar)
  {
    if avatar.Some? {
      var t := AvatarText(avatar);
      assert t[1..] == Field(avatar.value) + "";
      ReadFieldOfField(avatar.value, "");
    }
  }

  /** Decoding an encoded user gives the user back. */
  lemma DecodeEncodeUser(u: User)
    ensures DecodeUser(EncodeUser(u)) == Some(u)
  {
    var tail := AvatarText(u.avatar);
    var s3 := Field(RoleName(u.role)) + tail;
    var s2 := Field(u.email) + s3;
    var s1 := Field(u.name) + s2;
    ReadFieldOfField(u.id, s1);
    assert ReadField(EncodeUser(u)) == Some((u.id, s1));
    ReadFieldOfField(u.name, s2);
    ReadFieldOfField(u.email, s3);
    ReadFieldOfField(RoleName(u.role), tail);
    RoleNameRoundTrip(u.role);
    ReadAvatarOfAvatarText(u.avatar);
  }

  method StoreUser(ls: LocalStorage, u: User)
    modifies ls
    ensures ls.items == old(ls.items)[CurrentUserKey := EncodeUser(u)]
  {
    ls.SetItem(CurrentUserKey, EncodeUser(u));
  }

  /** `getCurrentUserFromStorage()`: a missing or empty entry, or one that does not parse, gives `None`. */
  function GetCurrentUserFromStorage(ls: LocalStorage): (r: Option<User>)
    reads ls
    ensures CurrentUserKey !in ls.items ==> r == None
    ensures CurrentUserKey in ls.items && ls.items[CurrentUserKey] == "" ==> r == None
    ensures r == UserIn(ls.items)
  {
    match ls.GetItem(CurrentUserKey)
    case None => None
    case Some(text) => if text == "" then None else DecodeUser(text)
  }

  method ClearUser(ls: LocalStorage)
    modifies ls
    ensures ls.items == old(ls.items) - {CurrentUserKey}
  {
    ls.RemoveItem(CurrentUserKey);
  }

  /** What `getCurrentUserFromStorage` returns for a given store content. */
  function UserIn(items: map<string, string>): Option<User> {
    if CurrentUserKey !in items || items[CurrentUserKey] == "" then None else DecodeUser(items[CurrentUserKey])
  }

  /** `storeUser(u)` then `getCurrentUserFromStorage()` gives `u`; after `clearUser()` it gives `None`. */
  lemma StoredUserRoundTrip(items: map<string, string>, u: User)
    ensures UserIn(items[CurrentUserKey := EncodeUser(u)]) == Some(u)
    ensures UserIn(items - {CurrentUserKey}) == None
  {
    DecodeEncodeUser(u);
  }
}
