/**
 * Access rules and the client-side token store: three keys of the browser's
 * local storage hold the access token, the refresh token and the expiry time
 * (printed as a decimal number).
 */
module Auth {
  import opened Wrappers
  import opened Text
  import opened Storage

  const AccessTokenKey := "access_token"
  const RefreshTokenKey := "refresh_token"
  const TokenExpiryKey := "token_expiry"

  function TokenKeys(): set<string> {
    {AccessTokenKey, RefreshTokenKey, TokenExpiryKey}
  }

  datatype AuthTokens = AuthTokens(accessToken: string, refreshToken: string, expiresAt: int)

  /** The payload of a token; how a token is decoded into it is a parameter of the model. */
  datatype DecodedToken = DecodedToken(userId: string, role: string, email: string, exp: int, iat: int)

  // ---------------------------------------------------------------------
  // The storage contents each token operation produces

  /** The store after `storeTokens(t)`. */
  function WithTokens(items: map<string, string>, t: AuthTokens): map<string, string> {
    items[AccessTokenKey := t.accessToken][RefreshTokenKey := t.refreshToken][TokenExpiryKey := IntToString(t.expiresAt)]
  }

  /** The store after `clearTokens()`. */
  function WithoutTokens(items: map<string, string>): map<string, string> {
    items - TokenKeys()
  }

  function Lookup(items: map<string, string>, key: string): Option<string> {
    if key in items then Some(items[key]) else None
  }

  /**
   * `isTokenExpired()` over a store: a missing or empty expiry counts as
   * expired; otherwise the expiry is read with `parseInt`, and a text that
   * holds no number gives `NaN`, against which `now >= NaN` is false, so
   * such a token never expires.
   */
  predicate ExpiredIn(items: map<string, string>, now: int) {
    if TokenExpiryKey !in items || items[TokenExpiryKey] == "" then true
    else match ParseInt(items[TokenExpiryKey])
      case None => false
      case Some(expiry) => now >= expiry
  }

  /** `!token`: a missing or empty access token. */
  predicate NoAccessToken(items: map<string, string>) {
    AccessTokenKey !in items || items[AccessTokenKey] == ""
  }

  /** The user `getCurrentUser()` returns for a store. */
  function CurrentUserIn(items: map<string, string>, now: int, decode: string -> Option<DecodedToken>): (u: Option<DecodedToken>)
    ensures NoAccessToken(items) ==> u == None
    ensures ExpiredIn(items, now) ==> u == None
    ensures !NoAccessToken(items) && !ExpiredIn(items, now) ==> u == decode(items[AccessTokenKey])
  {
    if NoAccessToken(items) then None
    else if ExpiredIn(items, now) then None
    else decode(items[AccessTokenKey])
  }

  /** The store after `getCurrentUser()`: it clears the tokens when it finds them expired. */
  function AfterCurrentUser(items: map<string, string>, now: int): map<string, string> {
    if !NoAccessToken(items) && ExpiredIn(items, now) then WithoutTokens(items) else items
  }

  // ---------------------------------------------------------------------
  // The operations on the shared store

  method StoreTokens(ls: LocalStorage, t: AuthTokens)
    modifies ls
    ensures ls.items == WithTokens(old(ls.items), t)
  {
    ls.SetItem(AccessTokenKey, t.accessToken);
    ls.SetItem(RefreshTokenKey, t.refreshToken);
    ls.SetItem(TokenExpiryKey, IntToString(t.expiresAt));
  }

  function GetAccessToken(ls: LocalStorage): (r: Option<string>)
    reads ls
    ensures r == Lookup(ls.items, AccessTokenKey)
  {
    ls.GetItem(AccessTokenKey)
  }

  function GetRefreshToken(ls: LocalStorage): (r: Option<string>)
    reads ls
    ensures r == Lookup(ls.items, RefreshTokenKey)
  {
    ls.GetItem(RefreshTokenKey)
  }

  method ClearTokens(ls: LocalStorage)
    modifies ls
    ensures ls.items == WithoutTokens(old(ls.items))
  {
    ls.RemoveItem(AccessTokenKey);
    ls.RemoveItem(RefreshTokenKey);
    ls.RemoveItem(TokenExpiryKey);
  }

  function IsTokenExpired(ls: LocalStorage, now: int): (r: bool)
    reads ls
    ensures r == ExpiredIn(ls.items, now)
  {
    match ls.GetItem(TokenExpiryKey)
    case None => true
    case Some(expiry) =>
      if expiry == "" then true
      else match ParseInt(expiry)
        case None => false
        case Some(e) => now >= e
  }

  method GetCurrentUser(ls: LocalStorage, now: int, decode: string -> Option<DecodedToken>) returns (u: Option<DecodedToken>)
    modifies ls
    ensures u == CurrentUserIn(old(ls.items), now, decode)
    ensures ls.items == AfterCurrentUser(old(ls.items), now)
  {
    var token := GetAccessToken(ls);
    if token.None? || token.value == "" {
      return None;
    }
    if IsTokenExpired(ls, now) {
      ClearTokens(ls);
      return None;
    }
    u := decode(token.value);
  }

  // ---------------------------------------------------------------------
  // Access rules

  /** `requiredRoles.includes(userRole)`. */
  function HasRole(userRole: string, requiredRoles: seq<string>): (r: bool)
    ensures r <==> exists i | 0 <= i < |requiredRoles| :: requiredRoles[i] == userRole
  {
    if requiredRoles == [] then false
    else requiredRoles[0] == userRole || HasRole(userRole, requiredRoles[1..])
  }

  /**
   * `canAccessResource`: a switch over the role text. Absent descriptor
   * fields never match; an unknown role is denied.
   */
  function CanAccessResource(userRole: string, userId: string, resourceUserId: Option<string>,
                             resourceAdvisorId: Option<string>, assignedCommitteeIds: Option<seq<string>>): (r: bool)
    ensures userRole == "admin" ==> r
    ensures userRole == "student" ==> (r <==> resourceUserId == Some(userId))
    ensures userRole == "advisor" ==> (r <==> resourceAdvisorId == Some(userId))
    ensures userRole == "committee" ==>
      (r <==> assignedCommitteeIds.Some? && exists i | 0 <= i < |assignedCommitteeIds.value| :: assignedCommitteeIds.value[i] == userId)
    ensures userRole != "admin" && userRole != "student" && userRole != "advisor" && userRole != "committee" ==> !r
  {
    if userRole == "admin" then true
    else if userRole == "student" then resourceUserId == Some(userId)
    else if userRole == "advisor" then resourceAdvisorId == Some(userId)
    else if userRole == "committee" then
      match assignedCommitteeIds
      case None => false
      case Some(ids) => HasRole(userId, ids)
    else false
  }

  /** An empty committee list grants nothing. */
  lemma CommitteeEmptyListDenies(userId: string, resourceUserId: Option<string>, resourceAdvisorId: Option<string>)
    ensures !CanAccessResource("committee", userId, resourceUserId, resourceAdvisorId, Some([]))
  {
  }

  // ---------------------------------------------------------------------
  // Properties of the token store

  /** After `storeTokens(t)` the getters return `t`'s tokens and expiry is `now >= t.expiresAt`. */
  lemma StoredTokensReadBack(items: map<string, string>, t: AuthTokens, now: int)
    ensures Lookup(WithTokens(items, t), AccessTokenKey) == Some(t.accessToken)
    ensures Lookup(WithTokens(items, t), RefreshTokenKey) == Some(t.refreshToken)
    ensures ExpiredIn(WithTokens(items, t), now) <==> now >= t.expiresAt
  {
    var m := WithTokens(items, t);
    assert m[TokenExpiryKey] == IntToString(t.expiresAt);
    ParseIntOfIntToString(t.expiresAt);
  }

  /** `clearTokens` removes exactly the three token keys and a second call changes nothing. */
  lemma ClearTokensExact(items: map<string, string>)
    ensures WithoutTokens(WithoutTokens(items)) == WithoutTokens(items)
    ensures forall k | k !in TokenKeys() :: Lookup(WithoutTokens(items), k) == Lookup(items, k)
    ensures forall k | k in TokenKeys() :: Lookup(WithoutTokens(items), k) == None
  {
  }

  /** The expiry boundary is expired. */
  lemma ExpiryBoundary(items: map<string, string>, t: AuthTokens)
    ensures ExpiredIn(WithTokens(items, t), t.expiresAt)
    ensures ExpiredIn(WithTokens(items, t), t.expiresAt - 1) == false
  {
    StoredTokensReadBack(items, t, t.expiresAt);
    StoredTokensReadBack(items, t, t.expiresAt - 1);
  }

  /** A stored expiry that holds no number is never expired, at any time. */
  lemma NonNumericExpiryNeverExpires(items: map<string, string>, now: int)
    requires TokenExpiryKey in items && items[TokenExpiryKey] != ""
    requires ParseInt(items[TokenExpiryKey]) == None
    ensures !ExpiredIn(items, now)
  {
  }

  /** `getCurrentUser` on an expired session leaves no token key behind. */
  lemma ExpiredSessionCleared(items: map<string, string>, now: int, decode: string -> Option<DecodedToken>)
    requires !NoAccessToken(items) && ExpiredIn(items, now)
    ensures CurrentUserIn(items, now, decode) == None
    ensures forall k | k in TokenKeys() :: k !in AfterCurrentUser(items, now)
  {
  }
}
