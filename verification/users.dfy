/** The user document: its fields and defaults, the three (token, expiry)
    pairs, and the `$set` update documents the services write to it. */
module Users {
  import opened Common

  datatype Phone = Phone(phoneType: string, phone: string)

  datatype Address = Address(street: string, number: string, city: string, zipCode: string)

  /** Every profile field is optional. */
  datatype Profile = Profile(
    firstname: Option<string>,
    lastname: Option<string>,
    avatar: Option<string>,
    phones: Option<seq<Phone>>,
    address: Option<Address>)

  /** The three single-use tokens a user can hold. */
  datatype TokenKind = Verification | PasswordReset | EnableUser

  /** A token and its expiry instant (milliseconds). The schema keeps the two
      fields independent, so either may be absent without the other. */
  datatype TokenPair = TokenPair(token: Option<string>, expires: Option<int>)

  const NoToken := TokenPair(None, None)

  datatype User = User(
    id: Id,
    email: string,
    vat: string,
    password: string,
    enabled: bool,
    verified: bool,
    loginConsecutiveFailures: nat,
    passwordChangedAt: int,
    verification: TokenPair,
    passwordReset: TokenPair,
    enableUser: TokenPair,
    role: Id,
    profile: Option<Profile>,
    tickets: seq<Id>,
    announcements: seq<Id>)
  {
    function Pair(kind: TokenKind): TokenPair {
      match kind
      case Verification => verification
      case PasswordReset => passwordReset
      case EnableUser => enableUser
    }
  }

  /** A `$set` document: each present field overwrites the stored one, absent
      fields are left alone. A token pair written as `NoToken` is cleared. */
  datatype UserSet = UserSet(
    password: Option<string>,
    enabled: Option<bool>,
    verified: Option<bool>,
    loginConsecutiveFailures: Option<nat>,
    passwordChangedAt: Option<int>,
    verification: Option<TokenPair>,
    passwordReset: Option<TokenPair>,
    enableUser: Option<TokenPair>,
    role: Option<Id>,
    profile: Option<Profile>)

  const NoChange := UserSet(None, None, None, None, None, None, None, None, None, None)

  /** The update that writes (or clears) one token pair and nothing else. */
  function SetPair(kind: TokenKind, p: TokenPair): (s: UserSet)
    ensures forall u: User :: Apply(u, s).Pair(kind) == p
    ensures forall u: User, k :: k != kind ==> Apply(u, s).Pair(k) == u.Pair(k)
  {
    match kind
    case Verification => NoChange.(verification := Some(p))
    case PasswordReset => NoChange.(passwordReset := Some(p))
    case EnableUser => NoChange.(enableUser := Some(p))
  }

  /** One field under `$set`: a supplied value overwrites the stored one, an
      absent one leaves it as it was. */
  predicate Overwrites<T(==)>(given: Option<T>, before: T, after: T) {
    if given.Some? then after == given.value else after == before
  }

  /** Applies a `$set` document to a stored user. */
  function Apply(u: User, s: UserSet): (r: User)
    ensures r.id == u.id && r.email == u.email && r.vat == u.vat
    ensures r.tickets == u.tickets && r.announcements == u.announcements
    ensures Overwrites(s.password, u.password, r.password) && Overwrites(s.enabled, u.enabled, r.enabled)
    ensures Overwrites(s.verified, u.verified, r.verified)
    ensures Overwrites(s.loginConsecutiveFailures, u.loginConsecutiveFailures, r.loginConsecutiveFailures)
    ensures Overwrites(s.passwordChangedAt, u.passwordChangedAt, r.passwordChangedAt)
    ensures Overwrites(s.verification, u.verification, r.verification)
    ensures Overwrites(s.passwordReset, u.passwordReset, r.passwordReset)
    ensures Overwrites(s.enableUser, u.enableUser, r.enableUser) && Overwrites(s.role, u.role, r.role)
    ensures s.profile.Some? ==> r.profile == s.profile
    ensures s.profile.None? ==> r.profile == u.profile
  {
    User(
      u.id, u.email, u.vat,
      s.password.GetOr(u.password),
      s.enabled.GetOr(u.enabled),
      s.verified.GetOr(u.verified),
      s.loginConsecutiveFailures.GetOr(u.loginConsecutiveFailures),
      s.passwordChangedAt.GetOr(u.passwordChangedAt),
      s.verification.GetOr(u.verification),
      s.passwordReset.GetOr(u.passwordReset),
      s.enableUser.GetOr(u.enableUser),
      s.role.GetOr(u.role),
      if s.profile.Some? then s.profile else u.profile,
      u.tickets, u.announcements)
  }

  /** Writing the same `$set` twice has the effect of writing it once, and an
      empty `$set` changes nothing. */
  lemma {:induction false} ApplyIdempotent(u: User, s: UserSet)
    ensures Apply(Apply(u, s), s) == Apply(u, s)
    ensures Apply(u, NoChange) == u
  {
  }

  /** A new document as the model's defaults fill it: disabled, unverified, no
      failures, empty ticket and announcement lists, no reset or unlock token. */
  function NewUser(id: Id, email: string, vat: string, passwordHash: string, role: Id,
                   profile: Option<Profile>, now: int, verification: TokenPair): (u: User)
    ensures !u.enabled && !u.verified && u.loginConsecutiveFailures == 0
    ensures u.passwordChangedAt == now && u.verification == verification
    ensures u.passwordReset == NoToken && u.enableUser == NoToken
    ensures u.tickets == [] && u.announcements == []
    ensures u.id == id && u.email == email && u.vat == vat && u.password == passwordHash
    ensures u.role == role && u.profile == profile
  {
    User(id, email, vat, passwordHash, false, false, 0, now, verification, NoToken, NoToken,
         role, profile, [], [])
  }
}
