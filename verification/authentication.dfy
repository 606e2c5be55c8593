/** `CustomUserJWTAuthentication.authenticate` (users/authentication.py):
    parse `Authorization: Bearer <token>`, validate the token, and load
    the user whose id the token carries. */
module Authentication {
  import opened Wrappers
  import opened Whitespace
  import opened Records
  import Http

  /** What the signed-token library says about a token string: rejected
      with a reason, or accepted with the value of its `id` claim, if any. */
  datatype TokenVerdict = Rejected(reason: string) | Accepted(idClaim: Option<int>)

  /** The reasons an authentication fails with `AuthenticationFailed`. */
  datatype AuthFailure = MissingHeader | NotTwoValues | TokenInvalid(reason: string) | UnknownUser

  datatype AuthOutcome =
    | Authenticated(principal: User)
    | Failed(failure: AuthFailure)
    | Escaped(exception: Http.Exception)

  const TwoValuesMessage := "Authorization header must contain two space-delimited values"

  /** The text `AuthenticationFailed` carries for each failure. */
  function FailureMessage(f: AuthFailure): string {
    match f
    case MissingHeader => TwoValuesMessage
    case NotTwoValues => TwoValuesMessage
    case TokenInvalid(reason) => "Token invalid: " + reason
    case UnknownUser => Http.UserNotFound
  }

  /** The header's shape, before the token is looked at. */
  datatype HeaderShape = Absent | NotTwoParts | WrongPrefix | BearerToken(token: string)

  /** Lines 12-23: an absent or empty header; a header whose `split()` does
      not give exactly two fields (the tuple unpacking's `ValueError`); a
      first field that is not "bearer" in some case (the `assert`); else the
      second field is the token. */
  function ParseHeader(header: Option<string>): (p: HeaderShape)
    ensures p == Absent <==> header == None || header == Some("")
    ensures p.BearerToken? ==> IsWord(p.token)
    ensures p.NotTwoParts? || p.WrongPrefix? || p.BearerToken? ==> header.Some? && header.value != ""
    ensures p.NotTwoParts? <==> header.Some? && header.value != "" && |Split(header.value)| != 2
    ensures header.Some? && |Split(header.value)| == 2 ==>
              && (p.WrongPrefix? <==> Lower(Split(header.value)[0]) != Bearer)
              && (p.BearerToken? <==> Lower(Split(header.value)[0]) == Bearer)
              && (p.BearerToken? ==> p.token == Split(header.value)[1])
  {
    if header.None? || header.value == "" then Absent
    else
      var parts := Split(header.value);
      if |parts| != 2 then NotTwoParts
      else if Lower(parts[0]) != Bearer then WrongPrefix
      else BearerToken(parts[1])
  }

  /** The whole of `authenticate`. `check` stands for `UntypedToken`, whose
      verdict on a token is the same both times the source constructs it. */
  function Authenticate(header: Option<string>, check: string -> TokenVerdict, users: map<UserId, User>): (r: AuthOutcome)
    requires KeyedById(users)
    ensures r.Authenticated? ==> r.principal.id in users && users[r.principal.id] == r.principal
    ensures r.Authenticated? <==>
              && ParseHeader(header).BearerToken?
              && check(ParseHeader(header).token).Accepted?
              && check(ParseHeader(header).token).idClaim.Some?
              && check(ParseHeader(header).token).idClaim.value >= 0
              && check(ParseHeader(header).token).idClaim.value in users
    ensures r == Escaped(Http.AssertionError) <==> ParseHeader(header).WrongPrefix?
  {
    match ParseHeader(header)
    case Absent => Failed(MissingHeader)
    case NotTwoParts => Failed(NotTwoValues)
    case WrongPrefix => Escaped(Http.AssertionError)
    case BearerToken(token) =>
      match check(token)
      case Rejected(reason) => Failed(TokenInvalid(reason))
      case Accepted(None) => Escaped(Http.KeyError)
      case Accepted(Some(id)) =>
        if id >= 0 && id in users then Authenticated(users[id]) else Failed(UnknownUser)
  }

  /** No header, or an empty one, fails as a missing header. */
  lemma NoHeaderFails(header: Option<string>, check: string -> TokenVerdict, users: map<UserId, User>)
    requires KeyedById(users)
    requires header == None || header == Some("")
    ensures Authenticate(header, check, users) == Failed(MissingHeader)
  {
  }

  /** A header that does not split into exactly two fields fails. */
  lemma WrongPartCountFails(header: string, check: string -> TokenVerdict, users: map<UserId, User>)
    requires KeyedById(users)
    requires header != "" && |Split(header)| != 2
    ensures Authenticate(Some(header), check, users) == Failed(NotTwoValues)
  {
  }

  /** Two fields with a first field other than "bearer" escape as an
      `AssertionError`, which the `except ValueError` does not catch. The
      fields may be surrounded and separated by any whitespace. */
  lemma WrongPrefixEscapes(lead: string, prefix: string, sep: string, token: string, trail: string,
                           check: string -> TokenVerdict, users: map<UserId, User>)
    requires KeyedById(users)
    requires AllSpace(lead) && AllSpace(trail) && |sep| > 0 && AllSpace(sep)
    requires IsWord(prefix) && IsWord(token)
    requires Lower(prefix) != Bearer
    ensures Authenticate(Some(lead + prefix + sep + token + trail), check, users) == Escaped(Http.AssertionError)
  {
    SplitTwo(lead, prefix, sep, token, trail);
  }

  /** "Bearer", "bearer", "BEARER" and every other mix of case are accepted
      as the prefix, and the token is the second field, whatever whitespace
      surrounds and separates the two. */
  lemma {:induction false} AnyCaseBearer(lead: string, prefix: string, sep: string, token: string, trail: string)
    requires AllSpace(lead) && AllSpace(trail) && |sep| > 0 && AllSpace(sep)
    requires |prefix| == 6 && forall i :: 0 <= i < 6 ==> prefix[i] == Bearer[i] || prefix[i] == BearerUpper[i]
    requires IsWord(token)
    ensures ParseHeader(Some(lead + prefix + sep + token + trail)) == BearerToken(token)
  {
    LowerIsBearerIff(prefix);
    assert IsWord(prefix);
    SplitTwo(lead, prefix, sep, token, trail);
  }

  /** A rejected token fails before any user is looked up: the outcome is
      the same whatever the users table holds. */
  lemma RejectedTokenNoLookup(header: Option<string>, check: string -> TokenVerdict,
                              users: map<UserId, User>, others: map<UserId, User>)
    requires KeyedById(users) && KeyedById(others)
    requires ParseHeader(header).BearerToken?
    requires check(ParseHeader(header).token).Rejected?
    ensures Authenticate(header, check, users) == Authenticate(header, check, others)
    ensures Authenticate(header, check, users) == Failed(TokenInvalid(check(ParseHeader(header).token).reason))
  {
  }

  /** A valid token whose id names no stored user fails with "User not found". */
  lemma UnknownIdFails(header: Option<string>, check: string -> TokenVerdict, users: map<UserId, User>)
    requires KeyedById(users)
    requires ParseHeader(header).BearerToken?
    requires check(ParseHeader(header).token).Accepted?
    requires check(ParseHeader(header).token).idClaim.Some?
    requires var id := check(ParseHeader(header).token).idClaim.value; id < 0 || id !in users
    ensures Authenticate(header, check, users) == Failed(UnknownUser)
    ensures FailureMessage(Authenticate(header, check, users).failure) == "User not found"
  {
  }

  /** A well-formed header whose token names a stored user authenticates as
      exactly that row. Nothing checks `is_active`: inactive users pass. */
  lemma StoredUserAuthenticates(lead: string, prefix: string, sep: string, token: string, trail: string,
                                check: string -> TokenVerdict, users: map<UserId, User>, u: User)
    requires KeyedById(users)
    requires AllSpace(lead) && AllSpace(trail) && |sep| > 0 && AllSpace(sep)
    requires |prefix| == 6 && forall i :: 0 <= i < 6 ==> prefix[i] == Bearer[i] || prefix[i] == BearerUpper[i]
    requires IsWord(token)
    requires check(token) == Accepted(Some(u.id))
    requires u.id in users && users[u.id] == u
    ensures Authenticate(Some(lead + prefix + sep + token + trail), check, users) == Authenticated(u)
  {
    AnyCaseBearer(lead, prefix, sep, token, trail);
  }
}
