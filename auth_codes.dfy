/** The one-time code stores of the four auth routes
    (src/app/api/auth/{register,login,verify,verify-2fa}/route.ts): a
    process-wide map from e-mail to a six-digit code and its expiry time, filled
    when a code is issued and consulted, then emptied for that e-mail, when a
    code is checked. Registration and login use two separate stores.

    Randomness, the clock, the user database, password hashing, token signing
    and e-mail delivery are outside the model: the caller passes the random
    number drawn, the current time in milliseconds, and the outcome of each
    call. */
module AuthCodes {
  import opened Wrappers
  import opened Text

  datatype CodeEntry = CodeEntry(code: string, expires: int)

  /** Lifetime of a registration code: ten minutes. */
  const VerificationTtl: int := 600000
  /** Lifetime of a login (2FA) code: five minutes. */
  const TwoFactorTtl: int := 300000
  /** `maxAge` of the token cookie, in seconds: seven days. */
  const TokenMaxAge: int := 7 * 24 * 60 * 60

  /** `Math.floor(100000 + Math.random() * 900000)` for a draw in [0, 1). */
  function IssuedNumber(random: real): (n: int)
    requires 0.0 <= random < 1.0
    ensures 100000 <= n <= 999999
  {
    (100000.0 + random * 900000.0).Floor
  }

  /** The code as sent and stored: the decimal text of the number, always six
      digits with no leading zero. */
  function IssuedCode(random: real): (c: string)
    requires 0.0 <= random < 1.0
    ensures |c| == 6 && AllDigits(c) && c[0] != '0'
    ensures ParseNat(c) == IssuedNumber(random)
  {
    var n := IssuedNumber(random);
    assert Pow10(5) == 100000 && Pow10(6) == 1000000;
    NatStrLength(n, 6);
    ParseNatStr(n);
    NatStr(n)
  }

  /** The check both verify routes make: there is an entry, its code is the one
      submitted, and the current time is not past the expiry (a check at the
      expiry instant itself succeeds). */
  predicate CodeAccepted(entry: Option<CodeEntry>, code: string, now: int) {
    entry.Some? && entry.value.code == code && !(now > entry.value.expires)
  }

  /** A code issued at time t is accepted up to and including t + ttl and
      rejected from the next millisecond on; any other code is rejected. */
  lemma ExpiryBoundary(code: string, issued: int, ttl: int, later: int, other: string)
    requires other != code
    ensures CodeAccepted(Some(CodeEntry(code, issued + ttl)), code, later) <==> later <= issued + ttl
    ensures !CodeAccepted(Some(CodeEntry(code, issued + ttl)), other, later)
    ensures !CodeAccepted(None, code, later)
  {
  }

  datatype UserInfo = UserInfo(id: string, email: string, name: string)

  datatype TokenCookie = TokenCookie(value: string, httpOnly: bool, sameSite: string, maxAge: int)

  datatype AuthResponse =
    | Failed(status: int)
    | CodeSent(email: string, name: string, password: string)
    | TwoFactorSent(email: string)
    | Verified(user: UserInfo, cookie: TokenCookie)
    | TwoFactorVerified(user: UserInfo, token: string, cookie: TokenCookie)

  /** One global `Map` of e-mail to issued code. */
  class CodeStore {
    var codes: map<string, CodeEntry>

    constructor ()
      ensures codes == map[]
    {
      codes := map[];
    }

    function Lookup(email: string): (r: Option<CodeEntry>)
      reads this
      ensures r.Some? <==> email in codes
      ensures r.Some? ==> r.value == codes[email]
    {
      if email in codes then Some(codes[email]) else None
    }

    /** `codes.set(email, {code, expires: now + ttl})`: replaces any earlier
        entry for the e-mail and leaves the others alone. */
    method Issue(email: string, code: string, now: int, ttl: int)
      modifies this`codes
      ensures codes == old(codes)[email := CodeEntry(code, now + ttl)]
    {
      codes := codes[email := CodeEntry(code, now + ttl)];
    }

    /** `codes.delete(email)`. */
    method Consume(email: string)
      modifies this`codes
      ensures codes == old(codes) - {email}
    {
      codes := codes - {email};
    }
  }

  /** register: 400 for an e-mail already registered, with nothing stored.
      Otherwise a fresh code is stored for ten minutes before the e-mail is
      sent; a failed send answers 500 but the code stays stored. */
  method Register(store: CodeStore, email: string, name: string, password: string,
                  userExists: bool, random: real, now: int, sendOk: bool)
    returns (resp: AuthResponse)
    requires 0.0 <= random < 1.0
    modifies store
    ensures userExists ==> resp == Failed(400) && store.codes == old(store.codes)
    ensures !userExists ==>
              && store.codes == old(store.codes)[email := CodeEntry(IssuedCode(random), now + VerificationTtl)]
              && resp == (if sendOk then CodeSent(email, name, password) else Failed(500))
  {
    if userExists {
      return Failed(400);
    }
    var code := IssuedCode(random);
    store.Issue(email, code, now, VerificationTtl);
    if !sendOk {
      return Failed(500);
    }
    resp := CodeSent(email, name, password);
  }

  /** login: 401 for an unknown user or a wrong password, with nothing stored.
      Otherwise a fresh code is stored for five minutes before it is sent; a
      failed send answers 500 and the code stays stored. */
  method Login(store: CodeStore, email: string, credentialsOk: bool, random: real, now: int, sendOk: bool)
    returns (resp: AuthResponse)
    requires 0.0 <= random < 1.0
    modifies store
    ensures !credentialsOk ==> resp == Failed(401) && store.codes == old(store.codes)
    ensures credentialsOk ==>
              && store.codes == old(store.codes)[email := CodeEntry(IssuedCode(random), now + TwoFactorTtl)]
              && resp == (if sendOk then TwoFactorSent(email) else Failed(500))
  {
    if !credentialsOk {
      return Failed(401);
    }
    var code := IssuedCode(random);
    store.Issue(email, code, now, TwoFactorTtl);
    if !sendOk {
      return Failed(500);
    }
    resp := TwoFactorSent(email);
  }

  /** verify: 400 unless the registration store holds this code for the e-mail
      and it has not expired. Then the user is created (`created`, `None` when
      creation throws) and a token signed (`token`, `None` when signing throws);
      either failure answers 500 and keeps the code. Only on success is the
      code deleted, and the response carries the user and a strict, http-only
      token cookie valid for seven days. */
  method Verify(store: CodeStore, email: string, code: string, now: int,
                created: Option<UserInfo>, token: Option<string>)
    returns (resp: AuthResponse)
    modifies store
    ensures !CodeAccepted(old(store.Lookup(email)), code, now) ==>
              resp == Failed(400) && store.codes == old(store.codes)
    ensures CodeAccepted(old(store.Lookup(email)), code, now) && (created.None? || token.None?) ==>
              resp == Failed(500) && store.codes == old(store.codes)
    ensures resp.Verified? <==> CodeAccepted(old(store.Lookup(email)), code, now) && created.Some? && token.Some?
    ensures resp.Verified? ==>
              && store.codes == old(store.codes) - {email}
              && resp == Verified(created.value, TokenCookie(token.value, true, "strict", TokenMaxAge))
  {
    var stored := store.Lookup(email);
    if !CodeAccepted(stored, code, now) {
      return Failed(400);
    }
    if created.None? || token.None? {
      return Failed(500);
    }
    store.Consume(email);
    resp := Verified(created.value, TokenCookie(token.value, true, "strict", TokenMaxAge));
  }

  /** verify-2fa: 400 unless the 2FA store holds this code for the e-mail and it
      has not expired; 404 when no user has the e-mail; 500 when signing throws.
      In each of those cases the code stays. On success it is deleted and the
      token is returned both in the body and as a lax, http-only cookie valid
      for seven days. */
  method Verify2FA(store: CodeStore, email: string, code: string, now: int,
                   user: Option<UserInfo>, token: Option<string>)
    returns (resp: AuthResponse)
    modifies store
    ensures !CodeAccepted(old(store.Lookup(email)), code, now) ==>
              resp == Failed(400) && store.codes == old(store.codes)
    ensures CodeAccepted(old(store.Lookup(email)), code, now) && user.None? ==>
              resp == Failed(404) && store.codes == old(store.codes)
    ensures CodeAccepted(old(store.Lookup(email)), code, now) && user.Some? && token.None? ==>
              resp == Failed(500) && store.codes == old(store.codes)
    ensures resp.TwoFactorVerified? <==> CodeAccepted(old(store.Lookup(email)), code, now) && user.Some? && token.Some?
    ensures resp.TwoFactorVerified? ==>
              && store.codes == old(store.codes) - {email}
              && resp == TwoFactorVerified(user.value, token.value, TokenCookie(token.value, true, "lax", TokenMaxAge))
  {
    var stored := store.Lookup(email);
    if !CodeAccepted(stored, code, now) {
      return Failed(400);
    }
    if user.None? {
      return Failed(404);
    }
    if token.None? {
      return Failed(500);
    }
    store.Consume(email);
    resp := TwoFactorVerified(user.value, token.value, TokenCookie(token.value, true, "lax", TokenMaxAge));
  }

  /** A code is good for one successful verification: replaying the same
      request right after a success is refused with 400. */
  method VerifyIsSingleUse(store: CodeStore, email: string, code: string, now: int,
                           created: UserInfo, token: string)
    returns (first: AuthResponse, second: AuthResponse)
    requires CodeAccepted(store.Lookup(email), code, now)
    modifies store
    ensures first.Verified? && second == Failed(400)
    ensures email !in store.codes
  {
    first := Verify(store, email, code, now, Some(created), Some(token));
    second := Verify(store, email, code, now, Some(created), Some(token));
  }

  /** The two stores are separate: a login code just issued for an e-mail does
      not pass the registration check when the registration store holds nothing
      for that e-mail. */
  method LoginCodeDoesNotRegister(verificationCodes: CodeStore, twoFactorCodes: CodeStore,
                                  email: string, random: real, now: int)
    returns (login: AuthResponse, verify: AuthResponse)
    requires verificationCodes != twoFactorCodes
    requires 0.0 <= random < 1.0
    requires email !in verificationCodes.codes
    modifies verificationCodes, twoFactorCodes
    ensures login == TwoFactorSent(email) && verify == Failed(400)
    ensures email in twoFactorCodes.codes && twoFactorCodes.codes[email].code == IssuedCode(random)
  {
    login := Login(twoFactorCodes, email, true, random, now, true);
    verify := Verify(verificationCodes, email, IssuedCode(random), now, None, None);
  }
}
