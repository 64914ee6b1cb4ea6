/** Services/Implementations/AuthService.cs apart from its cryptography: phone
    normalisation, the registration checks, refresh-token rotation and the phone
    verification codes. Password hashes, refresh-token hashes, token expiry
    times and the random code are inputs of the operations here. */
module AuthService {
  import opened Base
  import opened Seqs
  import opened Models
  import opened Data
  import opened Text

  /** RegisterRequest; the password reaches the model only as its hash. */
  datatype RegisterRequest = RegisterRequest(
    firstName: string, lastName: string, email: Option<string>, phoneNumber: string)

  /** The exceptions the service throws. */
  datatype AuthError =
    | PhoneAlreadyRegistered   // "Phone number already registered."
    | EmailAlreadyRegistered   // "Email already registered."
    | RefreshTokenInvalid      // "Refresh token invalid."
    | AccountNotFound          // "Account not found."

  const CodeLifetimeMinutes := 5

  // ---------------------------------------------------------------------------
  // NormalizePhone

  /** The input trimmed; kept as it is when it holds '@' (an email used as login
      name), otherwise reduced to its digits. */
  function NormalizePhone(value: string): (r: string)
    ensures '@' in Trim(value) ==> r == Trim(value)
    ensures '@' !in Trim(value) ==> r == Digits(Trim(value)) && '@' !in r
    ensures '@' !in r ==> forall k :: 0 <= k < |r| ==> IsDigit(r[k])
  {
    var trimmed := Trim(value);
    if '@' in trimmed then trimmed
    else
      var r := Digits(trimmed);
      NoAtInDigits(r);
      r
  }

  lemma NoAtInDigits(r: string)
    requires forall k :: 0 <= k < |r| ==> IsDigit(r[k])
    ensures '@' !in r
  {
    DigitClasses('@');
  }

  /** A string of digits is its own trim, its own digits and its own
      normalisation. */
  lemma DigitsNormal(d: string)
    requires forall k :: 0 <= k < |d| ==> IsDigit(d[k])
    ensures Trim(d) == d && NormalizePhone(d) == d
  {
    if |d| > 0 {
      DigitClasses(d[0]);
      DigitClasses(d[|d| - 1]);
      assert LeadingSpace(d) == 0;
      assert TrailingSpace(d) == 0;
    }
    NoAtInDigits(d);
  }

  /** Normalising a normalised number changes nothing. */
  lemma NormalizeIdempotent(value: string)
    ensures NormalizePhone(NormalizePhone(value)) == NormalizePhone(value)
  {
    var t := Trim(value);
    TrimIdempotent(value);
    if '@' !in t {
      DigitsNormal(Digits(t));
    }
  }

  /** Digits are collected in order: normalising a number written in two parts
      gives the digits of the first part followed by those of the second. */
  lemma NormalizeConcat(a: string, b: string)
    requires '@' !in Trim(a + b)
    ensures NormalizePhone(a + b) == Digits(Trim(a + b))
    ensures LeadingSpace(a) == 0 && TrailingSpace(b) == 0 && |a| > 0 && |b| > 0 ==>
              NormalizePhone(a + b) == Digits(a) + Digits(b)
  {
    if LeadingSpace(a) == 0 && TrailingSpace(b) == 0 && |a| > 0 && |b| > 0 {
      var s := a + b;
      assert s[0] == a[0];
      assert s[|s| - 1] == b[|b| - 1];
      assert LeadingSpace(s) == 0;
      assert TrailingSpace(s) == 0;
      assert Trim(s) == s[0..|s|];
      assert s[0..|s|] == s;
      DigitsConcat(a, b);
    }
  }

  // ---------------------------------------------------------------------------
  // Register

  /** `u.PhoneNumber == phone` */
  function HasPhone(phone: string): User -> bool {
    (u: User) => u.phoneNumber == phone
  }

  /** `u.Email == email` */
  function HasEmail(email: Option<string>): User -> bool {
    (u: User) => u.email == email
  }

  /** `string.IsNullOrWhiteSpace` */
  predicate IsNullOrWhiteSpace(s: Option<string>) {
    s.None? || forall k :: 0 <= k < |s.value| ==> IsWhiteSpace(s.value[k])
  }

  /** The phone check as the source writes it: only the first user holding the
      number, deleted or not, is looked at. */
  predicate PhoneRefusedAsWritten(users: seq<User>, phone: string) {
    match FirstIndex(users, HasPhone(phone))
    case None => false
    case Some(i) => !users[i].isDeleted
  }

  /** The phone check as intended: some user that is not deleted holds the
      number. */
  predicate PhoneHeldLive(users: seq<User>, phone: string) {
    exists i :: 0 <= i < |users| && users[i].phoneNumber == phone && !users[i].isDeleted
  }

  /** The error Register throws, if any: a phone held by a live user, then an
      email, when one is given, held by any user. */
  function RegisterRefusal(users: seq<User>, req: RegisterRequest): (r: Option<AuthError>)
    ensures r == Some(PhoneAlreadyRegistered) <==> PhoneHeldLive(users, NormalizePhone(req.phoneNumber))
    ensures r == Some(EmailAlreadyRegistered) <==>
              && !PhoneHeldLive(users, NormalizePhone(req.phoneNumber))
              && !IsNullOrWhiteSpace(req.email)
              && exists j :: 0 <= j < |users| && users[j].email == req.email
    ensures r.None? || r == Some(PhoneAlreadyRegistered) || r == Some(EmailAlreadyRegistered)
  {
    if PhoneHeldLive(users, NormalizePhone(req.phoneNumber)) then Some(PhoneAlreadyRegistered)
    else if !IsNullOrWhiteSpace(req.email) && FirstIndex(users, HasEmail(req.email)).Some? then
      Some(EmailAlreadyRegistered)
    else None
  }

  /** The user Register stores: not deleted, with the normalised phone. */
  function NewUser(id: Id, req: RegisterRequest, passwordHash: string, now: Time): User {
    User(id, req.firstName, req.lastName, req.email, NormalizePhone(req.phoneNumber), passwordHash, false, now)
  }

  /** The refresh token IssueTokens stores, under the hash of the token handed out. */
  function NewRefreshToken(id: Id, userId: Id, tokenHash: string, now: Time, expiresAt: Time): RefreshToken {
    RefreshToken(id, userId, tokenHash, now, expiresAt, None)
  }

  /** IssueTokens: stores the refresh token; the access token is not stored. */
  method IssueTokens(db: Store, userId: Id, tokenId: Id, tokenHash: string, expiresAt: Time, now: Time)
    returns (token: RefreshToken)
    modifies db`refreshTokens
    ensures token == NewRefreshToken(tokenId, userId, tokenHash, now, expiresAt)
    ensures db.refreshTokens == old(db.refreshTokens) + [token]
  {
    token := NewRefreshToken(tokenId, userId, tokenHash, now, expiresAt);
    db.refreshTokens := db.refreshTokens + [token];
  }

  /** Registers the user and issues their first refresh token, or fails with the
      refusal and changes nothing. */
  method Register(db: Store, req: RegisterRequest, passwordHash: string, userId: Id,
                  tokenId: Id, tokenHash: string, refreshExpiresAt: Time, now: Time)
    returns (r: Result<User, AuthError>)
    modifies db`users, db`refreshTokens
    ensures r.Failure? <==> RegisterRefusal(old(db.users), req).Some?
    ensures r.Failure? ==> r.error == RegisterRefusal(old(db.users), req).value
                           && db.users == old(db.users) && db.refreshTokens == old(db.refreshTokens)
    ensures r.Success? ==>
              && r.value == NewUser(userId, req, passwordHash, now)
              && db.users == old(db.users) + [r.value]
              && db.refreshTokens == old(db.refreshTokens) + [NewRefreshToken(tokenId, userId, tokenHash, now, refreshExpiresAt)]
  {
    var normalizedPhone := NormalizePhone(req.phoneNumber);
    if PhoneHeldLive(db.users, normalizedPhone) {
      return Failure(PhoneAlreadyRegistered);
    }
    if !IsNullOrWhiteSpace(req.email) {
      var emailExists := FirstIndex(db.users, HasEmail(req.email)).Some?;
      if emailExists {
        return Failure(EmailAlreadyRegistered);
      }
    }
    var user := NewUser(userId, req, passwordHash, now);
    db.users := db.users + [user];
    var _ := IssueTokens(db, user.id, tokenId, tokenHash, refreshExpiresAt, now);
    r := Success(user);
  }

  /** No two live users share a phone number. */
  ghost predicate LivePhonesUnique(users: seq<User>) {
    forall i, j ::
      (0 <= i < |users| && 0 <= j < |users| && !users[i].isDeleted && !users[j].isDeleted
       && users[i].phoneNumber == users[j].phoneNumber) ==> i == j
  }

  /** With the intended check, registration keeps live phone numbers unique. */
  lemma RegisterKeepsLivePhonesUnique(users: seq<User>, req: RegisterRequest, passwordHash: string, userId: Id, now: Time)
    requires LivePhonesUnique(users)
    requires RegisterRefusal(users, req).None?
    ensures LivePhonesUnique(users + [NewUser(userId, req, passwordHash, now)])
  {
    var u := NewUser(userId, req, passwordHash, now);
    var after := users + [u];
    forall i, j | 0 <= i < |after| && 0 <= j < |after| && !after[i].isDeleted && !after[j].isDeleted
      && after[i].phoneNumber == after[j].phoneNumber
      ensures i == j
    {
      if i < |users| && j < |users| {
        assert users[i] == after[i] && users[j] == after[j];
      }
    }
  }

  /** The check as written lets a phone number through when its first holder is
      a deleted account, even though a later holder is live: a number registered
      again after its account was deleted can then be registered any number of
      times. */
  lemma AsWrittenAdmitsSecondLiveHolder()
    ensures var deleted := User(1, "A", "B", None, "994501234567", "", true, 0);
      var live := User(2, "A", "B", None, "994501234567", "", false, 1);
      var again := User(3, "C", "D", None, "994501234567", "", false, 2);
      && LivePhonesUnique([deleted, live])
      && !PhoneRefusedAsWritten([deleted, live], "994501234567")
      && PhoneHeldLive([deleted, live], "994501234567")
      && !LivePhonesUnique([deleted, live, again])
  {
    var deleted := User(1, "A", "B", None, "994501234567", "", true, 0);
    var live := User(2, "A", "B", None, "994501234567", "", false, 1);
    var again := User(3, "C", "D", None, "994501234567", "", false, 2);
    assert FirstIndex([deleted, live], HasPhone("994501234567")) == Some(0);
    var after := [deleted, live, again];
    assert after[1].phoneNumber == after[2].phoneNumber;
  }

  /** A live user may register again only once the account is deleted, and a
      repeated email is refused whatever state the holder is in. */
  lemma RegisterRefusals(users: seq<User>, req: RegisterRequest, i: nat)
    requires i < |users|
    ensures (users[i].phoneNumber == NormalizePhone(req.phoneNumber) && !users[i].isDeleted)
              ==> RegisterRefusal(users, req) == Some(PhoneAlreadyRegistered)
    ensures (users[i].email == req.email && !IsNullOrWhiteSpace(req.email))
              ==> RegisterRefusal(users, req).Some?
  {
  }

  // ---------------------------------------------------------------------------
  // Refresh

  /** `rt.TokenHash == tokenHash` */
  function HasTokenHash(tokenHash: string): RefreshToken -> bool {
    (t: RefreshToken) => t.tokenHash == tokenHash
  }

  /** Neither expired (`ExpiresAt <= now`) nor revoked. */
  predicate Usable(t: RefreshToken, now: Time) {
    t.expiresAt > now && t.revokedAt.None?
  }

  /** The token that refreshing with this hash would consume, if it is usable. */
  function PresentedToken(tokens: seq<RefreshToken>, tokenHash: string, now: Time): (r: Option<nat>)
    ensures r.Some? ==> r.value < |tokens| && tokens[r.value].tokenHash == tokenHash && Usable(tokens[r.value], now)
    ensures r.Some? ==> forall j :: 0 <= j < r.value ==> tokens[j].tokenHash != tokenHash
    ensures r.None? <==>
              forall i :: (0 <= i < |tokens| && tokens[i].tokenHash == tokenHash
                           && forall j :: 0 <= j < i ==> tokens[j].tokenHash != tokenHash)
                          ==> !Usable(tokens[i], now)
  {
    match FirstIndex(tokens, HasTokenHash(tokenHash))
    case None => None
    case Some(i) => if Usable(tokens[i], now) then Some(i) else None
  }

  /** The tokens after refreshing with token `i`: it is revoked now and the new
      one appended. */
  function Rotated(tokens: seq<RefreshToken>, i: nat, token: RefreshToken, now: Time): seq<RefreshToken>
    requires i < |tokens|
  {
    tokens[i := tokens[i].(revokedAt := Some(now))] + [token]
  }

  /** Exchanges a usable refresh token for a new one for the same user; an
      unknown, expired or revoked token is refused with no change. */
  method Refresh(db: Store, presentedHash: string, tokenId: Id, newHash: string, refreshExpiresAt: Time, now: Time)
    returns (r: Result<RefreshToken, AuthError>)
    modifies db`refreshTokens
    ensures r.Failure? <==> PresentedToken(old(db.refreshTokens), presentedHash, now).None?
    ensures r.Failure? ==> r.error == RefreshTokenInvalid && db.refreshTokens == old(db.refreshTokens)
    ensures r.Success? ==>
              var i := PresentedToken(old(db.refreshTokens), presentedHash, now).value;
              && r.value == NewRefreshToken(tokenId, old(db.refreshTokens)[i].userId, newHash, now, refreshExpiresAt)
              && db.refreshTokens == Rotated(old(db.refreshTokens), i, r.value, now)
  {
    var found := FirstIndex(db.refreshTokens, HasTokenHash(presentedHash));
    if found.None? || db.refreshTokens[found.value].expiresAt <= now || db.refreshTokens[found.value].revokedAt.Some? {
      return Failure(RefreshTokenInvalid);
    }
    var i := found.value;
    var presented := db.refreshTokens[i];
    db.refreshTokens := db.refreshTokens[i := presented.(revokedAt := Some(now))];
    var token := IssueTokens(db, presented.userId, tokenId, newHash, refreshExpiresAt, now);
    r := Success(token);
  }

  /** A refresh token works once: after a successful refresh, presenting it again
      at any time is refused. */
  lemma RefreshSingleUse(tokens: seq<RefreshToken>, presentedHash: string, token: RefreshToken, now: Time, later: Time)
    requires PresentedToken(tokens, presentedHash, now).Some?
    ensures var i := PresentedToken(tokens, presentedHash, now).value;
      PresentedToken(Rotated(tokens, i, token, now), presentedHash, later).None?
  {
    var i := PresentedToken(tokens, presentedHash, now).value;
    var after := Rotated(tokens, i, token, now);
    var f := FirstIndex(after, HasTokenHash(presentedHash));
    assert HasTokenHash(presentedHash)(after[i]);
    assert f.Some? && f.value <= i;
    assert f.value == i;
  }

  /** Refreshing revokes exactly the presented token and leaves the others alone. */
  lemma RefreshRevokesOne(tokens: seq<RefreshToken>, presentedHash: string, token: RefreshToken, now: Time)
    requires PresentedToken(tokens, presentedHash, now).Some?
    ensures var i := PresentedToken(tokens, presentedHash, now).value;
      var after := Rotated(tokens, i, token, now);
      && |after| == |tokens| + 1 && after[|tokens|] == token
      && after[i].revokedAt == Some(now) && after[i] == tokens[i].(revokedAt := Some(now))
      && forall j :: 0 <= j < |tokens| && j != i ==> after[j] == tokens[j]
  {
  }

  // ---------------------------------------------------------------------------
  // Phone verification

  /** `RandomNumberGenerator.GetInt32(100000, 999999)`: the upper bound is exclusive. */
  predicate CodeDraw(n: nat) { 100000 <= n < 999999 }

  /** The verification SendPhoneCode stores: the printed code, due in 5 minutes,
      by SMS. */
  function NewVerification(id: Id, userId: Id, code: string, now: Time): PhoneVerification {
    PhoneVerification(id, userId, code, now + CodeLifetimeMinutes, now, None, Sms)
  }

  /** The first user with the normalised phone number. */
  function FindByPhone(users: seq<User>, phoneNumber: string): Option<nat> {
    FirstIndex(users, HasPhone(NormalizePhone(phoneNumber)))
  }

  /** Stores a fresh code for the account with this phone number; an unknown number
      is refused. */
  method SendPhoneCode(db: Store, phoneNumber: string, verificationId: Id, now: Time)
    returns (r: Result<PhoneVerification, AuthError>)
    modifies db`phoneVerifications
    ensures r.Failure? <==> FindByPhone(db.users, phoneNumber).None?
    ensures r.Failure? ==> r.error == AccountNotFound && db.phoneVerifications == old(db.phoneVerifications)
    ensures r.Success? ==>
              && (exists n :: CodeDraw(n)
                    && r.value == NewVerification(verificationId, db.users[FindByPhone(db.users, phoneNumber).value].id,
                                                  NatToString(n), now))
              && db.phoneVerifications == old(db.phoneVerifications) + [r.value]
  {
    var found := FindByPhone(db.users, phoneNumber);
    if found.None? {
      return Failure(AccountNotFound);
    }
    assert CodeDraw(100000);
    var n: nat :| CodeDraw(n);
    var verification := NewVerification(verificationId, db.users[found.value].id, NatToString(n), now);
    db.phoneVerifications := db.phoneVerifications + [verification];
    r := Success(verification);
  }

  /** Every code sent is six ASCII digits naming the drawn number, and expires five
      minutes after it was created. */
  lemma SentCodeShape(id: Id, userId: Id, n: nat, now: Time)
    requires CodeDraw(n)
    ensures var v := NewVerification(id, userId, NatToString(n), now);
      && |v.code| == 6 && (forall k :: 0 <= k < 6 ==> '0' <= v.code[k] <= '9')
      && ParseNat(v.code) == n
      && v.expiresAt == v.createdAt + CodeLifetimeMinutes && v.verifiedAt.None?
  {
    assert Pow10(5) == 100000 && Pow10(6) == 1000000;
    PrintedLength(n, 6);
    ParsePrinted(n);
  }

  /** `pv.Code == code && pv.ExpiresAt >= now`, over the user's verifications. */
  function Matches(userId: Id, code: string, now: Time): PhoneVerification -> bool {
    (v: PhoneVerification) => v.userId == userId && v.code == code && v.expiresAt >= now
  }

  /** Marks the user's first matching, unexpired verification verified now; false,
      with no change, when there is none. An unknown number is refused. */
  method VerifyPhone(db: Store, phoneNumber: string, code: string, now: Time) returns (r: Result<bool, AuthError>)
    modifies db`phoneVerifications
    ensures r.Failure? <==> FindByPhone(db.users, phoneNumber).None?
    ensures r.Failure? ==> r.error == AccountNotFound
    ensures !(r.Success? && r.value) ==> db.phoneVerifications == old(db.phoneVerifications)
    ensures r.Success? ==>
              var p := Matches(db.users[FindByPhone(db.users, phoneNumber).value].id, code, now);
              var m := FirstIndex(old(db.phoneVerifications), p);
              && (r.value <==> exists j :: 0 <= j < |old(db.phoneVerifications)| && p(old(db.phoneVerifications)[j]))
              && (r.value ==> db.phoneVerifications
                                == old(db.phoneVerifications)[m.value := old(db.phoneVerifications)[m.value].(verifiedAt := Some(now))])
  {
    var found := FindByPhone(db.users, phoneNumber);
    if found.None? {
      return Failure(AccountNotFound);
    }
    var user := db.users[found.value];
    var verification := FirstIndex(db.phoneVerifications, Matches(user.id, code, now));
    if verification.None? {
      return Success(false);
    }
    var i := verification.value;
    db.phoneVerifications := db.phoneVerifications[i := db.phoneVerifications[i].(verifiedAt := Some(now))];
    r := Success(true);
  }

  /** A code is accepted up to and including the minute it expires and refused
      after, and a code sent now is accepted now. */
  lemma CodeExpiry(v: PhoneVerification, userId: Id, now: Time)
    requires v.userId == userId
    ensures Matches(userId, v.code, now)(v) <==> now <= v.expiresAt
    ensures var sent := NewVerification(v.id, userId, v.code, now);
      Matches(userId, v.code, now)(sent) && Matches(userId, v.code, now + CodeLifetimeMinutes)(sent)
      && !Matches(userId, v.code, now + CodeLifetimeMinutes + 1)(sent)
  {
  }
}
