/** The authentication service of `api/auth.js`: the user table, the current
    session, role permissions, the activity log and the demo two-factor check. */
module Auth {
  import opened JsValue
  import opened Seqs
  import opened Store

  const Citizen := "citizen"
  const Gestor := "gestor"
  const Employer := "empregador"
  const Admin := "admin"

  /** The four values of `this.roles`. */
  const Roles: seq<string> := [Citizen, Gestor, Employer, Admin]

  /** Eight hours, in milliseconds. */
  const SessionLength := 8 * 60 * 60 * 1000

  /** The activity log keeps this many of the newest entries. */
  const LogCapacity := 1000

  /** A stored user. `twoFactorSecret` is present exactly when `twoFactorEnabled`
      was set, since `enableTwoFactor` sets both together. */
  datatype User = User(
    id: string,
    email: string,
    passwordHash: string,
    name: string,
    userType: string,
    permissions: seq<string>,
    active: bool,
    createdAt: int,
    passwordChangedAt: Option<int>,
    passwordResetAt: Option<int>,
    mustChangePassword: bool,
    twoFactorSecret: Option<string>,
    extra: map<string, Value>)

  /** The session object `login` stores; times are milliseconds. */
  datatype Session = Session(
    userId: string,
    email: string,
    name: string,
    userType: string,
    permissions: seq<string>,
    loginTime: int,
    expiresAt: int)

  datatype AuthError =
    | InvalidCredentials
    | AccountDisabled
    | InvalidUserType
    | EmailInUse
    | UserNotFound
    | WrongPassword

  /** The message each error is thrown with. */
  function Message(e: AuthError): string
  {
    match e
    case InvalidCredentials => "Credenciais inválidas"
    case AccountDisabled => "Conta desativada. Contacte o administrador"
    case InvalidUserType => "Tipo de usuário inválido"
    case EmailInUse => "Email já está em uso"
    case UserNotFound => "Usuário não encontrado"
    case WrongPassword => "Senha atual incorreta"
  }

  datatype Registration = Registration(userId: string, requiresActivation: bool)

  // ---------------------------------------------------------------------------
  // Passwords

  /** `hashPassword`, up to the `btoa` encoding, which is one-to-one on its
      input: the password, the salt text, and the password's length. */
  function HashPassword(password: string): (h: string)
    ensures |password| < |h| && h[..|password|] == password
  {
    password + "maptss_salt_" + NatToString(|password|)
  }

  /** A hash verifies at most one password. */
  function VerifyPassword(password: string, hash: string): (ok: bool)
    ensures ok ==> forall q :: HashPassword(q) == hash ==> q == password
  {
    HashPasswordInjectiveAll();
    HashPassword(password) == hash
  }

  /** Different passwords never share a hash, so a hash verifies exactly one password. */
  lemma HashPasswordInjective(p: string, q: string)
    requires HashPassword(p) == HashPassword(q)
    ensures p == q
  {
    if |p| <= |q| {
      NatToStringLengthMonotone(|p|, |q|);
    } else {
      NatToStringLengthMonotone(|q|, |p|);
    }
    assert |p| == |q|;
    assert p == HashPassword(p)[..|p|];
    assert q == HashPassword(q)[..|q|];
  }

  lemma HashPasswordInjectiveAll()
    ensures forall p, q :: HashPassword(p) == HashPassword(q) ==> p == q
  {
    forall p, q | HashPassword(p) == HashPassword(q) ensures p == q {
      HashPasswordInjective(p, q);
    }
  }

  lemma VerifyExactly(p: string, q: string)
    ensures VerifyPassword(p, HashPassword(q)) <==> p == q
  {
    if VerifyPassword(p, HashPassword(q)) {
      HashPasswordInjective(p, q);
    }
  }

  // ---------------------------------------------------------------------------
  // Permissions

  /** `getDefaultPermissions`: the fixed table; any other role gets none. */
  function DefaultPermissions(role: string): (ps: seq<string>)
    ensures role !in Roles ==> ps == []
  {
    if role == Citizen then
      ["view_own_profile", "edit_own_profile", "submit_registration", "view_own_registrations",
       "view_centers", "view_courses", "upload_documents"]
    else if role == Gestor then
      ["view_dashboard", "manage_registrations", "approve_registrations", "reject_registrations",
       "manage_centers", "manage_courses", "view_reports", "generate_reports", "manage_notifications",
       "view_activities", "manage_system_settings"]
    else if role == Employer then
      ["view_dashboard", "search_graduates", "view_graduate_profiles", "create_internships",
       "manage_internships", "verify_certificates", "create_job_listings", "manage_job_listings",
       "view_talent_reports"]
    else if role == Admin then
      ["full_access", "manage_users", "system_administration", "view_all_data", "backup_restore"]
    else []
  }

  /** The four lists have 7, 11, 9 and 5 entries. */
  lemma PermissionCounts()
    ensures |DefaultPermissions(Citizen)| == 7 && |DefaultPermissions(Gestor)| == 11
    ensures |DefaultPermissions(Employer)| == 9 && |DefaultPermissions(Admin)| == 5
  {
  }

  /** Only the manager role may approve registrations. */
  lemma OnlyGestorApproves(role: string)
    ensures "approve_registrations" in DefaultPermissions(role) <==> role == Gestor
  {
  }

  /** Only the employer role may verify certificates. */
  lemma OnlyEmployerVerifies(role: string)
    ensures "verify_certificates" in DefaultPermissions(role) <==> role == Employer
  {
  }

  // ---------------------------------------------------------------------------
  // Random strings, with the random draws as parameters

  /** The temporary-password alphabet, without the look-alike characters `I`, `L`, `O`, `l`, `o`, `0` and `1`. */
  const TempAlphabet := "ABCDEFGHJKMNPQRSTUVWXYZabcdefghijkmnpqrstuvwxyz23456789"

  /** The base-32 alphabet of two-factor secrets. */
  const SecretAlphabet := "ABCDEFGHIJKLMNOPQRSTUVWXYZ234567"

  lemma AlphabetSizes()
    ensures |TempAlphabet| == 55 && |SecretAlphabet| == 32
  {
  }

  /** `for (i = 0; i < n; i++) result += chars.charAt(draws[i])`, where each draw
      is `Math.floor(Math.random() * chars.length)`. */
  method RandomString(chars: string, draws: seq<nat>) returns (result: string)
    requires forall i :: 0 <= i < |draws| ==> draws[i] < |chars|
    ensures |result| == |draws|
    ensures forall i :: 0 <= i < |draws| ==> result[i] == chars[draws[i]]
    ensures forall i :: 0 <= i < |result| ==> result[i] in chars
  {
    result := "";
    var i := 0;
    while i < |draws|
      invariant 0 <= i <= |draws|
      invariant |result| == i
      invariant forall k :: 0 <= k < i ==> result[k] == chars[draws[k]]
    {
      result := result + [chars[draws[i]]];
      i := i + 1;
    }
  }

  /** `generateTempPassword`: eight characters from the 55-character alphabet. */
  method GenerateTempPassword(draws: seq<nat>) returns (password: string)
    requires |draws| == 8 && forall i :: 0 <= i < 8 ==> draws[i] < |TempAlphabet|
    ensures |password| == 8
    ensures forall i :: 0 <= i < 8 ==> password[i] == TempAlphabet[draws[i]]
  {
    password := RandomString(TempAlphabet, draws);
  }

  /** `generateTwoFactorSecret`: 32 base-32 characters. */
  method GenerateTwoFactorSecret(draws: seq<nat>) returns (secret: string)
    requires |draws| == 32 && forall i :: 0 <= i < 32 ==> draws[i] < |SecretAlphabet|
    ensures |secret| == 32
    ensures forall i :: 0 <= i < 32 ==> secret[i] == SecretAlphabet[draws[i]]
  {
    secret := RandomString(SecretAlphabet, draws);
  }

  // ---------------------------------------------------------------------------
  // The demo TOTP

  const Two32 := 0x1_0000_0000
  const Two31 := 0x8000_0000

  /** JavaScript's ToInt32: wrap into [-2^31, 2^31). */
  function ToInt32(x: int): (r: int)
    ensures -Two31 <= r < Two31
    ensures (r - x) % Two32 == 0
  {
    var m := x % Two32;
    if m >= Two31 then m - Two32 else m
  }

  /** One step of `simpleHash`: `((hash << 5) - hash) + char`, then `hash & hash`. */
  function HashStep(hash: int, code: int): int
  {
    ToInt32(ToInt32(hash * 32) - hash + code)
  }

  /** The 32-bit value `simpleHash` has built after reading `s`. */
  function Hash32(s: string): (h: int)
    ensures -Two31 <= h < Two31
  {
    if s == [] then 0 else HashStep(Hash32(s[..|s| - 1]), s[|s| - 1] as int)
  }

  /** The step is multiply-by-31-and-add, wrapped to 32 bits. */
  lemma HashStepIsPolynomial(hash: int, code: int)
    ensures HashStep(hash, code) == ToInt32(31 * hash + code)
  {
    var a := ToInt32(hash * 32) - hash + code;
    assert (a - (31 * hash + code)) % Two32 == 0;
    ToInt32Congruent(a, 31 * hash + code);
  }

  lemma ToInt32Congruent(a: int, b: int)
    requires (a - b) % Two32 == 0
    ensures ToInt32(a) == ToInt32(b)
  {
    var k := (a - b) / Two32;
    assert a == b + k * Two32;
    assert a % Two32 == b % Two32;
  }

  /** `simpleHash`: the loop over the characters, then `Math.abs`. */
  method SimpleHash(s: string) returns (r: int)
    ensures r == if Hash32(s) < 0 then -Hash32(s) else Hash32(s)
    ensures 0 <= r <= Two31
  {
    var hash := 0;
    var i := 0;
    while i < |s|
      invariant 0 <= i <= |s|
      invariant hash == Hash32(s[..i])
    {
      assert s[..i + 1][..i] == s[..i];
      hash := ToInt32(ToInt32(hash * 32) - hash + s[i] as int);
      i := i + 1;
    }
    assert s[..i] == s;
    r := if hash < 0 then -hash else hash;
  }

  /** The value `simpleHash` returns, for use in functions. */
  function AbsHash(s: string): (r: nat)
    ensures r <= Two31
  {
    var h := Hash32(s);
    if h < 0 then -h else h
  }

  /** `generateTOTP`: the hash of the secret and the slot, modulo 10^6, as six digits. */
  function GenerateTOTP(secret: string, slot: int): (token: string)
    ensures |token| == 6
    ensures forall i :: 0 <= i < 6 ==> IsDigit(token[i])
    ensures DigitsValue(token) == AbsHash(secret + IntToString(slot)) % 1000000
  {
    var n := AbsHash(secret + IntToString(slot)) % 1000000;
    SixDigits(n);
    PadZeros(NatToString(n), 6)
  }

  /** A number below 10^6, zero-padded to six, is six digits that read back as it. */
  lemma SixDigits(n: nat)
    requires n < 1000000
    ensures var token := PadZeros(NatToString(n), 6);
      |token| == 6 && (forall i :: 0 <= i < 6 ==> IsDigit(token[i])) && DigitsValue(token) == n
  {
    var digits := NatToString(n);
    assert Pow10(6) == 1000000 by {
      assert Pow10(1) == 10 && Pow10(2) == 100 && Pow10(3) == 1000;
    }
    NatToStringLengthBound(n, 6);
    NatToStringValue(n);
    LeadingZerosValue(6 - |digits|, digits);
  }

  /** The 30-second slot `Math.floor(now / 30000)`. */
  function TimeSlot(now: int): (t: int)
    ensures 30000 * t <= now < 30000 * t + 30000
  {
    now / 30000
  }

  /** `verifyTOTP`: the token of the current slot or of either neighbour. */
  function VerifyTOTP(token: string, secret: string, now: int): (ok: bool)
    ensures token == GenerateTOTP(secret, TimeSlot(now)) ==> ok
    ensures ok ==> |token| == 6 && forall i :: 0 <= i < 6 ==> IsDigit(token[i])
  {
    var t := TimeSlot(now);
    token == GenerateTOTP(secret, t) || token == GenerateTOTP(secret, t - 1) || token == GenerateTOTP(secret, t + 1)
  }

  /** Accepted tokens are exactly those generated within one slot of now. */
  lemma VerifyTOTPWindow(token: string, secret: string, now: int)
    ensures VerifyTOTP(token, secret, now) <==>
      exists slot :: TimeSlot(now) - 1 <= slot <= TimeSlot(now) + 1 && token == GenerateTOTP(secret, slot)
  {
    var t := TimeSlot(now);
    if exists slot :: t - 1 <= slot <= t + 1 && token == GenerateTOTP(secret, slot) {
      var slot :| t - 1 <= slot <= t + 1 && token == GenerateTOTP(secret, slot);
      assert slot == t - 1 || slot == t || slot == t + 1;
    }
  }

  /** A token read at time `issued` is still accepted at any `now` up to 30 seconds later. */
  lemma TokenLastsOneSlot(secret: string, issued: int, now: int)
    requires issued <= now <= issued + 30000
    ensures VerifyTOTP(GenerateTOTP(secret, TimeSlot(issued)), secret, now)
  {
    SlotsWithinOne(issued, now);
    var slot := TimeSlot(issued);
    VerifyTOTPWindow(GenerateTOTP(secret, slot), secret, now);
    assert TimeSlot(now) - 1 <= slot <= TimeSlot(now) + 1;
  }

  /** Two instants at most 30 seconds apart fall in the same slot or in neighbouring ones. */
  lemma SlotsWithinOne(issued: int, now: int)
    requires issued <= now <= issued + 30000
    ensures TimeSlot(now) - 1 <= TimeSlot(issued) <= TimeSlot(now)
  {
    var a, b := issued / 30000, now / 30000;
    assert issued == 30000 * a + issued % 30000;
    assert now == 30000 * b + now % 30000;
  }

  // ---------------------------------------------------------------------------
  // The activity log

  /** `logActivity`'s append then `splice`: the newest entry last, and only the
      newest `LogCapacity` entries kept. */
  function CapLog(log: seq<Record>, entry: Record): (r: seq<Record>)
    ensures |r| == if |log| + 1 > LogCapacity then LogCapacity else |log| + 1
    ensures r[|r| - 1] == entry
    ensures forall i :: 0 <= i < |r| - 1 ==> r[i] == log[|log| + 1 - |r| + i]
  {
    var all := log + [entry];
    if |all| > LogCapacity then all[|all| - LogCapacity..] else all
  }

  /** The entry `logActivity` appends: a fresh id, the caller's fields, the clock. */
  function ActivityEntry(activityId: string, kind: string, userId: string, details: string, now: int): Record
  {
    Record(activityId, map["type" := Str(kind), "userId" := Str(userId), "details" := Str(details), "timestamp" := Num(now)], {})
  }

  // ---------------------------------------------------------------------------
  // Seeding

  function SeedUser(id: string, email: string, password: string, name: string, role: string,
                    extra: map<string, Value>, now: int): (u: User)
    ensures u.active && u.userType == role && u.permissions == DefaultPermissions(role)
    ensures VerifyPassword(password, u.passwordHash)
  {
    User(id, email, HashPassword(password), name, role, DefaultPermissions(role), true, now,
         None, None, false, None, extra)
  }

  /** `initializeDefaultUsers`: the four demo accounts, one per role, all active. */
  function DefaultUsers(now: int): (us: seq<User>)
    ensures |us| == 4
    ensures forall i :: 0 <= i < 4 ==> us[i].active && us[i].permissions == DefaultPermissions(us[i].userType)
  {
    [SeedUser("user_admin_001", "admin@maptss.ao", "admin123", "Administrador MAPTSS", Admin, map[], now),
     SeedUser("user_gestor_001", "gestor@maptss.ao", "gestor123", "Gestor MAPTSS", Gestor, map[], now),
     SeedUser("user_empregador_001", "rh@empresa.ao", "empregador123", "RH Empresa XYZ", Employer,
              map["company" := Str("Empresa XYZ, Lda"), "sector" := Str("Tecnologia")], now),
     SeedUser("user_citizen_001", "joao.silva@email.com", "citizen123", "João Silva Santos", Citizen,
              map["citizenId" := Str("citizen_001")], now)]
  }

  // ---------------------------------------------------------------------------
  // Lookups over the user table

  /** The user `login` picks: the first matching email, role and password. */
  function LoginMatch(users: seq<User>, email: string, password: string, userType: string): (u: Option<User>)
    ensures u.None? <==> forall i :: 0 <= i < |users| ==>
      !(users[i].email == email && users[i].userType == userType && VerifyPassword(password, users[i].passwordHash))
    ensures u.Some? ==>
      (u.value in users && u.value.email == email && u.value.userType == userType
       && VerifyPassword(password, u.value.passwordHash))
    ensures u.Some? ==>
      exists i :: 0 <= i < |users| && users[i] == u.value
        && forall k :: 0 <= k < i ==>
             !(users[k].email == email && users[k].userType == userType && VerifyPassword(password, users[k].passwordHash))
  {
    var i := FindIndex(users, (u: User) => u.email == email && u.userType == userType && VerifyPassword(password, u.passwordHash));
    if i < 0 then None else Some(users[i])
  }

  function IndexOfId(users: seq<User>, id: string): (i: int)
    ensures -1 <= i < |users|
    ensures i == -1 <==> forall k :: 0 <= k < |users| ==> users[k].id != id
    ensures 0 <= i ==> users[i].id == id && forall k :: 0 <= k < i ==> users[k].id != id
  {
    FindIndex(users, (u: User) => u.id == id)
  }

  /** The first user with an id is the one `findIndex` finds. */
  lemma FirstWithIdIsIndex(users: seq<User>, id: string)
    ensures forall i :: 0 <= i < |users| && users[i].id == id && (forall k :: 0 <= k < i ==> users[k].id != id) ==>
      i == IndexOfId(users, id)
  {
  }

  predicate EmailTaken(users: seq<User>, email: string)
  {
    exists i :: 0 <= i < |users| && users[i].email == email
  }

  /** The session a successful login opens for `u`. */
  function OpenSession(u: User, now: int): (s: Session)
    ensures s.userId == u.id && s.userType == u.userType && s.permissions == u.permissions
    ensures s.expiresAt == now + SessionLength
  {
    Session(u.id, u.email, u.name, u.userType, u.permissions, now, now + SessionLength)
  }

  /** `MAPTSSAuth`. Its activity log is the `activities` table of `store`. */
  class Authenticator {
    var users: seq<User>
    var currentUser: Option<Session>
    var storedSession: Option<Session>
    const store: Database

    /** `new MAPTSSAuth()` over persisted users and session: seed the demo users
        when there are none, then `loadSession`. */
    constructor (store: Database, persistedUsers: seq<User>, persistedSession: Option<Session>, now: int)
      ensures this.store == store
      ensures users == if persistedUsers == [] then DefaultUsers(now) else persistedUsers
      ensures persistedSession.Some? && now < persistedSession.value.expiresAt ==>
        currentUser == persistedSession && storedSession == persistedSession
      ensures !(persistedSession.Some? && now < persistedSession.value.expiresAt) ==>
        currentUser.None? && storedSession.None?
    {
      this.store := store;
      users := if persistedUsers == [] then DefaultUsers(now) else persistedUsers;
      currentUser := None;
      storedSession := persistedSession;
      new;
      LoadSession(now);
    }

    /** `logActivity`: append one entry to the shared log and keep the newest 1000. */
    method LogActivity(activityId: string, kind: string, userId: string, details: string, now: int)
      modifies store
      ensures store.tables == old(store.tables)[ActivitiesTable :=
        CapLog(old(store.Load(ActivitiesTable)), ActivityEntry(activityId, kind, userId, details, now))]
      ensures store.indexes == old(store.indexes)
      ensures old(store.Consistent()) ==> store.Consistent()
    {
      var log := store.Load(ActivitiesTable);
      store.tables := store.tables[ActivitiesTable := CapLog(log, ActivityEntry(activityId, kind, userId, details, now))];
    }

    /** `login`. */
    method Login(email: string, password: string, userType: string, now: int, activityId: string)
      returns (result: Result<Session, AuthError>)
      modifies this, store
      ensures users == old(users)
      ensures LoginMatch(users, email, password, userType).None? ==>
        result == Err(InvalidCredentials) && currentUser == old(currentUser) && storedSession == old(storedSession)
        && store.tables == old(store.tables)
      ensures LoginMatch(users, email, password, userType).Some? && !LoginMatch(users, email, password, userType).value.active ==>
        result == Err(AccountDisabled) && currentUser == old(currentUser) && storedSession == old(storedSession)
        && store.tables == old(store.tables)
      ensures LoginMatch(users, email, password, userType).Some? && LoginMatch(users, email, password, userType).value.active ==>
        var s := OpenSession(LoginMatch(users, email, password, userType).value, now);
        && result == Ok(s) && currentUser == Some(s) && storedSession == Some(s)
        && store.tables == old(store.tables)[ActivitiesTable := CapLog(old(store.Load(ActivitiesTable)),
             ActivityEntry(activityId, "user_login", s.userId, "Login realizado com sucesso - " + userType, now))]
      ensures store.indexes == old(store.indexes)
    {
      var found := LoginMatch(users, email, password, userType);
      if found.None? {
        return Err(InvalidCredentials);
      }
      var user := found.value;
      if !user.active {
        return Err(AccountDisabled);
      }
      var session := OpenSession(user, now);
      storedSession := Some(session);
      currentUser := Some(session);
      LogActivity(activityId, "user_login", user.id, "Login realizado com sucesso - " + userType, now);
      result := Ok(session);
    }

    /** `logout`: log when someone was signed in, then drop the session. */
    method Logout(now: int, activityId: string)
      modifies this, store
      ensures currentUser.None? && storedSession.None? && users == old(users)
      ensures old(currentUser).None? ==> store.tables == old(store.tables)
      ensures old(currentUser).Some? ==>
        store.tables == old(store.tables)[ActivitiesTable := CapLog(old(store.Load(ActivitiesTable)),
          ActivityEntry(activityId, "user_logout", old(currentUser).value.userId, "Logout realizado", now))]
      ensures store.indexes == old(store.indexes)
    {
      if currentUser.Some? {
        LogActivity(activityId, "user_logout", currentUser.value.userId, "Logout realizado", now);
      }
      storedSession := None;
      currentUser := None;
    }

    /** `register`. */
    method Register(email: string, password: string, name: string, userType: string,
                    newId: string, now: int, activityId: string)
      returns (result: Result<Registration, AuthError>)
      modifies this, store
      ensures currentUser == old(currentUser) && storedSession == old(storedSession)
      ensures userType !in Roles ==> result == Err(InvalidUserType) && users == old(users) && store.tables == old(store.tables)
      ensures userType in Roles && EmailTaken(old(users), email) ==>
        result == Err(EmailInUse) && users == old(users) && store.tables == old(store.tables)
      ensures userType in Roles && !EmailTaken(old(users), email) ==>
        && users == old(users) + [User(newId, email, HashPassword(password), name, userType,
                                       DefaultPermissions(userType), userType == Citizen, now,
                                       None, None, false, None, map[])]
        && result == Ok(Registration(newId, userType != Citizen))
        && store.tables == old(store.tables)[ActivitiesTable := CapLog(old(store.Load(ActivitiesTable)),
             ActivityEntry(activityId, "user_registered", newId, "Nova conta criada - " + userType, now))]
      ensures store.indexes == old(store.indexes)
    {
      if userType !in Roles {
        return Err(InvalidUserType);
      }
      var existing := FindIndex(users, (u: User) => u.email == email);
      if existing >= 0 {
        return Err(EmailInUse);
      }
      var newUser := User(newId, email, HashPassword(password), name, userType,
                          DefaultPermissions(userType), userType == Citizen, now,
                          None, None, false, None, map[]);
      users := users + [newUser];
      LogActivity(activityId, "user_registered", newId, "Nova conta criada - " + userType, now);
      result := Ok(Registration(newId, userType != Citizen));
    }

    /** `changePassword`. */
    method ChangePassword(userId: string, currentPassword: string, newPassword: string, now: int, activityId: string)
      returns (result: Result<(), AuthError>)
      modifies this, store
      ensures currentUser == old(currentUser) && storedSession == old(storedSession)
      ensures IndexOfId(old(users), userId) == -1 ==>
        result == Err(UserNotFound) && users == old(users) && store.tables == old(store.tables)
      ensures var i := IndexOfId(old(users), userId);
        0 <= i && !VerifyPassword(currentPassword, old(users)[i].passwordHash) ==>
          result == Err(WrongPassword) && users == old(users) && store.tables == old(store.tables)
      ensures var i := IndexOfId(old(users), userId);
        0 <= i && VerifyPassword(currentPassword, old(users)[i].passwordHash) ==>
          && result == Ok(())
          && users == old(users)[i := old(users)[i].(passwordHash := HashPassword(newPassword), passwordChangedAt := Some(now))]
          && store.tables == old(store.tables)[ActivitiesTable := CapLog(old(store.Load(ActivitiesTable)),
               ActivityEntry(activityId, "password_changed", userId, "Senha alterada com sucesso", now))]
      ensures store.indexes == old(store.indexes)
    {
      var i := IndexOfId(users, userId);
      if i == -1 {
        return Err(UserNotFound);
      }
      if !VerifyPassword(currentPassword, users[i].passwordHash) {
        return Err(WrongPassword);
      }
      users := users[i := users[i].(passwordHash := HashPassword(newPassword), passwordChangedAt := Some(now))];
      LogActivity(activityId, "password_changed", userId, "Senha alterada com sucesso", now);
      result := Ok(());
    }

    /** `resetPassword`: the temporary password is drawn from `draws`. */
    method ResetPassword(email: string, userType: string, draws: seq<nat>, now: int, activityId: string)
      returns (result: Result<string, AuthError>)
      requires |draws| == 8 && forall i :: 0 <= i < 8 ==> draws[i] < |TempAlphabet|
      modifies this, store
      ensures currentUser == old(currentUser) && storedSession == old(storedSession)
      ensures (forall k :: 0 <= k < |old(users)| ==> !(old(users)[k].email == email && old(users)[k].userType == userType)) ==>
        result == Err(UserNotFound) && users == old(users) && store.tables == old(store.tables)
      ensures (exists k :: 0 <= k < |old(users)| && old(users)[k].email == email && old(users)[k].userType == userType) ==>
        result.Ok?
      ensures result.Ok? ==>
        && |result.value| == 8
        && (forall k :: 0 <= k < 8 ==> result.value[k] == TempAlphabet[draws[k]])
        && (exists i :: 0 <= i < |old(users)| && old(users)[i].email == email && old(users)[i].userType == userType
             && (forall k :: 0 <= k < i ==> !(old(users)[k].email == email && old(users)[k].userType == userType))
             && (var j := IndexOfId(old(users), old(users)[i].id);
                 && 0 <= j
                 && users == old(users)[j := old(users)[j].(passwordHash := HashPassword(result.value),
                                                           passwordResetAt := Some(now), mustChangePassword := true)]
                 && store.tables == old(store.tables)[ActivitiesTable := CapLog(old(store.Load(ActivitiesTable)),
                      ActivityEntry(activityId, "password_reset", old(users)[i].id, "Password reset solicitado", now))]))
      ensures result.Err? ==> result == Err(UserNotFound)
      ensures store.indexes == old(store.indexes)
    {
      var i := FindIndex(users, (u: User) => u.email == email && u.userType == userType);
      if i < 0 {
        return Err(UserNotFound);
      }
      var user := users[i];
      ghost var before, log := users, store.Load(ActivitiesTable);
      assert user.email == email && user.userType == userType;
      assert forall k :: 0 <= k < i ==> !(before[k].email == email && before[k].userType == userType);
      var temp := GenerateTempPassword(draws);
      var j := IndexOfId(users, user.id);
      users := users[j := users[j].(passwordHash := HashPassword(temp), passwordResetAt := Some(now), mustChangePassword := true)];
      LogActivity(activityId, "password_reset", user.id, "Password reset solicitado", now);
      assert store.tables == old(store.tables)[ActivitiesTable := CapLog(log,
               ActivityEntry(activityId, "password_reset", before[i].id, "Password reset solicitado", now))];
      assert j == IndexOfId(before, before[i].id) && 0 <= j;
      assert users == before[j := before[j].(passwordHash := HashPassword(temp), passwordResetAt := Some(now), mustChangePassword := true)];
      result := Ok(temp);
    }

    /** `isSessionValid`. */
    function IsSessionValid(now: int): (ok: bool)
      reads this
      ensures ok ==> currentUser.Some?
    {
      currentUser.Some? && now < currentUser.value.expiresAt
    }

    /** `isAuthenticated`. */
    function IsAuthenticated(now: int): (ok: bool)
      reads this
      ensures ok <==> IsSessionValid(now)
    {
      currentUser.Some? && IsSessionValid(now)
    }

    /** `hasPermission`: no expiry check. */
    predicate HasPermission(permission: string)
      reads this
    {
      currentUser.Some? && permission in currentUser.value.permissions
    }

    predicate HasRole(role: string)
      reads this
    {
      currentUser.Some? && currentUser.value.userType == role
    }

    /** `extendSession`. */
    method ExtendSession(now: int) returns (extended: bool)
      modifies this
      ensures users == old(users)
      ensures extended <==> old(IsSessionValid(now))
      ensures !extended ==> currentUser == old(currentUser) && storedSession == old(storedSession)
      ensures extended ==>
        currentUser == Some(old(currentUser).value.(expiresAt := now + SessionLength)) && storedSession == currentUser
    {
      if currentUser.Some? && IsSessionValid(now) {
        currentUser := Some(currentUser.value.(expiresAt := now + SessionLength));
        storedSession := currentUser;
        return true;
      }
      return false;
    }

    /** `loadSession`: adopt a stored session that has not expired, or discard it. */
    method LoadSession(now: int)
      modifies this
      ensures users == old(users)
      ensures old(storedSession).Some? && now < old(storedSession).value.expiresAt ==>
        currentUser == old(storedSession) && storedSession == old(storedSession)
      ensures old(storedSession).Some? && now >= old(storedSession).value.expiresAt ==>
        currentUser == old(currentUser) && storedSession.None?
      ensures old(storedSession).None? ==> currentUser == old(currentUser) && storedSession.None?
    {
      if storedSession.Some? {
        if now < storedSession.value.expiresAt {
          currentUser := storedSession;
        } else {
          storedSession := None;
        }
      }
    }

    /** `enableTwoFactor`: the secret is drawn from `draws`. */
    method EnableTwoFactor(userId: string, draws: seq<nat>) returns (result: Result<string, AuthError>)
      requires |draws| == 32 && forall i :: 0 <= i < 32 ==> draws[i] < |SecretAlphabet|
      modifies this
      ensures currentUser == old(currentUser) && storedSession == old(storedSession)
      ensures IndexOfId(old(users), userId) == -1 ==> result == Err(UserNotFound) && users == old(users)
      ensures var i := IndexOfId(old(users), userId);
        0 <= i ==>
          (result.Ok? && |result.value| == 32
           && users == old(users)[i := old(users)[i].(twoFactorSecret := Some(result.value))])
      ensures result.Ok? ==> forall k :: 0 <= k < 32 ==> result.value[k] == SecretAlphabet[draws[k]]
      ensures result.Ok? ==>
        0 <= IndexOfId(users, userId) && users[IndexOfId(users, userId)].twoFactorSecret == Some(result.value)
    {
      var i := IndexOfId(users, userId);
      if i == -1 {
        return Err(UserNotFound);
      }
      var secret := GenerateTwoFactorSecret(draws);
      users := users[i := users[i].(twoFactorSecret := Some(secret))];
      assert forall k :: 0 <= k < |users| ==> users[k].id == old(users)[k].id;
      result := Ok(secret);
    }

    /** `verifyTwoFactor`: false for an unknown user or one without two-factor. */
    function VerifyTwoFactor(userId: string, token: string, now: int): (ok: bool)
      reads this
      ensures ok ==> exists i :: 0 <= i < |users| && users[i].id == userId && users[i].twoFactorSecret.Some?
      ensures ok ==> |token| == 6
      ensures forall i :: 0 <= i < |users| && users[i].id == userId && users[i].twoFactorSecret.Some?
                           && (forall k :: 0 <= k < i ==> users[k].id != userId) ==>
                (ok <==> VerifyTOTP(token, users[i].twoFactorSecret.value, now))
    {
      var i := IndexOfId(users, userId);
      FirstWithIdIsIndex(users, userId);
      0 <= i && users[i].twoFactorSecret.Some? && VerifyTOTP(token, users[i].twoFactorSecret.value, now)
    }
  }

  /** Once `enableTwoFactor` has stored `secret` for `userId`, the current code
      for that secret is accepted, and every token is judged exactly as
      `verifyTOTP` judges it against that secret. */
  lemma TwoFactorRoundTrip(auth: Authenticator, userId: string, secret: string, now: int)
    requires 0 <= IndexOfId(auth.users, userId)
    requires auth.users[IndexOfId(auth.users, userId)].twoFactorSecret == Some(secret)
    ensures auth.VerifyTwoFactor(userId, GenerateTOTP(secret, TimeSlot(now)), now)
    ensures forall token :: auth.VerifyTwoFactor(userId, token, now) <==> VerifyTOTP(token, secret, now)
  {
  }

  /** Once `u` has signed in at `loginAt`, the rights checks answer from `u`'s own
      record, and the session counts as authenticated until eight hours later. */
  lemma SignedInRights(auth: Authenticator, u: User, loginAt: int, now: int, permission: string, role: string)
    requires auth.currentUser == Some(OpenSession(u, loginAt))
    ensures auth.HasPermission(permission) <==> permission in u.permissions
    ensures auth.HasRole(role) <==> role == u.userType
    ensures auth.IsSessionValid(now) <==> auth.IsAuthenticated(now)
    ensures auth.IsAuthenticated(now) <==> now < loginAt + SessionLength
  {
  }

  /** After a successful login the signed-in user's permissions are exactly the stored user's,
      the session stays valid for eight hours, and expires after that. */
  lemma LoginSessionWindow(u: User, loginAt: int, now: int)
    ensures var s := OpenSession(u, loginAt);
      && (forall p :: p in s.permissions <==> p in u.permissions)
      && (loginAt <= now < loginAt + SessionLength <==> loginAt <= now && now < s.expiresAt)
  {
  }

  /** After `changePassword` the new password verifies against the stored hash and no other password does. */
  lemma ChangedPasswordVerifies(u: User, newPassword: string, now: int, p: string)
    ensures var v := u.(passwordHash := HashPassword(newPassword), passwordChangedAt := Some(now));
      VerifyPassword(p, v.passwordHash) <==> p == newPassword
  {
    VerifyExactly(p, newPassword);
  }

  /** A log that was within capacity stays within it; appending evicts only the oldest entry. */
  lemma CapLogEvictsOldest(log: seq<Record>, entry: Record)
    requires |log| == LogCapacity
    ensures CapLog(log, entry) == log[1..] + [entry]
  {
  }
}
