/** Accounts and refresh tokens: sign-up, login, refresh and logout (app/services/auth.py), with the token
    kinds and expiry arithmetic of app/core/security.py. */
module Tokens {
  import opened Prelude
  import opened Store
  import Ownership

  /** A point in time as the clock gives it: microseconds since 1970. */
  type Clock = nat

  datatype Kind = Access | Id | Refresh

  /** The claims of a token; its times are whole seconds. */
  datatype Token = Token(sub: UserId, kind: Kind, jti: string, iat: nat, exp: nat)

  /** Lifetimes in seconds, and the password library. */
  datatype Settings = Settings(ttl: Kind -> nat, hash: string -> string, verify: (string, string) -> bool)

  datatype Accounts = Accounts(users: map<UserId, User>, tokens: map<string, RefreshRow>)

  // ---------- Tokens ----------

  function ExpiryOf(cfg: Settings, kind: Kind, now: Clock): Clock {
    now + cfg.ttl(kind) * SECOND
  }

  /** `mint_token`: the `exp` claim is the expiry rounded down to a second. */
  function Mint(cfg: Settings, sub: UserId, kind: Kind, jti: string, now: Clock): Token {
    Token(sub, kind, jti, now / SECOND, ExpiryOf(cfg, kind, now) / SECOND)
  }

  /** `decode_token`: the signature, the two time claims (section 4.1.4 of RFC 7519 for `exp`) and the kind. */
  predicate Decodes(token: Token, signed: bool, expected: Kind, now: Clock) {
    signed && token.iat * SECOND <= now < token.exp * SECOND && token.kind == expected
  }

  // ---------- The calls ----------

  /** The user a name stands for; names are unique. */
  ghost function ByName(users: map<UserId, User>, name: string): Option<UserId> {
    if exists u :: u in users && users[u].name == name then
      var u :| u in users && users[u].name == name;
      Some(u)
    else None
  }

  ghost function SignUp(
    cfg: Settings, a: Accounts, id: UserId, name: string, password: string, code: string, now: Clock)
    : (Accounts, Result<()>)
  {
    if ByName(a.users, name).Some? then (a, Err(Conflict))
    else if id in a.users then (a, Err(Crash))
    else
      var added := User(name, Some(cfg.hash(password)), false, Some(Code(code, now + 24 * HOUR)), None);
      (a.(users := a.users[id := added]), Ok(()))
  }

  ghost function Confirm(a: Accounts, name: string, code: string, now: Clock): (Accounts, Result<()>) {
    match ByName(a.users, name)
    case None => (a, Err(NotFound))
    case Some(u) =>
      var pending := a.users[u].confirm;
      if pending.None? || pending.value.expires < now || pending.value.code != code then (a, Err(Invalid))
      else (a.(users := a.users[u := a.users[u].(confirmed := true, confirm := None)]), Ok(()))
  }

  /** `login_password`: the refresh row is committed only if its random id is unused and the new token decodes. */
  ghost function Login(
    cfg: Settings, a: Accounts, name: string, password: string, jti: string, now: Clock): (Accounts, Result<Token>)
  {
    match ByName(a.users, name)
    case None => (a, Err(Unauthorized))
    case Some(u) =>
      var user := a.users[u];
      if user.hash.None? || !cfg.verify(password, user.hash.value) || !user.confirmed then (a, Err(Unauthorized))
      else
        var token := Mint(cfg, u, Refresh, jti, now);
        if !Decodes(token, true, Refresh, now) || jti in a.tokens then (a, Err(Crash))
        else (a.(tokens := a.tokens[jti := RefreshRow(u, ExpiryOf(cfg, Refresh, now), None)]), Ok(token))
  }

  /** `login_refresh`: it decides, and changes nothing. */
  predicate RefreshOk(a: Accounts, token: Token, signed: bool, now: Clock) {
    Decodes(token, signed, Refresh, now) && token.jti != "" &&
    token.jti in a.tokens && a.tokens[token.jti].revoked.None? && now <= a.tokens[token.jti].expires &&
    token.sub in a.users && a.users[token.sub].confirmed
  }

  function LogOut(a: Accounts, user: UserId, now: Clock): Accounts {
    a.(tokens := map j | j in a.tokens ::
      if a.tokens[j].user == user && a.tokens[j].revoked.None? then a.tokens[j].(revoked := Some(now)) else a.tokens[j])
  }

  function ChangePassword(
    cfg: Settings, a: Accounts, user: UserId, current: string, new': string): (Accounts, Result<()>)
  {
    if user !in a.users || a.users[user].hash.None? || !cfg.verify(current, a.users[user].hash.value) then
      (a, Err(Unauthorized))
    else (a.(users := a.users[user := a.users[user].(hash := Some(cfg.hash(new')))]), Ok(()))
  }

  ghost function RequestReset(a: Accounts, name: string, code: string, now: Clock): Accounts {
    match ByName(a.users, name)
    case None => a
    case Some(u) => a.(users := a.users[u := a.users[u].(reset := Some(Code(code, now + HOUR)))])
  }

  ghost function ConfirmReset(
    cfg: Settings, a: Accounts, name: string, code: string, password: string, now: Clock): (Accounts, Result<()>)
  {
    match ByName(a.users, name)
    case None => (a, Err(Invalid))
    case Some(u) =>
      var pending := a.users[u].reset;
      if pending.None? || pending.value.expires < now || pending.value.code != code then (a, Err(Invalid))
      else (a.(users := a.users[u := a.users[u].(hash := Some(cfg.hash(password)), reset := None)]), Ok(()))
  }

  function DeleteAccount(a: Accounts, user: UserId): Accounts {
    Accounts(a.users - {user}, map j | j in a.tokens && a.tokens[j].user != user :: a.tokens[j])
  }

  // ---------- Traces ----------

  datatype Event =
    | SigningUp(id: UserId, name: string, password: string, code: string, now: Clock)
    | Confirming(name: string, code: string, now: Clock)
    | LoggingIn(name: string, password: string, jti: string, now: Clock)
    | Refreshing(token: Token, now: Clock)
    | LoggingOut(caller: UserId, now: Clock)
    | ChangingPassword(caller: UserId, password: string, next: string)
    | RequestingReset(name: string, code: string, now: Clock)
    | Resetting(name: string, code: string, password: string, now: Clock)
    | Deleting(caller: UserId)

  /** The accounts, and the refresh tokens that carry the server's signature: those it has minted. */
  datatype World = World(a: Accounts, signed: set<Token>)

  /** The route lets a call through for an existing, confirmed user. */
  predicate Known(a: Accounts, user: UserId) {
    user in a.users && a.users[user].confirmed
  }

  ghost function Step(cfg: Settings, w: World, e: Event): World {
    match e
    case SigningUp(id, name, password, code, now) => w.(a := SignUp(cfg, w.a, id, name, password, code, now).0)
    case Confirming(name, code, now) => w.(a := Confirm(w.a, name, code, now).0)
    case LoggingIn(name, password, jti, now) =>
      var (a, r) := Login(cfg, w.a, name, password, jti, now);
      World(a, if r.Ok? then w.signed + {r.value} else w.signed)
    case Refreshing(_, _) => w
    case LoggingOut(u, now) => if Known(w.a, u) then w.(a := LogOut(w.a, u, now)) else w
    case ChangingPassword(u, password, next) =>
      if Known(w.a, u) then w.(a := ChangePassword(cfg, w.a, u, password, next).0) else w
    case RequestingReset(name, code, now) => w.(a := RequestReset(w.a, name, code, now))
    case Resetting(name, code, password, now) => w.(a := ConfirmReset(cfg, w.a, name, code, password, now).0)
    case Deleting(u) => if Known(w.a, u) then w.(a := DeleteAccount(w.a, u)) else w
  }

  ghost function Run(cfg: Settings, trace: seq<Event>): World {
    if trace == [] then World(Accounts(map[], map[]), {})
    else Step(cfg, Run(cfg, trace[..|trace| - 1]), trace[|trace| - 1])
  }

  /** The random ids of refresh tokens are never drawn twice, and never empty. */
  ghost predicate JtisDistinct(trace: seq<Event>) {
    (forall i :: 0 <= i < |trace| && trace[i].LoggingIn? ==> trace[i].jti != "") &&
    forall i, j :: 0 <= i < j < |trace| && trace[i].LoggingIn? && trace[j].LoggingIn? ==> trace[i].jti != trace[j].jti
  }

  /** The event is a successful login that mints `token`. */
  ghost predicate Mints(cfg: Settings, w: World, e: Event, token: Token) {
    e.LoggingIn? && Login(cfg, w.a, e.name, e.password, e.jti, e.now).1 == Ok(token)
  }

  predicate Ends(e: Event, user: UserId) {
    (e.LoggingOut? && e.caller == user) || (e.Deleting? && e.caller == user)
  }

  /** Login `i` minted the token, and its user neither logged out nor was deleted since. */
  ghost predicate LiveSince(cfg: Settings, trace: seq<Event>, i: nat, token: Token) {
    i < |trace| && Mints(cfg, Run(cfg, trace[..i]), trace[i], token) &&
    forall k :: i < k < |trace| ==> !Ends(trace[k], token.sub)
  }

  ghost predicate Live(cfg: Settings, trace: seq<Event>, token: Token) {
    exists i: nat :: LiveSince(cfg, trace, i, token)
  }

  // ---------- What the rows mean ----------

  /** The row of a signed refresh token is there and not revoked. */
  predicate Active(w: World, token: Token) {
    token in w.signed && token.jti in w.a.tokens && w.a.tokens[token.jti].revoked.None?
  }

  ghost predicate TokenOk(used: set<string>, token: Token) {
    token.kind == Refresh && token.jti in used && token.jti != ""
  }

  /** The row belongs to a confirmed user and records the expiry of the one token with its id. */
  ghost predicate RowOk(w: World, jti: string)
    requires jti in w.a.tokens
  {
    var row := w.a.tokens[jti];
    row.expires >= 0 && Known(w.a, row.user) &&
    forall token :: token in w.signed && token.jti == jti ==> token.sub == row.user && token.exp == row.expires / SECOND
  }

  ghost predicate Inv(w: World, used: set<string>) {
    && (forall token :: token in w.signed ==> TokenOk(used, token))
    && (forall a, b :: a in w.signed && b in w.signed && a.jti == b.jti ==> a == b)
    && (forall jti :: jti in w.a.tokens ==> jti in used && RowOk(w, jti))
  }

  function Used(trace: seq<Event>): (r: set<string>)
    ensures forall jti :: jti in r <==> exists i :: 0 <= i < |trace| && trace[i].LoggingIn? && trace[i].jti == jti
  {
    set i | 0 <= i < |trace| && trace[i].LoggingIn? :: trace[i].jti
  }

  /** No call unconfirms a user, and only a deletion removes one. */
  lemma UsersStay(cfg: Settings, w: World, e: Event, user: UserId)
    requires Known(w.a, user) && !(e.Deleting? && e.caller == user)
    ensures Known(Step(cfg, w, e).a, user)
  {
  }

  lemma LoginKeepsInv(cfg: Settings, w: World, e: Event, used: set<string>)
    requires e.LoggingIn? && e.jti !in used && e.jti != "" && Inv(w, used)
    ensures Inv(Step(cfg, w, e), used + {e.jti})
  {
    var w' := Step(cfg, w, e);
    forall jti | jti in w'.a.tokens ensures RowOk(w', jti) {
      if jti in w.a.tokens {
        assert RowOk(w, jti);
      }
    }
  }

  lemma StepKeepsInv(cfg: Settings, w: World, e: Event, used: set<string>)
    requires Inv(w, used) && (e.LoggingIn? ==> e.jti !in used && e.jti != "")
    ensures Inv(Step(cfg, w, e), if e.LoggingIn? then used + {e.jti} else used)
  {
    if e.LoggingIn? {
      LoginKeepsInv(cfg, w, e, used);
    } else {
      var w' := Step(cfg, w, e);
      assert w'.signed == w.signed;
      forall jti | jti in w'.a.tokens ensures jti in w.a.tokens && RowOk(w', jti) {
        assert RowOk(w, jti);
        UsersStay(cfg, w, e, w.a.tokens[jti].user);
      }
    }
  }

  lemma {:induction false} RunKeepsInv(cfg: Settings, trace: seq<Event>)
    requires JtisDistinct(trace)
    ensures Inv(Run(cfg, trace), Used(trace))
  {
    if trace != [] {
      var (front, e) := (trace[..|trace| - 1], trace[|trace| - 1]);
      JtiIsNew(trace);
      RunKeepsInv(cfg, front);
      StepKeepsInv(cfg, Run(cfg, front), e, Used(front));
      UsedGrows(trace);
    }
  }

  lemma UsedGrows(trace: seq<Event>)
    requires trace != []
    ensures
      var (front, e) := (trace[..|trace| - 1], trace[|trace| - 1]);
      Used(trace) == if e.LoggingIn? then Used(front) + {e.jti} else Used(front)
  {
  }

  /** The crux: a token's row is active after an event exactly when the event minted it, or it was active
      and the event is not the end of its user's sessions. */
  lemma ActiveStep(cfg: Settings, w: World, e: Event, used: set<string>, token: Token)
    requires Inv(w, used) && (e.LoggingIn? ==> e.jti !in used)
    ensures Active(Step(cfg, w, e), token) <==> Mints(cfg, w, e, token) || (Active(w, token) && !Ends(e, token.sub))
  {
    if token in w.signed && token.jti in w.a.tokens {
      assert RowOk(w, token.jti);
    }
  }

  lemma LiveSnoc(cfg: Settings, front: seq<Event>, e: Event, token: Token)
    ensures Live(cfg, front + [e], token) <==>
      Mints(cfg, Run(cfg, front), e, token) || (Live(cfg, front, token) && !Ends(e, token.sub))
  {
    var trace := front + [e];
    assert trace[..|front|] == front;
    if Mints(cfg, Run(cfg, front), e, token) {
      assert LiveSince(cfg, trace, |front|, token);
    }
    forall i: nat | i < |front|
      ensures LiveSince(cfg, trace, i, token) <==> LiveSince(cfg, front, i, token) && !Ends(e, token.sub)
    {
      assert trace[..i] == front[..i];
      assert forall k :: 0 <= k < |front| ==> trace[k] == front[k];
      if LiveSince(cfg, trace, i, token) {
        assert trace[|front|] == e;
      }
    }
  }

  lemma JtiIsNew(trace: seq<Event>)
    requires trace != [] && JtisDistinct(trace)
    ensures
      var (front, e) := (trace[..|trace| - 1], trace[|trace| - 1]);
      JtisDistinct(front) && (e.LoggingIn? ==> e.jti !in Used(front) && e.jti != "") && trace == front + [e]
  {
  }

  /** Over whole traces: a token is active exactly when a login minted it and its user's sessions have not
      ended since. */
  lemma {:induction false} ActiveIffLive(cfg: Settings, trace: seq<Event>, token: Token)
    requires JtisDistinct(trace)
    ensures Active(Run(cfg, trace), token) <==> Live(cfg, trace, token)
  {
    if trace != [] {
      var (front, e) := (trace[..|trace| - 1], trace[|trace| - 1]);
      JtiIsNew(trace);
      ActiveIffLive(cfg, front, token);
      RunKeepsInv(cfg, front);
      ActiveStep(cfg, Run(cfg, front), e, Used(front), token);
      LiveSnoc(cfg, front, e, token);
    }
  }

  /** The token's own expiry check implies the one on the stored row. */
  lemma FlooredExpiry(expires: Clock, now: Clock)
    ensures now < (expires / SECOND) * SECOND ==> now <= expires
  {
  }

  /** Refresh, characterised over traces: it succeeds exactly when a password login minted the token, its
      user has neither logged out nor been deleted since, and the time is before the floored expiry (and
      not before the second of issue). In particular a password change does not end a session. A token is
      presented as `signed` if its signature checks, which for a refresh token means the server minted it. */
  lemma RefreshIff(cfg: Settings, trace: seq<Event>, token: Token, signed: bool, now: Clock)
    requires JtisDistinct(trace)
    requires token in Run(cfg, trace).signed ==> signed
    requires signed && token.kind == Refresh ==> token in Run(cfg, trace).signed
    ensures RefreshOk(Run(cfg, trace).a, token, signed, now) <==>
      Live(cfg, trace, token) && token.iat * SECOND <= now < token.exp * SECOND
  {
    var w := Run(cfg, trace);
    RunKeepsInv(cfg, trace);
    ActiveIffLive(cfg, trace, token);
    if Active(w, token) {
      assert TokenOk(Used(trace), token) && RowOk(w, token.jti);
      FlooredExpiry(w.a.tokens[token.jti].expires, now);
    }
  }

  /** What the login puts in the token: the user's own id, and the configured lifetime in whole seconds. */
  lemma MintedLifetime(cfg: Settings, w: World, e: Event, token: Token)
    requires Mints(cfg, w, e, token)
    ensures token.sub in w.a.users && w.a.users[token.sub].name == e.name && w.a.users[token.sub].confirmed
    ensures token.exp == token.iat + cfg.ttl(Refresh)
    ensures token.iat * SECOND <= e.now < (token.iat + 1) * SECOND
  {
  }

  /** An account exists confirmed only by way of its code, and a login needs that account. */
  lemma SignUpFlow(
    cfg: Settings, a: Accounts, id: UserId, name: string, password: string, code: string, given: string, now: Clock,
    later: Clock)
    requires SignUp(cfg, a, id, name, password, code, now).1.Ok? && Ownership.NamesUnique(a.users)
    ensures
      var signedUp := SignUp(cfg, a, id, name, password, code, now).0;
      var (a', r) := Confirm(signedUp, name, given, later);
      Ownership.NamesUnique(signedUp.users) && !Known(signedUp, id) &&
      (r.Ok? <==> given == code && later <= now + 86400 * SECOND) && (r.Ok? <==> Known(a', id))
  {
  }

  /** Every call but a deletion lets the other users be, as the ownership machine assumes. */
  lemma CallsEvolveAccounts(cfg: Settings, w: World, e: Event)
    requires Ownership.NamesUnique(w.a.users) && !e.Deleting?
    ensures Ownership.AccountsEvolve(w.a.users, Step(cfg, w, e).a.users)
  {
    var users := w.a.users;
    match e
    case SigningUp(id, name, password, code, now) =>
      if SignUp(cfg, w.a, id, name, password, code, now).1.Ok? {
        NewNameEvolves(users, id, User(name, Some(cfg.hash(password)), false, Some(Code(code, now + 24 * HOUR)), None));
      }
    case ChangingPassword(u, password, next) =>
      if u in users { SameNameEvolves(users, u, users[u].(hash := Some(cfg.hash(next)))); }
    case Confirming(name, code, now) =>
      if ByName(users, name).Some? {
        var u := ByName(users, name).value;
        SameNameEvolves(users, u, users[u].(confirmed := true, confirm := None));
      }
    case RequestingReset(name, code, now) =>
      if ByName(users, name).Some? {
        var u := ByName(users, name).value;
        SameNameEvolves(users, u, users[u].(reset := Some(Code(code, now + HOUR))));
      }
    case Resetting(name, code, password, now) =>
      if ByName(users, name).Some? {
        var u := ByName(users, name).value;
        SameNameEvolves(users, u, users[u].(hash := Some(cfg.hash(password)), reset := None));
      }
    case _ =>
  }

  lemma NewNameEvolves(users: map<UserId, User>, id: UserId, user: User)
    requires Ownership.NamesUnique(users) && id !in users && forall u :: u in users ==> users[u].name != user.name
    ensures Ownership.AccountsEvolve(users, users[id := user])
  {
  }

  lemma SameNameEvolves(users: map<UserId, User>, u: UserId, user: User)
    requires Ownership.NamesUnique(users) && u in users && user.name == users[u].name
    ensures Ownership.AccountsEvolve(users, users[u := user])
  {
  }

  // ---------- Passwords ----------

  lemma NameFound(users: map<UserId, User>, id: UserId)
    requires Ownership.NamesUnique(users) && id in users
    ensures ByName(users, users[id].name) == Some(id)
  {
  }

  /** The user of the name is confirmed, and the password verifies against the stored hash. */
  ghost predicate Authenticates(cfg: Settings, a: Accounts, u: UserId, name: string, password: string) {
    u in a.users && a.users[u].name == name && a.users[u].confirmed &&
    a.users[u].hash.Some? && cfg.verify(password, a.users[u].hash.value)
  }

  lemma NamedIs(users: map<UserId, User>, u: UserId, name: string)
    requires Ownership.NamesUnique(users)
    ensures ByName(users, name) == Some(u) <==> u in users && users[u].name == name
  {
  }

  /** A password login succeeds exactly for a confirmed user of the name whose stored hash the password
      verifies against (given a lifetime and an unused id); it then stores one row and answers its token. */
  lemma LoginIff(cfg: Settings, a: Accounts, name: string, password: string, jti: string, now: Clock)
    requires Ownership.NamesUnique(a.users)
    ensures
      var (a', r) := Login(cfg, a, name, password, jti, now);
      (r.Ok? <==>
         (exists u :: Authenticates(cfg, a, u, name, password)) && cfg.ttl(Refresh) > 0 && jti !in a.tokens) &&
      (r == Err(Unauthorized) <==> !exists u :: Authenticates(cfg, a, u, name, password)) &&
      (r.Err? ==> a' == a && r.error in {Unauthorized, Crash}) &&
      (r.Ok? ==>
         Authenticates(cfg, a, r.value.sub, name, password) && r.value.kind == Refresh && r.value.jti == jti &&
         a' == a.(tokens := a.tokens[jti := RefreshRow(r.value.sub, now + cfg.ttl(Refresh) * SECOND, None)]))
  {
    var found := ByName(a.users, name);
    if found.Some? {
      MintedDecodes(cfg, found.value, jti, now);
      NamedIs(a.users, found.value, name);
    }
    if u :| Authenticates(cfg, a, u, name, password) {
      NamedIs(a.users, u, name);
    }
    if Login(cfg, a, name, password, jti, now).1 != Err(Unauthorized) {
      assert Authenticates(cfg, a, found.value, name, password);
    }
  }

  lemma MintedDecodes(cfg: Settings, sub: UserId, jti: string, now: Clock)
    ensures (now + cfg.ttl(Refresh) * SECOND) / SECOND == now / SECOND + cfg.ttl(Refresh)
    ensures Decodes(Mint(cfg, sub, Refresh, jti, now), true, Refresh, now) <==> cfg.ttl(Refresh) > 0
  {
  }

  /** A change needs the current password and replaces the hash of that user; otherwise nothing happens. */
  lemma ChangeExact(cfg: Settings, a: Accounts, user: UserId, current: string, next: string)
    ensures
      var (a', r) := ChangePassword(cfg, a, user, current, next);
      (r.Ok? <==> user in a.users && a.users[user].hash.Some? && cfg.verify(current, a.users[user].hash.value)) &&
      (r.Err? ==> r == Err(Unauthorized)) &&
      a' == if r.Err? then a else a.(users := a.users[user := a.users[user].(hash := Some(cfg.hash(next)))])
  {
  }

  /** A reset needs the code last sent to the user, within the hour, and replaces the hash. */
  lemma ResetFlow(
    cfg: Settings, a: Accounts, u: UserId, code: string, given: string, password: string, now: Clock, later: Clock)
    requires Ownership.NamesUnique(a.users) && u in a.users
    ensures
      var name := a.users[u].name;
      var asked := RequestReset(a, name, code, now);
      var (a', r) := ConfirmReset(cfg, asked, name, given, password, later);
      (r.Ok? <==> given == code && later <= now + 3600 * SECOND) && asked.tokens == a.tokens && a'.tokens == a.tokens &&
      asked.users == a.users[u := a.users[u].(reset := Some(Code(code, now + HOUR)))] &&
      var done := a.users[u].(hash := Some(cfg.hash(password)), reset := None);
      a'.users == if r.Err? then asked.users else a.users[u := done]
  {
    NameFound(a.users, u);
    var asked := RequestReset(a, a.users[u].name, code, now);
    SameNameEvolves(a.users, u, asked.users[u]);
    NameFound(asked.users, u);
  }

  /** The event sets the user's password. */
  ghost function SetBy(cfg: Settings, w: World, e: Event, u: UserId): Option<string> {
    match e
    case SigningUp(id, name, password, code, now) =>
      if id == u && SignUp(cfg, w.a, id, name, password, code, now).1.Ok? then Some(password) else None
    case ChangingPassword(id, password, next) =>
      if id == u && Known(w.a, u) && ChangePassword(cfg, w.a, u, password, next).1.Ok? then Some(next) else None
    case Resetting(name, code, password, now) =>
      if u in w.a.users && w.a.users[u].name == name && ConfirmReset(cfg, w.a, name, code, password, now).1.Ok? then
        Some(password)
      else None
    case _ => None
  }

  /** The password last set for the user. */
  ghost function PasswordOf(cfg: Settings, trace: seq<Event>, u: UserId): Option<string> {
    if trace == [] then None
    else
      var (front, e) := (trace[..|trace| - 1], trace[|trace| - 1]);
      if SetBy(cfg, Run(cfg, front), e, u).Some? then SetBy(cfg, Run(cfg, front), e, u) else PasswordOf(cfg, front, u)
  }

  ghost predicate HashIs(cfg: Settings, a: Accounts, u: UserId, password: Option<string>) {
    u in a.users ==> password.Some? && a.users[u].hash == Some(cfg.hash(password.value))
  }

  lemma StepSetsHash(cfg: Settings, w: World, e: Event, u: UserId, password: Option<string>)
    requires Ownership.NamesUnique(w.a.users) && HashIs(cfg, w.a, u, password)
    ensures HashIs(cfg, Step(cfg, w, e).a, u, if SetBy(cfg, w, e, u).Some? then SetBy(cfg, w, e, u) else password)
  {
    if u in w.a.users {
      NameFound(w.a.users, u);
    }
  }

  lemma DeletionKeepsNames(cfg: Settings, w: World, e: Event)
    requires Ownership.NamesUnique(w.a.users)
    ensures Ownership.NamesUnique(Step(cfg, w, e).a.users)
  {
    if !e.Deleting? {
      CallsEvolveAccounts(cfg, w, e);
    }
  }

  lemma {:induction false} HashIsLastSet(cfg: Settings, trace: seq<Event>, u: UserId)
    ensures Ownership.NamesUnique(Run(cfg, trace).a.users)
    ensures HashIs(cfg, Run(cfg, trace).a, u, PasswordOf(cfg, trace, u))
  {
    if trace != [] {
      var (front, e) := (trace[..|trace| - 1], trace[|trace| - 1]);
      HashIsLastSet(cfg, front, u);
      StepSetsHash(cfg, Run(cfg, front), e, u, PasswordOf(cfg, front, u));
      DeletionKeepsNames(cfg, Run(cfg, front), e);
    }
  }

  /** Over any trace: a password login succeeds exactly for a confirmed user of the name, with a password that
      verifies against the hash of the one last set by sign-up, change or reset. */
  lemma LoginIffLastPassword(cfg: Settings, trace: seq<Event>, name: string, password: string, jti: string, now: Clock)
    requires cfg.ttl(Refresh) > 0 && jti !in Run(cfg, trace).a.tokens
    ensures Login(cfg, Run(cfg, trace).a, name, password, jti, now).1.Ok? <==>
      exists u :: u in Run(cfg, trace).a.users && Run(cfg, trace).a.users[u].name == name &&
        Run(cfg, trace).a.users[u].confirmed &&
        PasswordOf(cfg, trace, u).Some? && cfg.verify(password, cfg.hash(PasswordOf(cfg, trace, u).value))
  {
    var a := Run(cfg, trace).a;
    HashIsLastSet(cfg, trace, Uuid(0));
    LoginIff(cfg, a, name, password, jti, now);
    forall u | u in a.users
      ensures PasswordOf(cfg, trace, u).Some? && a.users[u].hash == Some(cfg.hash(PasswordOf(cfg, trace, u).value))
    {
      HashIsLastSet(cfg, trace, u);
    }
  }

  /** A sign-up succeeds exactly for a new name and id. */
  lemma SignUpIff(cfg: Settings, a: Accounts, id: UserId, name: string, password: string, code: string, now: Clock)
    ensures
      var (a', r) := SignUp(cfg, a, id, name, password, code, now);
      (r.Ok? <==> id !in a.users && forall u :: u in a.users ==> a.users[u].name != name) &&
      (r == Err(Conflict) <==> exists u :: u in a.users && a.users[u].name == name) &&
      (r.Err? ==> a' == a && r.error in {Conflict, Crash})
  {
  }

  /** From sign-up to login: after confirmation by the code, exactly a password that verifies against the hash
      of the chosen one logs in; before it, none does. */
  lemma SignUpThenLogin(
    cfg: Settings, a: Accounts, id: UserId, name: string, password: string, code: string, given: string, jti: string,
    now: Clock)
    requires Ownership.NamesUnique(a.users) && SignUp(cfg, a, id, name, password, code, now).1.Ok?
    requires cfg.ttl(Refresh) > 0 && jti !in a.tokens
    ensures
      var signedUp := SignUp(cfg, a, id, name, password, code, now).0;
      var confirmed := Confirm(signedUp, name, code, now).0;
      Login(cfg, signedUp, name, given, jti, now).1.Err? &&
      (Login(cfg, confirmed, name, given, jti, now).1.Ok? <==> cfg.verify(given, cfg.hash(password)))
  {
    var signedUp := SignUp(cfg, a, id, name, password, code, now).0;
    SignUpFlow(cfg, a, id, name, password, code, code, now, now);
    var confirmed := Confirm(signedUp, name, code, now).0;
    NamedIs(signedUp.users, id, name);
    SameNameEvolves(signedUp.users, id, confirmed.users[id]);
    NamedIs(confirmed.users, id, name);
    LoginIff(cfg, signedUp, name, given, jti, now);
    LoginIff(cfg, confirmed, name, given, jti, now);
  }

  lemma RunSnoc(cfg: Settings, trace: seq<Event>, e: Event)
    ensures Run(cfg, trace + [e]) == Step(cfg, Run(cfg, trace), e)
  {
  }

  /** From nothing, three events give a user a token that refreshes at once. */
  lemma RunsCanRefresh(cfg: Settings, id: UserId, name: string, password: string, code: string, jti: string, now: Clock)
    requires cfg.ttl(Refresh) > 0 && cfg.verify(password, cfg.hash(password)) && jti != ""
    ensures
      var trace := [SigningUp(id, name, password, code, now), Confirming(name, code, now),
                    LoggingIn(name, password, jti, now)];
      var token := Token(id, Refresh, jti, now / SECOND, now / SECOND + cfg.ttl(Refresh));
      token in Run(cfg, trace).signed && RefreshOk(Run(cfg, trace).a, token, true, now)
  {
    var (e0, e1, e2) :=
      (SigningUp(id, name, password, code, now), Confirming(name, code, now), LoggingIn(name, password, jti, now));
    var trace := [e0, e1, e2];
    assert [] + [e0] == [e0] && [e0] + [e1] == [e0, e1] && [e0, e1] + [e2] == trace;
    RunSnoc(cfg, [], e0);
    RunSnoc(cfg, [e0], e1);
    RunSnoc(cfg, [e0, e1], e2);
    var empty := Accounts(map[], map[]);
    SignUpIff(cfg, empty, id, name, password, code, now);
    SignUpThenLogin(cfg, empty, id, name, password, code, password, jti, now);
    var w := Run(cfg, [e0, e1]);
    assert w.a == Confirm(SignUp(cfg, empty, id, name, password, code, now).0, name, code, now).0;
    MintedDecodes(cfg, id, jti, now);
    FirstLogin(cfg, w, id, name, password, jti, now);
  }

  lemma FirstLogin(cfg: Settings, w: World, id: UserId, name: string, password: string, jti: string, now: Clock)
    requires Ownership.NamesUnique(w.a.users) && Authenticates(cfg, w.a, id, name, password)
    requires cfg.ttl(Refresh) > 0 && jti !in w.a.tokens && jti != ""
    ensures
      var w' := Step(cfg, w, LoggingIn(name, password, jti, now));
      var token := Token(id, Refresh, jti, now / SECOND, now / SECOND + cfg.ttl(Refresh));
      token in w'.signed && RefreshOk(w'.a, token, true, now)
  {
    NamedIs(w.a.users, id, name);
    MintedDecodes(cfg, id, jti, now);
  }

  /** In any run a confirmed user can change the password, and anyone with the code sent can reset it. */
  lemma RunsCanSetPasswords(
    cfg: Settings, w: World, u: UserId, current: string, next: string, code: string, now: Clock, later: Clock)
    requires Ownership.NamesUnique(w.a.users) && Known(w.a, u) && w.a.users[u].hash.Some? && now <= later <= now + HOUR
    ensures cfg.verify(current, w.a.users[u].hash.value) ==>
      Step(cfg, w, ChangingPassword(u, current, next)).a.users[u].hash == Some(cfg.hash(next))
    ensures
      var name := w.a.users[u].name;
      var asked := Step(cfg, w, RequestingReset(name, code, now));
      Step(cfg, asked, Resetting(name, code, next, later)).a.users[u].hash == Some(cfg.hash(next))
  {
    ResetFlow(cfg, w.a, u, code, code, next, now, later);
  }

  // ---------- The service calls ----------

  function AccountsOf(db: Database): Accounts
    reads db
  {
    Accounts(db.users, db.refreshTokens)
  }

  method SignUpUser(db: Database, cfg: Settings, id: UserId, name: string, password: string, code: string, now: Clock)
    returns (r: Result<()>)
    modifies db`users
    ensures (AccountsOf(db), r) == SignUp(cfg, old(AccountsOf(db)), id, name, password, code, now)
  {
    var existing := Ownership.UserNamed(db, name);
    if existing.Some? { return Err(Conflict); }
    if id in db.users { return Err(Crash); }
    db.users := db.users[id := User(name, Some(cfg.hash(password)), false, Some(Code(code, now + 24 * HOUR)), None)];
    return Ok(());
  }

  method ConfirmSignUp(db: Database, name: string, code: string, now: Clock) returns (r: Result<()>)
    requires Ownership.NamesUnique(db.users)
    modifies db`users
    ensures (AccountsOf(db), r) == Confirm(old(AccountsOf(db)), name, code, now)
  {
    var u := Ownership.UserNamed(db, name);
    if u.None? { return Err(NotFound); }
    NameFound(db.users, u.value);
    var user := db.users[u.value];
    if user.confirm.None? { return Err(Invalid); }
    if user.confirm.value.expires < now { return Err(Invalid); }
    if user.confirm.value.code != code { return Err(Invalid); }
    db.users := db.users[u.value := user.(confirmed := true, confirm := None)];
    return Ok(());
  }

  method LoginPassword(
    db: Database, cfg: Settings, name: string, password: string, jti: string, now: Clock) returns (r: Result<Token>)
    requires Ownership.NamesUnique(db.users)
    modifies db`refreshTokens
    ensures (AccountsOf(db), r) == Login(cfg, old(AccountsOf(db)), name, password, jti, now)
  {
    var u := Ownership.UserNamed(db, name);
    if u.None? { return Err(Unauthorized); }
    NameFound(db.users, u.value);
    var user := db.users[u.value];
    if user.hash.None? { return Err(Unauthorized); }
    if !cfg.verify(password, user.hash.value) { return Err(Unauthorized); }
    if !user.confirmed { return Err(Unauthorized); }
    var token := Mint(cfg, u.value, Refresh, jti, now);
    if !Decodes(token, true, Refresh, now) { return Err(Crash); }
    if jti in db.refreshTokens { return Err(Crash); }
    db.refreshTokens := db.refreshTokens[jti := RefreshRow(u.value, ExpiryOf(cfg, Refresh, now), None)];
    return Ok(token);
  }

  method LoginRefresh(db: Database, token: Token, signed: bool, now: Clock) returns (r: Result<()>)
    ensures r.Ok? <==> RefreshOk(AccountsOf(db), token, signed, now)
    ensures r.Ok? ==>
      token.jti in db.refreshTokens && db.refreshTokens[token.jti].revoked.None? &&
      now <= db.refreshTokens[token.jti].expires && token.sub in db.users && db.users[token.sub].confirmed
    ensures r.Err? ==> r == Err(Unauthorized)
  {
    if !Decodes(token, signed, Refresh, now) { return Err(Unauthorized); }
    if token.jti == "" { return Err(Unauthorized); }
    if token.jti !in db.refreshTokens { return Err(Unauthorized); }
    var row := db.refreshTokens[token.jti];
    if row.revoked.Some? || row.expires < now { return Err(Unauthorized); }
    if token.sub !in db.users || !db.users[token.sub].confirmed { return Err(Unauthorized); }
    return Ok(());
  }

  /** `logout`: the loop over the user's unrevoked rows. */
  method LogOutUser(db: Database, user: UserId, now: Clock)
    modifies db`refreshTokens
    ensures AccountsOf(db) == LogOut(old(AccountsOf(db)), user, now)
  {
    var rows := set j | j in db.refreshTokens && db.refreshTokens[j].user == user && db.refreshTokens[j].revoked.None?;
    var left := rows;
    while left != {}
      invariant left <= rows && db.refreshTokens.Keys == old(db.refreshTokens).Keys
      invariant forall j :: j in db.refreshTokens ==>
        db.refreshTokens[j] ==
          if j in rows && j !in left then old(db.refreshTokens)[j].(revoked := Some(now)) else old(db.refreshTokens)[j]
      decreases left
    {
      var j :| j in left;
      db.refreshTokens := db.refreshTokens[j := db.refreshTokens[j].(revoked := Some(now))];
      left := left - {j};
    }
  }
}
