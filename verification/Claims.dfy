/** Claiming a device and the identity that follows from it: challenge, certificate, common name
    (app/services/claim.py, app/api/v1/deps/mtls.py, `authorise_register` of app/services/vmq_authz.py). */
module Claims {
  import opened Prelude
  import opened Store
  import opened Topics

  /** What the code takes from outside: `str.lower`, the HMAC, and the lifetime of a claim. */
  datatype Settings = Settings(lower: string -> string, hmac: (string, string) -> string, ttl: Time)

  datatype State = State(
    provisioning: map<string, string>,
    claims: map<Uuid, Claim>,
    nodes: set<NodeId>,
    certificates: seq<Certificate>)

  // ---------- The four calls ----------

  function AddClaim(s: State, id: Uuid, c: Claim): (State, Result<()>) {
    if id in s.claims || (c.mode.SelfClaim? && exists k :: k in s.claims && HasAuthId(s.claims[k], c.mode.authId)) then
      (s, Err(Crash))
    else (s.(claims := s.claims[id := c]), Ok(()))
  }

  predicate HasAuthId(c: Claim, authId: string) {
    c.mode.SelfClaim? && c.mode.authId == authId
  }

  function InitiateSelf(
    cfg: Settings, s: State, id: Uuid, authId: string, nonce: string, mac: string, now: Time): (State, Result<()>)
  {
    if mac !in s.provisioning then (s, Err(Invalid))
    else AddClaim(s, id, Claim(mac, cfg.lower(mac), SelfClaim(authId, nonce), false, now + cfg.ttl))
  }

  function InitiateAssisted(
    cfg: Settings, s: State, id: Uuid, user: UserId, mac: string, now: Time): (State, Result<()>)
  {
    AddClaim(s, id, Claim(mac, cfg.lower(mac), Assisted(user), false, now + cfg.ttl))
  }

  /** The serial numbers already used. */
  predicate SerialUsed(certificates: seq<Certificate>, serial: string) {
    exists c :: c in certificates && c.serial == serial
  }

  /** `_issue_certificate`: `serial` is what signing the request yields, none when signing fails. The node
      row and the certificate are committed together. */
  function Issue(s: State, node: NodeId, serial: Option<string>): (State, Result<()>) {
    if serial.None? then (s, Err(Invalid))
    else if SerialUsed(s.certificates, serial.value) then (s, Err(Crash))
    else
      var added := Certificate(serial.value, node, node, false);
      (s.(nodes := s.nodes + {node}, certificates := s.certificates + [added]), Ok(()))
  }

  /** A proven claim: the verification is committed first, whatever becomes of the certificate. */
  function Conclude(s: State, id: Uuid, serial: Option<string>): (State, Result<()>)
    requires id in s.claims
  {
    Issue(s.(claims := s.claims[id := s.claims[id].(verified := true)]), s.claims[id].node, serial)
  }

  /** `verify_self_claim` for the row with the given auth id; `proof` is none when it does not decode. */
  function VerifySelf(
    cfg: Settings, s: State, id: Uuid, proof: Option<string>, serial: Option<string>, now: Time): (State, Result<()>)
    requires id in s.claims && s.claims[id].mode.SelfClaim?
  {
    var c := s.claims[id];
    if c.verified || c.expires < now || c.mac !in s.provisioning then (s, Err(Invalid))
    else if proof != Some(cfg.hmac(s.provisioning[c.mac], c.mode.nonce)) then (s, Err(Invalid))
    else Conclude(s, id, serial)
  }

  predicate AwaitsUser(c: Claim, user: UserId) {
    c.mode == Assisted(user) && !c.verified
  }

  /** The pending assisted claims of a user. */
  function Awaiting(s: State, user: UserId): set<Uuid> {
    set id | id in s.claims && AwaitsUser(s.claims[id], user)
  }

  /** `verify_assisted_claim`: the query asks for one row, so two pending claims are an error. */
  ghost function VerifyAssisted(s: State, user: UserId, serial: Option<string>, now: Time): (State, Result<()>) {
    var ids := Awaiting(s, user);
    if ids == {} then (s, Err(Invalid))
    else if |ids| > 1 then (s, Err(Crash))
    else
      var id :| id in ids;
      if s.claims[id].expires < now then (s, Err(Invalid)) else Conclude(s, id, serial)
  }

  /** An administrator marks a certificate as revoked. */
  function RevokeSerial(certificates: seq<Certificate>, serial: string): (r: seq<Certificate>)
    ensures |r| == |certificates|
    ensures forall i :: 0 <= i < |r| ==>
      r[i] == if certificates[i].serial == serial then certificates[i].(revoked := true) else certificates[i]
  {
    seq(|certificates|, i requires 0 <= i < |certificates| =>
      if certificates[i].serial == serial then certificates[i].(revoked := true) else certificates[i])
  }

  // ---------- Runs ----------

  datatype Event =
    | SelfStart(id: Uuid, authId: string, nonce: string, mac: string, now: Time)
    | AssistedStart(id: Uuid, user: UserId, mac: string, now: Time)
    | SelfVerify(authId: string, proof: Option<string>, serial: Option<string>, now: Time)
    | AssistedVerify(user: UserId, serial: Option<string>, now: Time)
    | RevokeCertificate(target: string)
    | NodeAppears(node: NodeId)
    | Provision(mac: string, key: string)

  predicate RowOfAuth(s: State, authId: string, id: Uuid) {
    id in s.claims && HasAuthId(s.claims[id], authId)
  }

  /** `verify_self_claim`. */
  ghost function VerifyByAuthId(
    cfg: Settings, s: State, authId: string, proof: Option<string>, serial: Option<string>, now: Time)
    : (State, Result<()>)
  {
    if !exists id :: RowOfAuth(s, authId, id) then (s, Err(Invalid))
    else
      var id :| RowOfAuth(s, authId, id);
      VerifySelf(cfg, s, id, proof, serial, now)
  }

  ghost function Step(cfg: Settings, s: State, e: Event): State {
    match e
    case SelfStart(id, authId, nonce, mac, now) => InitiateSelf(cfg, s, id, authId, nonce, mac, now).0
    case AssistedStart(id, user, mac, now) => InitiateAssisted(cfg, s, id, user, mac, now).0
    case SelfVerify(authId, proof, serial, now) => VerifyByAuthId(cfg, s, authId, proof, serial, now).0
    case AssistedVerify(user, serial, now) => VerifyAssisted(s, user, serial, now).0
    case RevokeCertificate(serial) => s.(certificates := RevokeSerial(s.certificates, serial))
    case NodeAppears(node) => s.(nodes := s.nodes + {node})
    case Provision(mac, key) => s.(provisioning := s.provisioning[mac := key])
  }

  ghost function Run(cfg: Settings, s: State, es: seq<Event>): State {
    if es == [] then s else Step(cfg, Run(cfg, s, es[..|es| - 1]), es[|es| - 1])
  }

  const EMPTY := State(map[], map[], {}, [])

  // ---------- Claim accounting ----------

  /** `origin[i]` is the claim that certificate `i` was issued for: a verified one, of the same node, and
      no other certificate's. */
  ghost predicate Traced(s: State, origin: seq<Uuid>) {
    |origin| == |s.certificates| && NoDup(origin) &&
    forall i :: 0 <= i < |origin| ==>
      origin[i] in s.claims && s.claims[origin[i]].verified &&
      s.certificates[i].cn == s.certificates[i].node == s.claims[origin[i]].node && s.certificates[i].node in s.nodes
  }

  ghost predicate ClaimsOk(cfg: Settings, s: State) {
    (forall id :: id in s.claims ==> s.claims[id].node == cfg.lower(s.claims[id].mac)) &&
    (forall a, b :: a in s.claims && b in s.claims && s.claims[a].mode.SelfClaim? ==>
       (HasAuthId(s.claims[b], s.claims[a].mode.authId) ==> a == b))
  }

  ghost predicate SerialsUnique(certificates: seq<Certificate>) {
    forall i, j :: 0 <= i < j < |certificates| ==> certificates[i].serial != certificates[j].serial
  }

  ghost predicate Inv(cfg: Settings, s: State) {
    ClaimsOk(cfg, s) && SerialsUnique(s.certificates) && exists origin :: Traced(s, origin)
  }

  lemma NewSerial(certificates: seq<Certificate>, added: Certificate)
    requires SerialsUnique(certificates) && !SerialUsed(certificates, added.serial)
    ensures SerialsUnique(certificates + [added])
  {
  }

  lemma ConcludeKeepsInv(cfg: Settings, s: State, id: Uuid, serial: Option<string>)
    requires Inv(cfg, s) && id in s.claims && !s.claims[id].verified
    ensures Inv(cfg, Conclude(s, id, serial).0)
  {
    var origin :| Traced(s, origin);
    var (s', r) := Conclude(s, id, serial);
    assert id !in origin;
    if r.Ok? {
      NewSerial(s.certificates, s'.certificates[|s.certificates|]);
      assert Traced(s', origin + [id]);
    } else {
      assert Traced(s', origin);
    }
  }

  lemma AddClaimKeepsInv(cfg: Settings, s: State, id: Uuid, c: Claim)
    requires Inv(cfg, s) && c.node == cfg.lower(c.mac)
    ensures Inv(cfg, AddClaim(s, id, c).0)
  {
    var origin :| Traced(s, origin);
    assert Traced(AddClaim(s, id, c).0, origin);
  }

  lemma StepKeepsInv(cfg: Settings, s: State, e: Event)
    requires Inv(cfg, s)
    ensures Inv(cfg, Step(cfg, s, e))
  {
    var s' := Step(cfg, s, e);
    var origin :| Traced(s, origin);
    match e
    case SelfStart(id, authId, nonce, mac, now) =>
      AddClaimKeepsInv(cfg, s, id, Claim(mac, cfg.lower(mac), SelfClaim(authId, nonce), false, now + cfg.ttl));
    case AssistedStart(id, user, mac, now) =>
      AddClaimKeepsInv(cfg, s, id, Claim(mac, cfg.lower(mac), Assisted(user), false, now + cfg.ttl));
    case SelfVerify(authId, proof, serial, now) => SelfKeepsInv(cfg, s, authId, proof, serial, now);
    case AssistedVerify(user, serial, now) => AssistedKeepsInv(cfg, s, user, serial, now);
    case RevokeCertificate(_) => assert Traced(s', origin);
    case NodeAppears(_) => assert Traced(s', origin);
    case Provision(_, _) => assert Traced(s', origin);
  }

  lemma SelfKeepsInv(cfg: Settings, s: State, authId: string, proof: Option<string>, serial: Option<string>, now: Time)
    requires Inv(cfg, s)
    ensures Inv(cfg, VerifyByAuthId(cfg, s, authId, proof, serial, now).0)
  {
    if VerifyByAuthId(cfg, s, authId, proof, serial, now).0 != s {
      var id :| RowOfAuth(s, authId, id);
      ConcludeKeepsInv(cfg, s, id, serial);
    }
  }

  lemma AssistedKeepsInv(cfg: Settings, s: State, user: UserId, serial: Option<string>, now: Time)
    requires Inv(cfg, s)
    ensures Inv(cfg, VerifyAssisted(s, user, serial, now).0)
  {
    forall id | id in Awaiting(s, user) ensures Inv(cfg, Conclude(s, id, serial).0) {
      ConcludeKeepsInv(cfg, s, id, serial);
    }
  }

  lemma {:induction false} RunKeepsInv(cfg: Settings, s: State, es: seq<Event>)
    requires Inv(cfg, s)
    ensures Inv(cfg, Run(cfg, s, es))
  {
    if es != [] {
      RunKeepsInv(cfg, s, es[..|es| - 1]);
      StepKeepsInv(cfg, Run(cfg, s, es[..|es| - 1]), es[|es| - 1]);
    }
  }

  lemma ReachableInv(cfg: Settings, es: seq<Event>)
    ensures Inv(cfg, Run(cfg, EMPTY, es))
  {
    assert Traced(EMPTY, []);
    RunKeepsInv(cfg, EMPTY, es);
  }

  function Verified(s: State): set<Uuid> {
    set id | id in s.claims && s.claims[id].verified
  }

  lemma {:induction false} DistinctFit(origin: seq<Uuid>, ids: set<Uuid>)
    requires NoDup(origin) && forall id :: id in origin ==> id in ids
    ensures |origin| <= |ids|
  {
    if origin != [] {
      var (front, last) := (origin[..|origin| - 1], origin[|origin| - 1]);
      assert last in origin;
      DistinctFit(front, ids - {last});
    }
  }

  /** In every reachable state each certificate names the lowercased MAC of a verified claim of its own,
      with a node row behind it; there are no more certificates than verified claims. */
  lemma ClaimAccounting(cfg: Settings, es: seq<Event>)
    ensures
      var s := Run(cfg, EMPTY, es);
      (exists origin :: Traced(s, origin) && forall i :: 0 <= i < |origin| ==>
         s.certificates[i].cn == cfg.lower(s.claims[origin[i]].mac)) &&
      |s.certificates| <= |Verified(s)|
  {
    var s := Run(cfg, EMPTY, es);
    ReachableInv(cfg, es);
    var origin :| Traced(s, origin);
    forall id | id in origin ensures id in Verified(s) {
    }
    DistinctFit(origin, Verified(s));
    assert forall i :: 0 <= i < |origin| ==> s.certificates[i].cn == cfg.lower(s.claims[origin[i]].mac);
  }

  /** The certificate is as it was, or has been revoked since. */
  predicate Kept(c: Certificate, c': Certificate) {
    c' == c || c' == c.(revoked := true)
  }

  /** Verified claims, certificates and nodes outlive a step, in place; a revoked certificate stays so. */
  ghost predicate Lasts(s: State, s': State) {
    (forall id :: id in Verified(s) ==> id in s'.claims && s'.claims[id] == s.claims[id]) &&
    |s.certificates| <= |s'.certificates| &&
    (forall i :: 0 <= i < |s.certificates| ==> Kept(s.certificates[i], s'.certificates[i])) &&
    s.nodes <= s'.nodes
  }

  lemma StepLasts(cfg: Settings, s: State, e: Event)
    ensures Lasts(s, Step(cfg, s, e))
  {
  }

  /** A verified claim never changes again, and no certificate or node is ever lost. */
  lemma {:induction false} VerifiedForever(cfg: Settings, s: State, es: seq<Event>)
    ensures Lasts(s, Run(cfg, s, es))
  {
    if es != [] {
      VerifiedForever(cfg, s, es[..|es| - 1]);
      StepLasts(cfg, Run(cfg, s, es[..|es| - 1]), es[|es| - 1]);
    }
  }

  /** The certificate cannot be issued: the request does not sign, or its serial number is taken. */
  predicate CannotIssue(s: State, serial: Option<string>) {
    serial.Some? ==> SerialUsed(s.certificates, serial.value)
  }

  /** A proven self-claim whose certificate cannot be issued is used up: no certificate, no node, and every
      later attempt with its auth id, whatever comes in between, is refused and changes nothing. */
  lemma FailedCsrConsumes(
    cfg: Settings, s: State, authId: string, id: Uuid, bad: Option<string>, now: Time,
    es: seq<Event>, proof: Option<string>, serial: Option<string>, later: Time)
    requires Inv(cfg, s) && RowOfAuth(s, authId, id) && !s.claims[id].verified && now <= s.claims[id].expires
    requires s.claims[id].mac in s.provisioning && CannotIssue(s, bad)
    ensures
      var answer := cfg.hmac(s.provisioning[s.claims[id].mac], s.claims[id].mode.nonce);
      var (s', r) := VerifyByAuthId(cfg, s, authId, Some(answer), bad, now);
      var end := Run(cfg, s', es);
      r.Err? && s' == s.(claims := s.claims[id := s.claims[id].(verified := true)]) &&
      VerifyByAuthId(cfg, end, authId, proof, serial, later) == (end, Err(Invalid))
  {
    var answer := cfg.hmac(s.provisioning[s.claims[id].mac], s.claims[id].mode.nonce);
    assert forall other :: RowOfAuth(s, authId, other) ==> other == id;
    var s' := VerifyByAuthId(cfg, s, authId, Some(answer), bad, now).0;
    assert id in Verified(s');
    SelfKeepsInv(cfg, s, authId, Some(answer), bad, now);
    VerifiedForever(cfg, s', es);
    RunKeepsInv(cfg, s', es);
    var end := Run(cfg, s', es);
    assert RowOfAuth(end, authId, id);
    assert forall other :: RowOfAuth(end, authId, other) ==> other == id;
  }

  /** The same for an assisted claim: it is used up, and is never again among those awaiting a user. */
  lemma FailedAssistedCsrConsumes(
    cfg: Settings, s: State, user: UserId, id: Uuid, bad: Option<string>, now: Time, es: seq<Event>, u: UserId)
    requires Awaiting(s, user) == {id} && now <= s.claims[id].expires && CannotIssue(s, bad)
    ensures
      var (s', r) := VerifyAssisted(s, user, bad, now);
      r.Err? && s' == s.(claims := s.claims[id := s.claims[id].(verified := true)]) &&
      id !in Awaiting(Run(cfg, s', es), u)
  {
    var ids := Awaiting(s, user);
    assert id in ids && |ids| == 1 && forall x :: x in ids ==> x == id;
    var s' := VerifyAssisted(s, user, bad, now).0;
    assert id in Verified(s');
    VerifiedForever(cfg, s', es);
  }

  /** A self-claim, end to end: a provisioned device gets its certificate exactly when it answers in time
      with the HMAC of its challenge under its provisioned key, and the request signs. */
  lemma SelfClaimFlow(
    cfg: Settings, s: State, id: Uuid, authId: string, nonce: string, mac: string,
    proof: Option<string>, serial: Option<string>, now: Time, later: Time)
    requires InitiateSelf(cfg, s, id, authId, nonce, mac, now).1.Ok?
    ensures
      var started := InitiateSelf(cfg, s, id, authId, nonce, mac, now).0;
      var (s', r) := VerifyByAuthId(cfg, started, authId, proof, serial, later);
      mac in s.provisioning &&
      (r.Ok? <==>
         later <= now + cfg.ttl && proof == Some(cfg.hmac(s.provisioning[mac], nonce)) &&
         serial.Some? && !SerialUsed(s.certificates, serial.value)) &&
      (r.Ok? ==>
         s'.certificates == s.certificates + [Certificate(serial.value, cfg.lower(mac), cfg.lower(mac), false)] &&
         s'.nodes == s.nodes + {cfg.lower(mac)})
  {
    var started := InitiateSelf(cfg, s, id, authId, nonce, mac, now).0;
    assert RowOfAuth(started, authId, id);
    assert forall other :: RowOfAuth(started, authId, other) && other != id ==> RowOfAuth(s, authId, other);
  }

  /** Issuing succeeds exactly for a request that signs with an unused serial number; it then adds the node's
      row and one certificate, in its name, and otherwise nothing. */
  lemma IssueExact(s: State, node: NodeId, serial: Option<string>)
    ensures
      var (s', r) := Issue(s, node, serial);
      (r.Ok? <==> serial.Some? && forall c :: c in s.certificates ==> c.serial != serial.value) &&
      (r.Err? ==> s' == s && r == Err(if serial.None? then Invalid else Crash)) &&
      (r.Ok? ==>
         s'.nodes == s.nodes + {node} && s'.claims == s.claims && s'.provisioning == s.provisioning &&
         s'.certificates == s.certificates + [Certificate(serial.value, node, node, false)])
  {
  }

  /** A claim is started with an unused id (and, by a device, for a provisioned MAC and an unused auth id):
      one pending claim is added, for the lowercased MAC and with the configured lifetime. */
  lemma StartsExact(
    cfg: Settings, s: State, id: Uuid, authId: string, nonce: string, user: UserId, mac: string, now: Time)
    ensures
      var (s', r) := InitiateSelf(cfg, s, id, authId, nonce, mac, now);
      (r.Ok? <==>
         mac in s.provisioning && id !in s.claims &&
         forall k :: k in s.claims && s.claims[k].mode.SelfClaim? ==> s.claims[k].mode.authId != authId) &&
      (r.Err? ==> r == Err(if mac !in s.provisioning then Invalid else Crash)) &&
      var added := Claim(mac, cfg.lower(mac), SelfClaim(authId, nonce), false, now + cfg.ttl);
      s' == if r.Err? then s else s.(claims := s.claims[id := added])
    ensures
      var (s', r) := InitiateAssisted(cfg, s, id, user, mac, now);
      (r.Ok? <==> id !in s.claims) && (r.Err? ==> r == Err(Crash)) &&
      var added := Claim(mac, cfg.lower(mac), Assisted(user), false, now + cfg.ttl);
      s' == if r.Err? then s else s.(claims := s.claims[id := added])
  {
  }

  // ---------- Assisted claims ----------

  /** A user waits for exactly the assisted claims of the user's own that are not verified. */
  lemma AwaitingAre(s: State, user: UserId, id: Uuid)
    ensures id in Awaiting(s, user) <==> id in s.claims && s.claims[id].mode == Assisted(user) && !s.claims[id].verified
  {
  }

  /** An assisted claim, end to end: started by a user who waits for no other, it gives the certificate of the
      lowercased MAC exactly when it is verified in time and the request signs. */
  lemma AssistedClaimFlow(
    cfg: Settings, s: State, id: Uuid, user: UserId, mac: string, serial: Option<string>, now: Time, later: Time)
    requires id !in s.claims && Awaiting(s, user) == {}
    ensures
      var started := InitiateAssisted(cfg, s, id, user, mac, now).0;
      var (s', r) := VerifyAssisted(started, user, serial, later);
      var cn := cfg.lower(mac);
      (r.Ok? <==>
         later <= now + cfg.ttl && serial.Some? && forall c :: c in s.certificates ==> c.serial != serial.value) &&
      (r.Ok? ==>
         s'.certificates == s.certificates + [Certificate(serial.value, cn, cn, false)] &&
         s'.nodes == s.nodes + {cn} && Awaiting(s', user) == {})
  {
    var started := InitiateAssisted(cfg, s, id, user, mac, now).0;
    assert forall x :: x in s.claims ==> x !in Awaiting(s, user);
    assert Awaiting(started, user) == {id};
    assert |{id}| == 1;
    IssueExact(started.(claims := started.claims[id := started.claims[id].(verified := true)]), cfg.lower(mac), serial);
  }

  /** An assisted claim succeeds exactly when it is the user's only pending one, in time, and signs. */
  lemma AssistedIff(s: State, user: UserId, serial: Option<string>, now: Time)
    ensures VerifyAssisted(s, user, serial, now).1.Ok? <==>
      serial.Some? && !SerialUsed(s.certificates, serial.value) &&
      exists id :: Awaiting(s, user) == {id} && now <= s.claims[id].expires
  {
    var ids := Awaiting(s, user);
    if ids != {} && |ids| <= 1 {
      var id :| id in ids;
      SingletonOf(ids, id);
      assert forall x :: x in ids ==> x == id;
      assert forall x :: ids == {x} ==> x in ids;
    } else {
      forall x ensures ids != {x} {
        assert |{x}| == 1;
      }
    }
  }

  lemma SingletonOf(ids: set<Uuid>, id: Uuid)
    requires id in ids && |ids| <= 1
    ensures ids == {id}
  {
    assert |ids - {id}| == 0;
  }

  /** Two pending assisted claims of one user block each other for good: they stay pending in every
      later state, and every attempt to verify one fails and changes nothing. */
  lemma {:induction false} AssistedDeadlock(cfg: Settings, s: State, es: seq<Event>, user: UserId)
    requires |Awaiting(s, user)| > 1
    ensures Awaiting(s, user) <= Awaiting(Run(cfg, s, es), user)
    ensures forall serial, now :: VerifyAssisted(Run(cfg, s, es), user, serial, now) == (Run(cfg, s, es), Err(Crash))
  {
    if es != [] {
      var (front, e) := (es[..|es| - 1], es[|es| - 1]);
      AssistedDeadlock(cfg, s, front, user);
      SubsetSize(Awaiting(s, user), Awaiting(Run(cfg, s, front), user));
      StillAwaiting(cfg, Run(cfg, s, front), e, user);
    }
    SubsetSize(Awaiting(s, user), Awaiting(Run(cfg, s, es), user));
  }

  lemma SubsetSize(a: set<Uuid>, b: set<Uuid>)
    requires a <= b
    ensures |a| <= |b|
  {
    assert b == a + (b - a);
  }

  lemma StillAwaiting(cfg: Settings, s: State, e: Event, user: UserId)
    requires |Awaiting(s, user)| > 1
    ensures Awaiting(s, user) <= Awaiting(Step(cfg, s, e), user)
  {
  }

  /** So a claim left to expire blocks the user: it is refused, stays pending, and the next claim deadlocks with it. */
  lemma ExpiredClaimBlocks(
    cfg: Settings, s: State, id: Uuid, user: UserId, serial: Option<string>, now: Time, next: Uuid, mac: string)
    requires Awaiting(s, user) == {id} && s.claims[id].expires < now && next !in s.claims
    ensures VerifyAssisted(s, user, serial, now) == (s, Err(Invalid))
    ensures |Awaiting(InitiateAssisted(cfg, s, next, user, mac, now).0, user)| == 2
  {
    var ids := Awaiting(s, user);
    assert |ids| == 1 && forall x :: x in ids ==> x == id;
    var s' := InitiateAssisted(cfg, s, next, user, mac, now).0;
    assert id in ids;
    assert Awaiting(s', user) == {id, next};
  }

  // ---------- Identity ----------

  predicate Active(c: Certificate, cn: string) {
    c.cn == cn && !c.revoked
  }

  /** The first active certificate for a name, in table order. */
  function FirstActive(certificates: seq<Certificate>, cn: string): (r: Option<Certificate>)
    ensures r.Some? <==> exists c :: c in certificates && Active(c, cn)
    ensures r.Some? ==> r.value in certificates && Active(r.value, cn)
  {
    if certificates == [] then None
    else if Active(certificates[0], cn) then Some(certificates[0])
    else FirstActive(certificates[1..], cn)
  }

  /** `authorise_register`. */
  predicate RegisterOk(s: State, backend: string, username: Option<string>) {
    username.Some? && username.value != "" &&
    (IsBackend(backend, username) || FirstActive(s.certificates, username.value).Some?)
  }

  datatype Refusal = NoCertificate | UnknownCertificate | NodeNotRegistered

  datatype Identity = Authenticated(node: NodeId) | Refused(reason: Refusal)

  /** `get_node_from_mtls`. */
  function NodeFromMtls(s: State, cn: Option<string>): Identity {
    if cn.None? || cn.value == "" then Refused(NoCertificate)
    else match FirstActive(s.certificates, cn.value)
      case None => Refused(UnknownCertificate)
      case Some(cert) => if cert.node in s.nodes then Authenticated(cert.node) else Refused(NodeNotRegistered)
  }

  /** In every reachable state HTTP and MQTT agree on who a device is, and the node is the one named. */
  lemma IdentityAgreement(cfg: Settings, es: seq<Event>, backend: string, cn: Option<string>)
    requires !IsBackend(backend, cn)
    ensures
      var s := Run(cfg, EMPTY, es);
      (RegisterOk(s, backend, cn) <==> NodeFromMtls(s, cn).Authenticated?) &&
      (NodeFromMtls(s, cn).Authenticated? ==> NodeFromMtls(s, cn).node == cn.value) &&
      NodeFromMtls(s, cn) != Refused(NodeNotRegistered)
  {
    var s := Run(cfg, EMPTY, es);
    ReachableInv(cfg, es);
    var origin :| Traced(s, origin);
    if cn.Some? && FirstActive(s.certificates, cn.value).Some? {
      var cert := FirstActive(s.certificates, cn.value).value;
      var i :| 0 <= i < |s.certificates| && s.certificates[i] == cert;
    }
  }

  /** An unrevoked certificate with the name. */
  ghost predicate HasValid(s: State, cn: string) {
    exists i :: 0 <= i < |s.certificates| && s.certificates[i].cn == cn && !s.certificates[i].revoked
  }

  lemma FirstActiveIff(s: State, cn: string)
    ensures FirstActive(s.certificates, cn).Some? <==> HasValid(s, cn)
  {
    if c :| c in s.certificates && Active(c, cn) {
      var i :| 0 <= i < |s.certificates| && s.certificates[i] == c;
    }
    if i :| 0 <= i < |s.certificates| && s.certificates[i].cn == cn && !s.certificates[i].revoked {
      assert s.certificates[i] in s.certificates && Active(s.certificates[i], cn);
    }
  }

  /** MQTT registration is open to the backend and to a name with an unrevoked certificate, and to no other. */
  lemma RegisterIff(s: State, backend: string, username: Option<string>)
    ensures RegisterOk(s, backend, username) <==>
      username.Some? && username.value != "" && (username.value == backend || HasValid(s, username.value))
  {
    if username.Some? {
      FirstActiveIff(s, username.value);
    }
  }

  /** In every reachable state the mTLS lookup knows exactly the names with an unrevoked certificate, and says
      of any other which of the two it lacks. */
  lemma LookupIff(cfg: Settings, es: seq<Event>, cn: Option<string>)
    ensures NodeFromMtls(Run(cfg, EMPTY, es), cn) ==
      if cn.None? || cn.value == "" then Refused(NoCertificate)
      else if HasValid(Run(cfg, EMPTY, es), cn.value) then Authenticated(cn.value)
      else Refused(UnknownCertificate)
  {
    var s := Run(cfg, EMPTY, es);
    ReachableInv(cfg, es);
    var origin :| Traced(s, origin);
    if cn.Some? {
      FirstActiveIff(s, cn.value);
      if FirstActive(s.certificates, cn.value).Some? {
        var cert := FirstActive(s.certificates, cn.value).value;
        var i :| 0 <= i < |s.certificates| && s.certificates[i] == cert;
      }
    }
  }

  /** A certificate whose serial number is revoked somewhere in a run is revoked at its end. */
  lemma {:induction false} RevokedAtEnd(cfg: Settings, s: State, es: seq<Event>, i: nat)
    requires i < |s.certificates| && RevokeCertificate(s.certificates[i].serial) in es
    ensures i < |Run(cfg, s, es).certificates| && Run(cfg, s, es).certificates[i].revoked
  {
    var (front, e) := (es[..|es| - 1], es[|es| - 1]);
    VerifiedForever(cfg, s, front);
    StepLasts(cfg, Run(cfg, s, front), e);
    if e != RevokeCertificate(s.certificates[i].serial) {
      RevokedAtEnd(cfg, s, front, i);
    }
  }

  /** Once every certificate of a name has been revoked, both paths refuse it for good, until a certificate is
      issued to the name anew: only one that is younger than `s` can let it in. */
  lemma RevocationHolds(cfg: Settings, before: seq<Event>, es: seq<Event>, backend: string, cn: string)
    requires cn != "" && cn != backend
    requires
      var s := Run(cfg, EMPTY, before);
      forall i :: 0 <= i < |s.certificates| && s.certificates[i].cn == cn ==>
        RevokeCertificate(s.certificates[i].serial) in es
    ensures
      var (s, end) := (Run(cfg, EMPTY, before), Run(cfg, EMPTY, before + es));
      var anew := exists i ::
        |s.certificates| <= i < |end.certificates| && end.certificates[i].cn == cn && !end.certificates[i].revoked;
      (RegisterOk(end, backend, Some(cn)) <==> anew) && (NodeFromMtls(end, Some(cn)).Authenticated? <==> anew)
  {
    var (s, end) := (Run(cfg, EMPTY, before), Run(cfg, EMPTY, before + es));
    RunAppend(cfg, EMPTY, before, es);
    VerifiedForever(cfg, s, es);
    forall i | 0 <= i < |s.certificates| && end.certificates[i].cn == cn ensures end.certificates[i].revoked {
      RevokedAtEnd(cfg, s, es, i);
    }
    RegisterIff(end, backend, Some(cn));
    LookupIff(cfg, before + es, Some(cn));
  }

  lemma RunSnoc(cfg: Settings, s: State, es: seq<Event>, e: Event)
    ensures Run(cfg, s, es + [e]) == Step(cfg, Run(cfg, s, es), e)
  {
  }

  lemma {:induction false} RunAppend(cfg: Settings, s: State, a: seq<Event>, b: seq<Event>)
    ensures Run(cfg, s, a + b) == Run(cfg, Run(cfg, s, a), b)
  {
    if b == [] {
      assert a + b == a;
    } else {
      assert (a + b)[..|a + b| - 1] == a + b[..|b| - 1];
      RunAppend(cfg, s, a, b[..|b| - 1]);
    }
  }

  /** From nothing, three events make a device known to both paths. */
  lemma RunsCanClaim(
    cfg: Settings, id: Uuid, authId: string, nonce: string, mac: string, key: string, serial: string, backend: string)
    requires cfg.ttl >= 0 && cfg.lower(mac) != ""
    ensures
      var es := [Provision(mac, key), SelfStart(id, authId, nonce, mac, 0),
                 SelfVerify(authId, Some(cfg.hmac(key, nonce)), Some(serial), 0)];
      RegisterOk(Run(cfg, EMPTY, es), backend, Some(cfg.lower(mac))) &&
      NodeFromMtls(Run(cfg, EMPTY, es), Some(cfg.lower(mac))) == Authenticated(cfg.lower(mac))
  {
    var answer := Some(cfg.hmac(key, nonce));
    var (e0, e1, e2) :=
      (Provision(mac, key), SelfStart(id, authId, nonce, mac, 0), SelfVerify(authId, answer, Some(serial), 0));
    var es := [e0, e1, e2];
    assert [] + [e0] == [e0] && [e0] + [e1] == [e0, e1] && [e0, e1] + [e2] == es;
    RunSnoc(cfg, EMPTY, [], e0);
    RunSnoc(cfg, EMPTY, [e0], e1);
    RunSnoc(cfg, EMPTY, [e0, e1], e2);
    var s := Run(cfg, EMPTY, [e0]);
    StartsExact(cfg, s, id, authId, nonce, Uuid(0), mac, 0);
    SelfClaimFlow(cfg, s, id, authId, nonce, mac, answer, Some(serial), 0, 0);
    var end := Run(cfg, EMPTY, es);
    assert end.certificates[0].cn == cfg.lower(mac);
    RegisterIff(end, backend, Some(cfg.lower(mac)));
    LookupIff(cfg, es, Some(cfg.lower(mac)));
  }

  /** A device that claims, signs and is not revoked is recognised by both. */
  lemma ClaimGivesIdentity(cfg: Settings, s: State, id: Uuid, serial: string, backend: string)
    requires id in s.claims && Conclude(s, id, Some(serial)).1.Ok? && s.claims[id].node != ""
    ensures
      var s' := Conclude(s, id, Some(serial)).0;
      RegisterOk(s', backend, Some(s.claims[id].node)) &&
      (Inv(cfg, s') ==> NodeFromMtls(s', Some(s.claims[id].node)) == Authenticated(s.claims[id].node))
  {
    var s' := Conclude(s, id, Some(serial)).0;
    var node := s.claims[id].node;
    var cert := Certificate(serial, node, node, false);
    assert s'.certificates[|s.certificates|] == cert;
    assert cert in s'.certificates && Active(cert, node);
    if Inv(cfg, s') {
      var origin :| Traced(s', origin);
      var found := FirstActive(s'.certificates, node).value;
      var i :| 0 <= i < |s'.certificates| && s'.certificates[i] == found;
    }
  }

  // ---------- The service calls ----------

  function View(db: Database): State
    reads db
  {
    State(db.provisioning, db.claims, db.nodes, db.certificates)
  }

  method InitiateSelfClaim(db: Database, cfg: Settings, id: Uuid, authId: string, nonce: string, mac: string, now: Time)
    returns (r: Result<()>)
    modifies db`claims
    ensures (View(db), r) == InitiateSelf(cfg, old(View(db)), id, authId, nonce, mac, now)
  {
    if mac !in db.provisioning { return Err(Invalid); }
    var row := Claim(mac, cfg.lower(mac), SelfClaim(authId, nonce), false, now + cfg.ttl);
    if id in db.claims || exists k :: k in db.claims && HasAuthId(db.claims[k], authId) { return Err(Crash); }
    db.claims := db.claims[id := row];
    return Ok(());
  }

  method InitiateAssistedClaim(db: Database, cfg: Settings, id: Uuid, user: UserId, mac: string, now: Time)
    returns (r: Result<()>)
    modifies db`claims
    ensures (View(db), r) == InitiateAssisted(cfg, old(View(db)), id, user, mac, now)
  {
    if id in db.claims { return Err(Crash); }
    db.claims := db.claims[id := Claim(mac, cfg.lower(mac), Assisted(user), false, now + cfg.ttl)];
    return Ok(());
  }

  method IssueCertificate(db: Database, node: NodeId, serial: Option<string>) returns (r: Result<()>)
    modifies db`nodes, db`certificates
    ensures (View(db), r) == Issue(old(View(db)), node, serial)
  {
    if serial.None? { return Err(Invalid); }
    var added := Certificate(serial.value, node, node, false);
    if exists c :: c in db.certificates && c.serial == serial.value { return Err(Crash); }
    assert node in db.nodes ==> db.nodes == db.nodes + {node};
    if node !in db.nodes {
      db.nodes := db.nodes + {node};
    }
    db.certificates := db.certificates + [added];
    return Ok(());
  }

  /** The ids of the claims a query selects. */
  method SelectClaims(db: Database, keep: Claim -> bool) returns (ids: seq<Uuid>)
    ensures NoDup(ids)
    ensures forall id :: id in ids <==> id in db.claims && keep(db.claims[id])
  {
    ids := [];
    var left := db.claims.Keys;
    while left != {}
      invariant left <= db.claims.Keys && NoDup(ids)
      invariant forall id :: id in ids <==> id in db.claims && id !in left && keep(db.claims[id])
      decreases left
    {
      var id :| id in left;
      if keep(db.claims[id]) {
        ids := ids + [id];
      }
      left := left - {id};
    }
  }

  method VerifySelfClaim(
    db: Database, cfg: Settings, authId: string, proof: Option<string>, serial: Option<string>, now: Time)
    returns (r: Result<()>)
    requires ClaimsOk(cfg, View(db))
    modifies db`claims, db`nodes, db`certificates
    ensures (View(db), r) == VerifyByAuthId(cfg, old(View(db)), authId, proof, serial, now)
  {
    var ids := SelectClaims(db, (c: Claim) => HasAuthId(c, authId));
    if ids == [] {
      assert forall id :: !RowOfAuth(View(db), authId, id);
      return Err(Invalid);
    }
    var id := ids[0];
    assert id in ids && RowOfAuth(View(db), authId, id);
    var row := db.claims[id];
    if row.verified { return Err(Invalid); }
    if row.expires < now { return Err(Invalid); }
    if row.mac !in db.provisioning { return Err(Invalid); }
    if proof.None? { return Err(Invalid); }
    if proof.value != cfg.hmac(db.provisioning[row.mac], row.mode.nonce) { return Err(Invalid); }
    db.claims := db.claims[id := row.(verified := true)];
    r := IssueCertificate(db, row.node, serial);
  }

  method VerifyAssistedClaim(db: Database, user: UserId, serial: Option<string>, now: Time) returns (r: Result<()>)
    modifies db`claims, db`nodes, db`certificates
    ensures (View(db), r) == VerifyAssisted(old(View(db)), user, serial, now)
  {
    var ids := SelectClaims(db, (c: Claim) => AwaitsUser(c, user));
    ghost var awaiting := Awaiting(View(db), user);
    assert forall id :: id in ids <==> id in awaiting;
    if ids == [] {
      assert awaiting == {};
      return Err(Invalid);
    }
    assert ids[0] in ids;
    if |ids| > 1 {
      assert ids[1] in ids;
      TwoMembers(awaiting, ids[0], ids[1]);
      return Err(Crash);
    }
    var id := ids[0];
    assert awaiting == {id};
    if db.claims[id].expires < now { return Err(Invalid); }
    var row := db.claims[id];
    db.claims := db.claims[id := row.(verified := true)];
    r := IssueCertificate(db, row.node, serial);
  }

  lemma TwoMembers(ids: set<Uuid>, a: Uuid, b: Uuid)
    requires a in ids && b in ids && a != b
    ensures |ids| > 1
  {
    SubsetSize({a, b}, ids);
  }
}
