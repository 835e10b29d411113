/** Who may act on a node: mapping challenges and their two completion paths, sharing requests, and the
    access policy, as one machine over the tables they touch (app/services/mapping.py, sharing.py,
    access.py, the user-mapping handler of app/mqtt/router.py, and the two delete routes). */
module Ownership {
  import opened Prelude
  import opened Store

  datatype Own = Own(
    users: map<UserId, User>,
    nodes: set<NodeId>,
    challenges: map<string, Challenge>,
    mappings: seq<Mapping>,
    requests: map<Uuid, Request>,
    shares: seq<Share>)

  // ---------- Mapping ----------

  /** A new challenge row; the key is random, and the commit refuses a repeated key or an unknown user. */
  function AddChallenge(s: Own, rid: string, c: Challenge): (Own, Result<()>) {
    if c.user !in s.users || rid in s.challenges then (s, Err(Crash))
    else (s.(challenges := s.challenges[rid := c]), Ok(()))
  }

  function RequestMapping(
    s: Own, user: UserId, rid: string, node: NodeId, secret: string, now: Time): (Own, Result<()>)
  {
    AddChallenge(s, rid, Challenge(user, node, Some(secret), None, Pending, now + HOUR, None))
  }

  function InitiateChallenge(
    s: Own, user: UserId, rid: string, challenge: string, node: NodeId, now: Time): (Own, Result<()>)
  {
    AddChallenge(s, rid, Challenge(user, node, None, Some(challenge), Pending, now + 10 * MINUTE, None))
  }

  /** Both paths end here: the mapping is added unless it exists, and the challenge is completed. The
      commit fails when a new mapping would name an unknown user or node. */
  function Complete(s: Own, rid: string, now: Time): Option<Own>
    requires rid in s.challenges
  {
    var c := s.challenges[rid];
    var m := Mapping(c.user, c.node);
    if m !in s.mappings && (c.user !in s.users || c.node !in s.nodes) then None
    else Some(s.(
      mappings := if m in s.mappings then s.mappings else s.mappings + [m],
      challenges := s.challenges[rid := c.(status := Completed, completedAt := Some(now))]))
  }

  function VerifyChallenge(s: Own, user: UserId, rid: string, response: string, now: Time): (Own, Result<()>) {
    if rid !in s.challenges || s.challenges[rid].user != user || s.challenges[rid].status != Pending then
      (s, Err(Invalid))
    else if s.challenges[rid].expires < now then (s, Err(Invalid))
    else if s.challenges[rid].challenge != Some(response) then (s, Err(Invalid))
    else match Complete(s, rid, now)
      case None => (s, Err(Crash))
      case Some(s') => (s', Ok(()))
  }

  predicate Answers(c: Challenge, node: NodeId, secret: string) {
    c.secret == Some(secret) && c.node == node && c.status == Pending
  }

  /** `rid` is the one row that `scalar_one_or_none` returns; with several it raises. */
  predicate SoleAnswer(challenges: map<string, Challenge>, node: NodeId, secret: string, rid: string) {
    rid in challenges && Answers(challenges[rid], node, secret) &&
    forall other :: other in challenges && Answers(challenges[other], node, secret) ==> other == rid
  }

  /** The secret key a report is matched by: none when the report is malformed, silent or names another node. */
  function ReportedSecret(node: NodeId, payload: Json): Option<string> {
    if !payload.Obj? then None
    else
      var secret := GetOr(payload.fields, "secret_key", Null);
      var claimed := GetOr(payload.fields, "node_id", Null);
      if !Truthy(secret) || (Truthy(claimed) && claimed != Str(node)) || !secret.Str? then None else Some(secret.s)
  }

  /** What Python takes for false. */
  lemma FalsyIff(j: Json)
    ensures !Truthy(j) <==>
      j == Null || j == Bool(false) || j == Int(0) || j == Float(0.0) || j == Str("") || j == Arr([]) || j == Obj(map[])
  {
  }

  /** The payload carries the secret and does not name another node: its `node_id` is absent, false in
      Python's sense, or the node of the topic. */
  ghost predicate Carries(payload: Json, node: NodeId, secret: string) {
    payload.Obj? && secret != "" &&
    "secret_key" in payload.fields && payload.fields["secret_key"] == Str(secret) &&
    ("node_id" in payload.fields ==>
       payload.fields["node_id"] in {Null, Bool(false), Int(0), Float(0.0), Str(""), Arr([]), Obj(map[]), Str(node)})
  }

  lemma ReportedIff(node: NodeId, payload: Json, secret: string)
    ensures ReportedSecret(node, payload) == Some(secret) <==> Carries(payload, node, secret)
  {
    if payload.Obj? {
      FalsyIff(GetOr(payload.fields, "node_id", Null));
    }
  }

  /** `_handle_user_mapping`. */
  ghost function DeviceReport(s: Own, node: NodeId, payload: Json, now: Time): Own {
    var secret := ReportedSecret(node, payload);
    if secret.None? || !exists rid :: SoleAnswer(s.challenges, node, secret.value, rid) then s
    else
      var rid :| SoleAnswer(s.challenges, node, secret.value, rid);
      if s.challenges[rid].expires < now then
        s.(challenges := s.challenges[rid := s.challenges[rid].(status := Expired)])
      else match Complete(s, rid, now)
        case None => s
        case Some(s') => s'
  }

  // ---------- Sharing ----------

  /** `create_request`: one row for each node, or none at all. The ids are random. */
  function Invite(
    s: Own, user: UserId, ids: seq<Uuid>, nodes: seq<NodeId>, toName: string, now: Time): (Own, Result<()>)
  {
    if nodes == [] || toName == "" then (s, Err(Invalid))
    else if exists n :: n in nodes && Mapping(user, n) !in s.mappings then (s, Err(Forbidden))
    else if |ids| != |nodes| || !NoDup(ids) || exists id :: id in ids && id in s.requests then (s, Err(Crash))
    else (s.(requests := s.requests + Invitations(user, ids, nodes, toName, now)), Ok(()))
  }

  function Invitations(user: UserId, ids: seq<Uuid>, nodes: seq<NodeId>, toName: string, now: Time): map<Uuid, Request>
    requires |ids| == |nodes| && NoDup(ids)
  {
    map i | 0 <= i < |ids| :: ids[i] := Request(nodes[i], user, toName, Waiting, now + 7 * DAY)
  }

  /** `accept_or_decline`. */
  function Answer(s: Own, user: UserId, name: string, id: Uuid, accept: bool, now: Time): (Own, Result<()>) {
    if id !in s.requests then (s, Err(NotFound))
    else
      var r := s.requests[id];
      if r.toName != name then (s, Err(Forbidden))
      else if r.status != Waiting then (s, Err(Invalid))
      else if r.expires < now then (s.(requests := s.requests[id := r.(status := Lapsed)]), Err(Invalid))
      else if !accept then (s.(requests := s.requests[id := r.(status := Declined)]), Ok(()))
      else
        (s.(requests := s.requests[id := r.(status := Accepted)],
            shares := if SharedTo(s, user, r.node) then s.shares else s.shares + [Share(r.node, r.from, user)]), Ok(()))
  }

  /** `revoke_share`. User names are unique, so at most one user is meant. */
  function Revoke(s: Own, owner: UserId, nodes: seq<NodeId>, invitee: string): Own {
    s.(shares := Filter(s.shares, (sh: Share) => !Revoked(s.users, owner, nodes, invitee, sh)))
  }

  predicate Revoked(users: map<UserId, User>, owner: UserId, nodes: seq<NodeId>, invitee: string, sh: Share) {
    sh.node in nodes && sh.from == owner && sh.to in users && users[sh.to].name == invitee
  }

  // ---------- Deleting ----------

  function Unmap(s: Own, user: UserId, node: NodeId): (Own, Result<()>) {
    if Mapping(user, node) !in s.mappings then (s, Err(NotFound))
    else (s.(mappings := Filter(s.mappings, (m: Mapping) => m != Mapping(user, node))), Ok(()))
  }

  /** Deleting a user takes every row that references the user with it. */
  function DeleteUser(s: Own, user: UserId): Own {
    Own(
      s.users - {user},
      s.nodes,
      map rid | rid in s.challenges && s.challenges[rid].user != user :: s.challenges[rid],
      Filter(s.mappings, (m: Mapping) => m.user != user),
      map id | id in s.requests && s.requests[id].from != user :: s.requests[id],
      Filter(s.shares, (sh: Share) => sh.from != user && sh.to != user))
  }

  // ---------- Access ----------

  predicate Owns(s: Own, user: UserId, node: NodeId) {
    Mapping(user, node) in s.mappings
  }

  predicate SharedTo(s: Own, user: UserId, node: NodeId) {
    exists sh :: sh in s.shares && sh.node == node && sh.to == user
  }

  predicate HasAccess(s: Own, user: UserId, node: NodeId) {
    Owns(s, user, node) || SharedTo(s, user, node)
  }

  function OwnedNodes(rows: seq<Mapping>, user: UserId): (r: seq<NodeId>)
    ensures forall n :: n in r <==> Mapping(user, n) in rows
  {
    if rows == [] then []
    else
      var (front, last) := (rows[..|rows| - 1], rows[|rows| - 1]);
      assert rows == front + [last];
      OwnedNodes(front, user) + if last.user == user then [last.node] else []
  }

  function SharedNodes(rows: seq<Share>, user: UserId): (r: seq<NodeId>)
    ensures forall n :: n in r <==> exists sh :: sh in rows && sh.node == n && sh.to == user
  {
    if rows == [] then []
    else
      var (front, last) := (rows[..|rows| - 1], rows[|rows| - 1]);
      assert rows == front + [last];
      SharedNodes(front, user) + if last.to == user then [last.node] else []
  }

  /** `list(dict.fromkeys(xs))`: the first occurrence of each element, in order. */
  function FirstOccurrences(xs: seq<NodeId>): (r: seq<NodeId>)
    ensures NoDup(r)
    ensures forall n :: n in r <==> n in xs
  {
    if xs == [] then []
    else
      var (front, last) := (xs[..|xs| - 1], xs[|xs| - 1]);
      assert xs == front + [last];
      var r := FirstOccurrences(front);
      if last in r then r else r + [last]
  }

  function AccessibleNodes(s: Own, user: UserId): seq<NodeId> {
    FirstOccurrences(OwnedNodes(s.mappings, user) + SharedNodes(s.shares, user))
  }

  lemma {:induction false} OccurrencesSplit(xs: seq<NodeId>, ys: seq<NodeId>)
    ensures exists rest ::
      FirstOccurrences(xs + ys) == FirstOccurrences(xs) + rest && forall n :: n in rest ==> n !in xs
  {
    if ys == [] {
      assert xs + ys == xs;
      assert FirstOccurrences(xs + ys) == FirstOccurrences(xs) + [];
    } else {
      var (front, last) := (ys[..|ys| - 1], ys[|ys| - 1]);
      OccurrencesSplit(xs, front);
      assert (xs + ys)[..|xs + ys| - 1] == xs + front;
      var rest :| FirstOccurrences(xs + front) == FirstOccurrences(xs) + rest && forall n :: n in rest ==> n !in xs;
      if last !in xs + front {
        AppendAssoc(FirstOccurrences(xs), rest, [last]);
        assert FirstOccurrences(xs + ys) == FirstOccurrences(xs) + (rest + [last]);
      }
    }
  }

  ghost predicate OwnedUpTo(s: Own, user: UserId, list: seq<NodeId>, k: int) {
    0 <= k <= |list| && forall i :: 0 <= i < |list| ==> (i < k <==> Owns(s, user, list[i]))
  }

  /** The access list has no duplicates, lists exactly the accessible nodes, and has the owned ones first. */
  lemma AccessListAgrees(s: Own, user: UserId)
    ensures NoDup(AccessibleNodes(s, user))
    ensures forall n :: n in AccessibleNodes(s, user) <==> HasAccess(s, user, n)
    ensures exists k :: OwnedUpTo(s, user, AccessibleNodes(s, user), k)
  {
    var (owned, shared) := (OwnedNodes(s.mappings, user), SharedNodes(s.shares, user));
    OccurrencesSplit(owned, shared);
    var rest :|
      FirstOccurrences(owned + shared) == FirstOccurrences(owned) + rest && forall n :: n in rest ==> n !in owned;
    var (list, k) := (AccessibleNodes(s, user), |FirstOccurrences(owned)|);
    forall i | 0 <= i < |list| ensures i < k <==> Owns(s, user, list[i]) {
      if i < k {
        assert list[i] == FirstOccurrences(owned)[i] && list[i] in FirstOccurrences(owned);
      } else {
        assert list[i] == rest[i - k] && list[i] in rest;
      }
    }
    assert OwnedUpTo(s, user, list, k);
  }

  // ---------- Runs ----------

  /** A call, with what it reads from outside: the clock and the random keys. */
  datatype Call =
    | MappingRequest(rid: string, node: NodeId, secret: string, now: Time)
    | Initiate(rid: string, challenge: string, node: NodeId, now: Time)
    | Verify(rid: string, response: string, now: Time)
    | Inviting(ids: seq<Uuid>, nodes: seq<NodeId>, toName: string, now: Time)
    | Answering(id: Uuid, accept: bool, now: Time)
    | Revoking(nodes: seq<NodeId>, invitee: string)
    | Unmapping(node: NodeId)
    | DeletingSelf

  datatype Event =
    | Accounts(users: map<UserId, User>)
    | NodeAppears(node: NodeId)
    | DeviceReports(node: NodeId, payload: Json, now: Time)
    | UserCalls(caller: UserId, call: Call)

  ghost predicate NamesUnique(users: map<UserId, User>) {
    forall u, v :: u in users && v in users && users[u].name == users[v].name ==> u == v
  }

  /** All that the account service may do to other users' rows here: names stay unique and unchanged. */
  ghost predicate AccountsEvolve(users: map<UserId, User>, users': map<UserId, User>) {
    NamesUnique(users') && forall u :: u in users ==> u in users' && users'[u].name == users[u].name
  }

  /** A call by `u`, authenticated by the route as an existing, confirmed user. */
  function CallStep(s: Own, u: UserId, call: Call): Own {
    if u !in s.users || !s.users[u].confirmed then s
    else match call
      case MappingRequest(rid, node, secret, now) => RequestMapping(s, u, rid, node, secret, now).0
      case Initiate(rid, challenge, node, now) => InitiateChallenge(s, u, rid, challenge, node, now).0
      case Verify(rid, response, now) => VerifyChallenge(s, u, rid, response, now).0
      case Inviting(ids, nodes, toName, now) => Invite(s, u, ids, nodes, toName, now).0
      case Answering(id, accept, now) => Answer(s, u, s.users[u].name, id, accept, now).0
      case Revoking(nodes, invitee) => Revoke(s, u, nodes, invitee)
      case Unmapping(node) => Unmap(s, u, node).0
      case DeletingSelf => DeleteUser(s, u)
  }

  ghost function Step(s: Own, e: Event): Own {
    match e
    case Accounts(users) => if AccountsEvolve(s.users, users) then s.(users := users) else s
    case NodeAppears(node) => s.(nodes := s.nodes + {node})
    case DeviceReports(node, payload, now) => DeviceReport(s, node, payload, now)
    case UserCalls(u, call) => CallStep(s, u, call)
  }

  ghost function Run(s: Own, es: seq<Event>): Own {
    if es == [] then s else Step(Run(s, es[..|es| - 1]), es[|es| - 1])
  }

  const EMPTY := Own(map[], {}, map[], [], map[], [])

  // ---------- The invariant ----------

  /** The user once completed a challenge for the node. */
  ghost predicate Earned(s: Own, user: UserId, node: NodeId) {
    exists rid :: rid in s.challenges && s.challenges[rid].user == user && s.challenges[rid].node == node &&
      s.challenges[rid].status == Completed
  }

  /** Some accepted request stands behind the share. */
  ghost predicate Agreed(s: Own, sh: Share) {
    sh.to in s.users &&
    exists id :: id in s.requests && s.requests[id].status == Accepted && s.requests[id].node == sh.node &&
      s.requests[id].from == sh.from && s.requests[id].toName == s.users[sh.to].name
  }

  ghost predicate ChallengeOk(s: Own, c: Challenge) {
    c.user in s.users &&
    (c.secret.Some? <==> c.challenge.None?) &&
    (c.status == Completed <==> c.completedAt.Some?) &&
    (c.completedAt.Some? ==> c.completedAt.value <= c.expires)
  }

  /** One share at most for a node and a receiver. */
  ghost predicate SlotsUnique(shares: seq<Share>) {
    forall i, j :: 0 <= i < j < |shares| ==> shares[i].node != shares[j].node || shares[i].to != shares[j].to
  }

  ghost predicate MappingOk(s: Own, m: Mapping) {
    m.user in s.users && m.node in s.nodes && Earned(s, m.user, m.node)
  }

  ghost predicate Inv(s: Own) {
    && NamesUnique(s.users)
    && NoDup(s.mappings)
    && SlotsUnique(s.shares)
    && (forall rid :: rid in s.challenges ==> ChallengeOk(s, s.challenges[rid]))
    && (forall m :: m in s.mappings ==> MappingOk(s, m))
    && (forall id :: id in s.requests ==> MappingOk(s, Mapping(s.requests[id].from, s.requests[id].node)))
    && (forall sh :: sh in s.shares ==> Agreed(s, sh))
  }

  /** Completed challenges outlive a step, save those of a deleted user. */
  lemma EarnedStays(s: Own, s': Own, user: UserId, node: NodeId)
    requires Earned(s, user, node)
    requires forall rid ::
      rid in s.challenges && s.challenges[rid].user == user && s.challenges[rid].status == Completed ==>
      rid in s'.challenges && s'.challenges[rid] == s.challenges[rid]
    ensures Earned(s', user, node)
  {
  }

  lemma AgreedStays(s: Own, s': Own, sh: Share)
    requires Agreed(s, sh)
    requires sh.to in s'.users && s'.users[sh.to].name == s.users[sh.to].name
    requires forall id :: id in s.requests && s.requests[id].from == sh.from && s.requests[id].status == Accepted ==>
      id in s'.requests && s'.requests[id] == s.requests[id]
    ensures Agreed(s', sh)
  {
  }

  /** A step that only adds rows, or settles those not yet settled. */
  ghost predicate Grows(s: Own, s': Own) {
    && AccountsEvolve(s.users, s'.users)
    && s.nodes <= s'.nodes
    && (forall rid :: rid in s.challenges && s.challenges[rid].status == Completed ==>
          rid in s'.challenges && s'.challenges[rid] == s.challenges[rid])
    && (forall id :: id in s.requests && s.requests[id].status == Accepted ==>
          id in s'.requests && s'.requests[id] == s.requests[id])
  }

  lemma GrowthKeepsRows(s: Own, s': Own)
    requires Inv(s) && Grows(s, s')
    ensures forall m :: MappingOk(s, m) ==> MappingOk(s', m)
    ensures forall sh :: sh in s.shares ==> Agreed(s', sh)
  {
  }

  lemma CompleteKeepsInv(s: Own, rid: string, now: Time)
    requires Inv(s) && rid in s.challenges && s.challenges[rid].status == Pending && now <= s.challenges[rid].expires
    ensures Complete(s, rid, now).Some? ==> Inv(Complete(s, rid, now).value)
  {
    if Complete(s, rid, now).Some? {
      var s' := Complete(s, rid, now).value;
      var c := s.challenges[rid];
      GrowthKeepsRows(s, s');
      assert s'.challenges[rid].status == Completed;
      assert MappingOk(s', Mapping(c.user, c.node)) by {
        assert Mapping(c.user, c.node) in s.mappings ==> MappingOk(s, Mapping(c.user, c.node));
      }
    }
  }

  lemma ReportKeepsInv(s: Own, node: NodeId, payload: Json, now: Time)
    requires Inv(s)
    ensures Inv(DeviceReport(s, node, payload, now))
  {
    var s' := DeviceReport(s, node, payload, now);
    if s' != s {
      var secret := ReportedSecret(node, payload).value;
      var rid :| SoleAnswer(s.challenges, node, secret, rid);
      if s.challenges[rid].expires < now {
        GrowthKeepsRows(s, s');
      } else {
        CompleteKeepsInv(s, rid, now);
      }
    }
  }

  lemma InviteKeepsInv(s: Own, user: UserId, ids: seq<Uuid>, nodes: seq<NodeId>, toName: string, now: Time)
    requires Inv(s)
    ensures Inv(Invite(s, user, ids, nodes, toName, now).0)
  {
    var (s', r) := Invite(s, user, ids, nodes, toName, now);
    if r.Ok? {
      InvitationsOf(user, ids, nodes, toName, now);
      GrowthKeepsRows(s, s');
    }
  }

  lemma InvitationsOf(user: UserId, ids: seq<Uuid>, nodes: seq<NodeId>, toName: string, now: Time)
    requires |ids| == |nodes| && NoDup(ids)
    ensures
      var added := Invitations(user, ids, nodes, toName, now);
      forall id :: id in added ==> id in ids && added[id].from == user && added[id].node in nodes
  {
  }

  lemma AnswerKeepsInv(s: Own, user: UserId, id: Uuid, accept: bool, now: Time)
    requires Inv(s) && user in s.users
    ensures Inv(Answer(s, user, s.users[user].name, id, accept, now).0)
  {
    var s' := Answer(s, user, s.users[user].name, id, accept, now).0;
    if s' != s {
      var r := s.requests[id];
      var settled := s.(requests := s'.requests);
      SettleKeepsInv(s, id, s'.requests[id].status);
      if s'.shares != s.shares {
        assert settled.requests[id].status == Accepted;
        ShareKeepsInv(settled, Share(r.node, r.from, user));
      }
    }
  }

  lemma SettleKeepsInv(s: Own, id: Uuid, status: RequestStatus)
    requires Inv(s) && id in s.requests && s.requests[id].status == Waiting
    ensures Inv(s.(requests := s.requests[id := s.requests[id].(status := status)]))
  {
    GrowthKeepsRows(s, s.(requests := s.requests[id := s.requests[id].(status := status)]));
  }

  lemma ShareKeepsInv(s: Own, added: Share)
    requires Inv(s) && Agreed(s, added) && !SharedTo(s, added.to, added.node)
    ensures Inv(s.(shares := s.shares + [added]))
  {
    GrowthKeepsRows(s, s.(shares := s.shares + [added]));
    NewSlot(s.shares, added);
  }

  lemma NewSlot(shares: seq<Share>, added: Share)
    requires SlotsUnique(shares)
    requires !exists sh :: sh in shares && sh.node == added.node && sh.to == added.to
    ensures SlotsUnique(shares + [added])
  {
  }

  /** Dropping mappings and shares harms nothing else. */
  lemma ShrinkKeepsInv(s: Own, keepMapping: Mapping -> bool, keepShare: Share -> bool)
    requires Inv(s)
    ensures Inv(s.(mappings := Filter(s.mappings, keepMapping), shares := Filter(s.shares, keepShare)))
  {
    var s' := s.(mappings := Filter(s.mappings, keepMapping), shares := Filter(s.shares, keepShare));
    FilterNoDup(s.mappings, keepMapping);
    FilterKeepsSlots(s.shares, keepShare);
    forall u, n | Earned(s, u, n) ensures Earned(s', u, n) {
      EarnedStays(s, s', u, n);
    }
    forall sh | sh in s'.shares ensures Agreed(s', sh) {
      AgreedStays(s, s', sh);
    }
  }

  lemma {:induction false} FilterKeepsSlots(rows: seq<Share>, keep: Share -> bool)
    requires SlotsUnique(rows)
    ensures SlotsUnique(Filter(rows, keep))
  {
    if rows != [] {
      var (front, last) := (rows[..|rows| - 1], rows[|rows| - 1]);
      FilterKeepsSlots(front, keep);
      var r := Filter(front, keep);
      forall i | 0 <= i < |r| ensures r[i].node != last.node || r[i].to != last.to {
        assert r[i] in front;
        var k :| 0 <= k < |front| && front[k] == r[i];
        assert rows[k] == r[i];
      }
    }
  }

  lemma DeleteUserKeepsRows(s: Own, user: UserId)
    requires Inv(s)
    ensures
      var s' := DeleteUser(s, user);
      (forall m :: MappingOk(s, m) && m.user != user ==> MappingOk(s', m)) &&
      (forall sh :: sh in s.shares && sh.from != user && sh.to != user ==> Agreed(s', sh))
  {
    var s' := DeleteUser(s, user);
    forall m | MappingOk(s, m) && m.user != user ensures MappingOk(s', m) {
      EarnedStays(s, s', m.user, m.node);
    }
    forall sh | sh in s.shares && sh.from != user && sh.to != user ensures Agreed(s', sh) {
      AgreedStays(s, s', sh);
    }
  }

  lemma DeleteUserKeepsInv(s: Own, user: UserId)
    requires Inv(s)
    ensures Inv(DeleteUser(s, user))
  {
    var s' := DeleteUser(s, user);
    DeleteUserKeepsRows(s, user);
    FilterNoDup(s.mappings, (m: Mapping) => m.user != user);
    FilterKeepsSlots(s.shares, (sh: Share) => sh.from != user && sh.to != user);
    forall id | id in s'.requests ensures MappingOk(s', Mapping(s'.requests[id].from, s'.requests[id].node)) {
      assert MappingOk(s, Mapping(s.requests[id].from, s.requests[id].node));
    }
  }

  lemma AddChallengeKeepsInv(s: Own, rid: string, c: Challenge)
    requires Inv(s) && (c.secret.Some? <==> c.challenge.None?) && c.status == Pending && c.completedAt.None?
    ensures Inv(AddChallenge(s, rid, c).0)
  {
    var s' := AddChallenge(s, rid, c).0;
    if s' != s {
      GrowthKeepsRows(s, s');
    }
  }

  lemma RevokeKeepsInv(s: Own, owner: UserId, nodes: seq<NodeId>, invitee: string)
    requires Inv(s)
    ensures Inv(Revoke(s, owner, nodes, invitee))
  {
    FilterAll(s.mappings, (m: Mapping) => true);
    ShrinkKeepsInv(s, (m: Mapping) => true, (sh: Share) => !Revoked(s.users, owner, nodes, invitee, sh));
  }

  lemma UnmapKeepsInv(s: Own, user: UserId, node: NodeId)
    requires Inv(s)
    ensures Inv(Unmap(s, user, node).0)
  {
    FilterAll(s.shares, (sh: Share) => true);
    ShrinkKeepsInv(s, (m: Mapping) => m != Mapping(user, node), (sh: Share) => true);
  }

  lemma VerifyKeepsInv(s: Own, user: UserId, rid: string, response: string, now: Time)
    requires Inv(s)
    ensures Inv(VerifyChallenge(s, user, rid, response, now).0)
  {
    if rid in s.challenges && s.challenges[rid].status == Pending && now <= s.challenges[rid].expires {
      CompleteKeepsInv(s, rid, now);
    }
  }

  lemma CallKeepsInv(s: Own, u: UserId, call: Call)
    requires Inv(s) && u in s.users && s.users[u].confirmed
    ensures Inv(CallStep(s, u, call))
  {
    match call
    case MappingRequest(rid, node, secret, now) =>
      var c := Challenge(u, node, Some(secret), None, Pending, now + HOUR, None);
      AddChallengeKeepsInv(s, rid, c);
      assert CallStep(s, u, call) == AddChallenge(s, rid, c).0;
    case Initiate(rid, challenge, node, now) =>
      var c := Challenge(u, node, None, Some(challenge), Pending, now + 10 * MINUTE, None);
      AddChallengeKeepsInv(s, rid, c);
      assert CallStep(s, u, call) == AddChallenge(s, rid, c).0;
    case Verify(rid, response, now) =>
      VerifyKeepsInv(s, u, rid, response, now);
      assert CallStep(s, u, call) == VerifyChallenge(s, u, rid, response, now).0;
    case Inviting(ids, nodes, toName, now) =>
      InviteKeepsInv(s, u, ids, nodes, toName, now);
      assert CallStep(s, u, call) == Invite(s, u, ids, nodes, toName, now).0;
    case Answering(id, accept, now) =>
      AnswerKeepsInv(s, u, id, accept, now);
      assert CallStep(s, u, call) == Answer(s, u, s.users[u].name, id, accept, now).0;
    case Revoking(nodes, invitee) =>
      RevokeKeepsInv(s, u, nodes, invitee);
      assert CallStep(s, u, call) == Revoke(s, u, nodes, invitee);
    case Unmapping(node) =>
      UnmapKeepsInv(s, u, node);
      assert CallStep(s, u, call) == Unmap(s, u, node).0;
    case DeletingSelf =>
      DeleteUserKeepsInv(s, u);
      assert CallStep(s, u, call) == DeleteUser(s, u);
  }

  lemma StepKeepsInv(s: Own, e: Event)
    requires Inv(s)
    ensures Inv(Step(s, e))
  {
    match e
    case Accounts(_) => if Step(s, e) != s { GrowthKeepsRows(s, Step(s, e)); }
    case NodeAppears(_) => GrowthKeepsRows(s, Step(s, e));
    case DeviceReports(node, payload, now) => ReportKeepsInv(s, node, payload, now);
    case UserCalls(u, call) => if u in s.users && s.users[u].confirmed { CallKeepsInv(s, u, call); }
  }

  lemma {:induction false} RunKeepsInv(s: Own, es: seq<Event>)
    requires Inv(s)
    ensures Inv(Run(s, es))
  {
    if es != [] {
      RunKeepsInv(s, es[..|es| - 1]);
      StepKeepsInv(Run(s, es[..|es| - 1]), es[|es| - 1]);
    }
  }

  // ---------- What every run keeps ----------

  /** Access provenance: in every reachable state all access goes back to a completed challenge, either
      the user's own, or that of the grantor of a share the user accepted under their own name. */
  lemma AccessProvenance(es: seq<Event>, user: UserId, node: NodeId)
    ensures
      var s := Run(EMPTY, es);
      HasAccess(s, user, node) ==>
        Earned(s, user, node) ||
        exists sh :: sh in s.shares && sh.node == node && sh.to == user && Agreed(s, sh) && Earned(s, sh.from, node)
  {
    RunKeepsInv(EMPTY, es);
    var s := Run(EMPTY, es);
    if HasAccess(s, user, node) && !Owns(s, user, node) {
      var sh :| sh in s.shares && sh.node == node && sh.to == user;
      assert Agreed(s, sh);
      var id :| id in s.requests && s.requests[id].status == Accepted && s.requests[id].node == sh.node &&
        s.requests[id].from == sh.from && s.requests[id].toName == s.users[sh.to].name;
      assert Earned(s, sh.from, node);
    }
  }

  /** How a single step may treat a challenge: a settled one is left alone, and a completion comes from
      the one path its row is made for, before its expiry, by its own user or node. */
  ghost predicate ChallengeStep(s: Own, e: Event, rid: string)
    requires rid in s.challenges
  {
    var (c, s') := (s.challenges[rid], Step(s, e));
    (rid !in s'.challenges ==> e == UserCalls(c.user, DeletingSelf)) &&
    (rid in s'.challenges && s'.challenges[rid] != c ==>
       c.status == Pending && s'.challenges[rid].user == c.user && s'.challenges[rid].node == c.node &&
       match s'.challenges[rid].status
       case Pending => false
       case Expired => e.DeviceReports? && c.secret.Some? && c.expires < e.now
       case Completed =>
         Owns(s', c.user, c.node) &&
         (CompletedByUser(e, c) || CompletedByDevice(e, c)))
  }

  ghost predicate CompletedByUser(e: Event, c: Challenge) {
    e.UserCalls? && e.caller == c.user && e.call.Verify? && e.call.now <= c.expires &&
    c.secret.None? && c.challenge == Some(e.call.response)
  }

  ghost predicate CompletedByDevice(e: Event, c: Challenge) {
    e.DeviceReports? && e.node == c.node && e.now <= c.expires &&
    c.challenge.None? && c.secret.Some? && Carries(e.payload, e.node, c.secret.value)
  }

  /** A report settles at most the one row it answers. */
  lemma ReportTouches(s: Own, node: NodeId, payload: Json, now: Time, rid: string)
    requires rid in s.challenges
    ensures
      var (c, s', secret) := (s.challenges[rid], DeviceReport(s, node, payload, now), ReportedSecret(node, payload));
      rid in s'.challenges &&
      (s'.challenges[rid] != c ==>
         secret.Some? && Answers(c, node, secret.value) &&
         if c.expires < now then s'.challenges[rid] == c.(status := Expired)
         else s'.challenges[rid] == c.(status := Completed, completedAt := Some(now)) && Owns(s', c.user, c.node))
  {
  }

  /** A user's call settles at most the row it verifies. */
  lemma CallTouches(s: Own, u: UserId, call: Call, rid: string)
    requires rid in s.challenges
    ensures
      var (c, s') := (s.challenges[rid], CallStep(s, u, call));
      (rid !in s'.challenges ==> call == DeletingSelf && c.user == u) &&
      (rid in s'.challenges && s'.challenges[rid] != c ==>
         call.Verify? && c.user == u && c.status == Pending && call.now <= c.expires &&
         c.challenge == Some(call.response) &&
         s'.challenges[rid] == c.(status := Completed, completedAt := Some(call.now)) && Owns(s', c.user, c.node))
  {
  }

  lemma TwoPathsApart(s: Own, e: Event, rid: string)
    requires Inv(s) && rid in s.challenges
    ensures ChallengeStep(s, e, rid)
  {
    assert ChallengeOk(s, s.challenges[rid]);
    match e
    case Accounts(_) =>
    case NodeAppears(_) =>
    case DeviceReports(node, payload, now) =>
      ReportTouches(s, node, payload, now, rid);
      if ReportedSecret(node, payload).Some? {
        ReportedIff(node, payload, ReportedSecret(node, payload).value);
      }
    case UserCalls(u, call) => CallTouches(s, u, call, rid);
  }

  /** In every reachable state a challenge is made for exactly one of the two paths, and has a completion
      time, no later than its expiry, exactly when it is completed. */
  lemma ChallengesSound(es: seq<Event>, rid: string)
    requires rid in Run(EMPTY, es).challenges
    ensures
      var c := Run(EMPTY, es).challenges[rid];
      (c.secret.Some? <==> c.challenge.None?) && (c.status == Completed <==> c.completedAt.Some?) &&
      (c.completedAt.Some? ==> c.completedAt.value <= c.expires)
  {
    RunKeepsInv(EMPTY, es);
    assert ChallengeOk(Run(EMPTY, es), Run(EMPTY, es).challenges[rid]);
  }

  /** Once settled, a challenge never changes again in any run that does not delete its user. */
  lemma {:induction false} SettledForever(s: Own, es: seq<Event>, rid: string)
    requires Inv(s) && rid in s.challenges && s.challenges[rid].status != Pending
    requires UserCalls(s.challenges[rid].user, DeletingSelf) !in es
    ensures rid in Run(s, es).challenges && Run(s, es).challenges[rid] == s.challenges[rid]
  {
    if es != [] {
      var front := es[..|es| - 1];
      SettledForever(s, front, rid);
      RunKeepsInv(s, front);
      TwoPathsApart(Run(s, front), es[|es| - 1], rid);
    }
  }

  /** The same for requests: only the named invitee settles one, once, and accepts it before its expiry. */
  ghost predicate RequestStep(s: Own, e: Event, id: Uuid)
    requires id in s.requests
  {
    var (r, s') := (s.requests[id], Step(s, e));
    (id !in s'.requests ==> e == UserCalls(r.from, DeletingSelf)) &&
    (id in s'.requests && s'.requests[id] != r ==>
       r.status == Waiting && e.UserCalls? && e.call.Answering? && e.call.id == id &&
       e.caller in s.users && s.users[e.caller].name == r.toName &&
       s'.requests[id] == r.(status :=
         if r.expires < e.call.now then Lapsed else if e.call.accept then Accepted else Declined) &&
       (s'.requests[id].status == Accepted ==> SharedTo(s', e.caller, r.node)))
  }

  lemma InviteeSettles(s: Own, e: Event, id: Uuid)
    requires id in s.requests
    ensures RequestStep(s, e, id)
  {
    match e
    case UserCalls(u, Answering(other, accept, now)) =>
      if Step(s, e) != s {
        AnswerTouches(s, u, s.users[u].name, other, accept, now);
      }
    case UserCalls(u, Inviting(ids, nodes, toName, now)) => InviteLeaves(s, u, ids, nodes, toName, now, id);
    case DeviceReports(node, payload, now) =>
      assert DeviceReport(s, node, payload, now).requests == s.requests;
    case _ =>
  }

  lemma InviteLeaves(s: Own, user: UserId, ids: seq<Uuid>, nodes: seq<NodeId>, toName: string, now: Time, id: Uuid)
    requires id in s.requests
    ensures
      var s' := Invite(s, user, ids, nodes, toName, now).0;
      id in s'.requests && s'.requests[id] == s.requests[id]
  {
  }

  lemma AnswerTouches(s: Own, user: UserId, name: string, id: Uuid, accept: bool, now: Time)
    ensures
      var s' := Answer(s, user, name, id, accept, now).0;
      s' != s ==>
        id in s.requests && s.requests[id].status == Waiting && s.requests[id].toName == name &&
        s'.requests == s.requests[id := s.requests[id].(status :=
          if s.requests[id].expires < now then Lapsed else if accept then Accepted else Declined)] &&
        (s'.requests[id].status == Accepted ==> SharedTo(s', user, s.requests[id].node)) &&
        (s'.requests[id].status != Accepted ==> s'.shares == s.shares)
  {
  }

  lemma {:induction false} AnsweredForever(s: Own, es: seq<Event>, id: Uuid)
    requires id in s.requests && s.requests[id].status != Waiting
    requires UserCalls(s.requests[id].from, DeletingSelf) !in es
    ensures id in Run(s, es).requests && Run(s, es).requests[id] == s.requests[id]
  {
    if es != [] {
      var (front, e) := (es[..|es| - 1], es[|es| - 1]);
      AnsweredForever(s, front, id);
      assert e in es;
      InviteeSettles(Run(s, front), e, id);
    }
  }

  /** Revoking takes away exactly the shares it names: the invitee keeps a listed node only by owning it,
      and no one else's access, nor any other node, is affected. */
  lemma RevokeExact(s: Own, owner: UserId, nodes: seq<NodeId>, invitee: string, user: UserId, node: NodeId)
    requires Inv(s)
    ensures HasAccess(Revoke(s, owner, nodes, invitee), user, node) <==>
      Owns(s, user, node) ||
      (SharedTo(s, user, node) &&
       !(node in nodes && user in s.users && s.users[user].name == invitee && Share(node, owner, user) in s.shares))
  {
  }

  /** A share outlives its grantor's own mapping: unmapping never changes what anyone else may access. */
  lemma SharesOutliveUnmap(s: Own, owner: UserId, node: NodeId, user: UserId, n: NodeId)
    ensures HasAccess(Unmap(s, owner, node).0, user, n) <==>
      HasAccess(s, user, n) && ((user, n) == (owner, node) ==> SharedTo(s, user, n))
  {
  }

  /** Deleting a user ends that user's access and the shares the user granted, and nothing else. */
  lemma DeleteUserExact(s: Own, user: UserId, other: UserId, node: NodeId)
    ensures
      var s' := DeleteUser(s, user);
      s'.users == s.users - {user} && s'.nodes == s.nodes &&
      Owns(s', other, node) == (other != user && Owns(s, other, node)) &&
      (SharedTo(s', other, node) <==>
        other != user && exists sh :: sh in s.shares && sh.node == node && sh.to == other && sh.from != user) &&
      (forall rid :: rid in s'.challenges <==> rid in s.challenges && s.challenges[rid].user != user) &&
      (forall rid :: rid in s'.challenges ==> s'.challenges[rid] == s.challenges[rid]) &&
      (forall id :: id in s'.requests <==> id in s.requests && s.requests[id].from != user) &&
      (forall id :: id in s'.requests ==> s'.requests[id] == s.requests[id])
  {
  }

  // ---------- When a call succeeds ----------

  /** Either kind of request is refused, for an unknown user or a repeated id, or adds its one row. */
  lemma RequestsAddOne(s: Own, user: UserId, rid: string, node: NodeId, text: string, now: Time)
    ensures
      forall added :: added in {RequestMapping(s, user, rid, node, text, now),
                                InitiateChallenge(s, user, rid, text, node, now)} ==>
        (added.1.Ok? <==> user in s.users && rid !in s.challenges) && (added.1.Err? ==> added == (s, Err(Crash))) &&
        (added.1.Ok? ==>
           rid in added.0.challenges && added.0.challenges - {rid} == s.challenges &&
           added.0 == s.(challenges := added.0.challenges))
  {
  }

  /** A verification succeeds exactly for the user's own pending challenge, in time and with its text; it
      then completes that row and maps the user, and nothing else. */
  lemma VerifyExact(s: Own, user: UserId, rid: string, response: string, now: Time)
    requires Inv(s)
    ensures
      var (s', r) := VerifyChallenge(s, user, rid, response, now);
      (r.Ok? <==>
         rid in s.challenges && s.challenges[rid].user == user && s.challenges[rid].status == Pending &&
         now <= s.challenges[rid].expires && s.challenges[rid].challenge == Some(response) &&
         s.challenges[rid].node in s.nodes) &&
      (r == Err(Crash) ==> s.challenges[rid].node !in s.nodes) && (r.Err? ==> s' == s && r.error in {Invalid, Crash}) &&
      (r.Ok? ==>
         var c := s.challenges[rid];
         s'.challenges == s.challenges[rid := c.(status := Completed, completedAt := Some(now))] &&
         (forall u, n :: Owns(s', u, n) <==> Owns(s, u, n) || (u, n) == (user, c.node)) &&
         s' == s.(challenges := s'.challenges, mappings := s'.mappings))
  {
    if rid in s.challenges {
      assert ChallengeOk(s, s.challenges[rid]);
      assert forall m :: m in s.mappings ==> MappingOk(s, m);
    }
  }

  /** An invitation succeeds exactly for some name and some nodes, all of them the caller's own, given
      distinct new ids; it then adds one waiting request for each node, for seven days, and nothing else. */
  lemma InviteExact(s: Own, user: UserId, ids: seq<Uuid>, nodes: seq<NodeId>, toName: string, now: Time)
    ensures
      var (s', r) := Invite(s, user, ids, nodes, toName, now);
      (r.Ok? <==>
         nodes != [] && toName != "" && (forall n :: n in nodes ==> Mapping(user, n) in s.mappings) &&
         |ids| == |nodes| && NoDup(ids) && forall id :: id in ids ==> id !in s.requests) &&
      (r == Err(Invalid) <==> nodes == [] || toName == "") &&
      (r == Err(Forbidden) <==>
         nodes != [] && toName != "" && exists n :: n in nodes && Mapping(user, n) !in s.mappings) &&
      (r.Err? ==> s' == s && r.error in {Invalid, Forbidden, Crash}) &&
      (r.Ok? ==>
         (forall id :: id in s'.requests <==> id in s.requests || id in ids) &&
         (forall id :: id in s.requests ==> s'.requests[id] == s.requests[id]) &&
         (forall k :: 0 <= k < |ids| ==> ids[k] in ids) &&
         (forall k :: 0 <= k < |ids| ==>
            s'.requests[ids[k]] == Request(nodes[k], user, toName, Waiting, now + 7 * DAY)) &&
         s' == s.(requests := s'.requests))
  {
    if Invite(s, user, ids, nodes, toName, now).1.Ok? {
      var added := Invitations(user, ids, nodes, toName, now);
      assert forall id :: id in added <==> id in ids;
      assert forall k :: 0 <= k < |ids| ==> ids[k] in ids && ids[k] in added;
    }
  }

  /** An answer settles a waiting request addressed to the caller, in every case: late it lapses, and the
      call is refused; in time it is accepted or declined as asked. Any other answer changes nothing. */
  lemma AnswerExact(s: Own, user: UserId, name: string, id: Uuid, accept: bool, now: Time)
    ensures
      var (s', r) := Answer(s, user, name, id, accept, now);
      var open := id in s.requests && s.requests[id].toName == name && s.requests[id].status == Waiting;
      (r.Ok? <==> open && now <= s.requests[id].expires) && (!open ==> s' == s) &&
      (r == Err(NotFound) <==> id !in s.requests) &&
      (r == Err(Forbidden) <==> id in s.requests && s.requests[id].toName != name) &&
      (r.Err? ==> r.error in {NotFound, Forbidden, Invalid}) &&
      (open ==>
         var q := s.requests[id];
         var status := if q.expires < now then Lapsed else if accept then Accepted else Declined;
         s'.requests == s.requests[id := q.(status := status)] &&
         s' == s.(requests := s'.requests, shares := s'.shares) &&
         forall u, n :: SharedTo(s', u, n) <==> SharedTo(s, u, n) || ((u, n) == (user, q.node) && status == Accepted))
  {
    var (s', r) := Answer(s, user, name, id, accept, now);
    if s'.shares != s.shares {
      var added := Share(s.requests[id].node, s.requests[id].from, user);
      assert forall sh :: sh in s'.shares <==> sh in s.shares || sh == added;
    }
  }

  lemma UnmapSucceedsIff(s: Own, user: UserId, node: NodeId)
    ensures
      var (s', r) := Unmap(s, user, node);
      (r.Ok? <==> Mapping(user, node) in s.mappings) && (r.Err? ==> r == Err(NotFound)) && !Owns(s', user, node)
  {
  }

  /** Nothing is done for a caller who is unknown or not confirmed. */
  lemma StrangersDoNothing(s: Own, caller: UserId, call: Call)
    requires caller !in s.users || !s.users[caller].confirmed
    ensures Step(s, UserCalls(caller, call)) == s
  {
  }

  // ---------- Whom a device report maps ----------

  /** The step completes a challenge of the user for the node. */
  ghost predicate Confirms(s: Own, s': Own, user: UserId, node: NodeId) {
    exists rid :: rid in s.challenges && rid in s'.challenges && s.challenges[rid].user == user &&
      s.challenges[rid].node == node && s.challenges[rid].status == Pending && s'.challenges[rid].status == Completed
  }

  /** A device that names another node is not believed: its report changes nothing. */
  lemma MismatchIsDropped(s: Own, node: NodeId, fields: map<string, Json>, other: string, now: Time)
    requires "node_id" in fields && fields["node_id"] == Str(other) && other != "" && other != node
    ensures DeviceReport(s, node, Obj(fields), now) == s
  {
  }

  /** `rid` is the one pending challenge for the node with the secret, and it is the user's. */
  ghost predicate SolePending(s: Own, rid: string, user: UserId, node: NodeId, secret: string) {
    rid in s.challenges && s.challenges[rid].user == user &&
    forall other :: other in s.challenges ==>
      (other == rid <==>
         s.challenges[other].node == node && s.challenges[other].secret == Some(secret) &&
         s.challenges[other].status == Pending)
  }

  /** The report carries the secret of the user's one pending challenge, in time, and it can be committed. */
  ghost predicate AskedBy(s: Own, user: UserId, node: NodeId, payload: Json, now: Time) {
    (Mapping(user, node) in s.mappings || (user in s.users && node in s.nodes)) &&
    exists secret, rid ::
      Carries(payload, node, secret) && SolePending(s, rid, user, node, secret) && now <= s.challenges[rid].expires
  }

  /** The user that a report names takes no part in it. */
  lemma ReportedUserIgnored(s: Own, node: NodeId, fields: map<string, Json>, named: Json, now: Time)
    ensures DeviceReport(s, node, Obj(fields["user_id" := named]), now) == DeviceReport(s, node, Obj(fields), now)
  {
    assert ReportedSecret(node, Obj(fields["user_id" := named])) == ReportedSecret(node, Obj(fields));
  }

  lemma SoleIff(s: Own, rid: string, user: UserId, node: NodeId, secret: string)
    ensures SolePending(s, rid, user, node, secret) <==>
      SoleAnswer(s.challenges, node, secret, rid) && s.challenges[rid].user == user
  {
  }

  lemma ReportConfirms(s: Own, node: NodeId, payload: Json, now: Time, user: UserId)
    ensures Confirms(s, DeviceReport(s, node, payload, now), user, node) <==>
      ReportedSecret(node, payload).Some? && (Owns(s, user, node) || (user in s.users && node in s.nodes)) &&
      exists rid :: SoleAnswer(s.challenges, node, ReportedSecret(node, payload).value, rid) &&
        s.challenges[rid].user == user && now <= s.challenges[rid].expires
  {
    var (s', secret) := (DeviceReport(s, node, payload, now), ReportedSecret(node, payload));
    if secret.Some? {
      if rid :| SoleAnswer(s.challenges, node, secret.value, rid) {
        assert s' != s ==> s'.challenges == s.challenges[rid := s'.challenges[rid]];
      }
    }
  }

  lemma AskedByIff(s: Own, user: UserId, node: NodeId, payload: Json, now: Time)
    ensures AskedBy(s, user, node, payload, now) <==>
      ReportedSecret(node, payload).Some? && (Owns(s, user, node) || (user in s.users && node in s.nodes)) &&
      exists rid :: SoleAnswer(s.challenges, node, ReportedSecret(node, payload).value, rid) &&
        s.challenges[rid].user == user && now <= s.challenges[rid].expires
  {
    forall secret ensures ReportedSecret(node, payload) == Some(secret) <==> Carries(payload, node, secret) {
      ReportedIff(node, payload, secret);
    }
    forall secret, rid
      ensures SolePending(s, rid, user, node, secret) <==>
        SoleAnswer(s.challenges, node, secret, rid) && s.challenges[rid].user == user
    {
      SoleIff(s, rid, user, node, secret);
    }
  }

  lemma ReportMaps(s: Own, node: NodeId, payload: Json, now: Time, user: UserId, n: NodeId)
    ensures
      var s' := DeviceReport(s, node, payload, now);
      Owns(s', user, n) <==> Owns(s, user, n) || (n == node && Confirms(s, s', user, node))
  {
    var (s', secret) := (DeviceReport(s, node, payload, now), ReportedSecret(node, payload));
    if s' != s {
      var rid :| SoleAnswer(s.challenges, node, secret.value, rid);
      assert s'.challenges == s.challenges[rid := s'.challenges[rid]];
    }
  }

  /** So whoever it names, a report confirms a user exactly if it carries the secret of that user's one
      pending challenge, and maps nobody else. */
  lemma ReportMapsAsker(s: Own, node: NodeId, payload: Json, now: Time, user: UserId, n: NodeId)
    ensures
      var s' := DeviceReport(s, node, payload, now);
      (Confirms(s, s', user, node) <==> AskedBy(s, user, node, payload, now)) &&
      (Owns(s', user, n) <==> Owns(s, user, n) || (n == node && Confirms(s, s', user, node)))
  {
    ReportConfirms(s, node, payload, now, user);
    AskedByIff(s, user, node, payload, now);
    ReportMaps(s, node, payload, now, user, n);
  }

  /** For one, a report that names one user maps another, who asked with the secret. */
  lemma NamesOneMapsAnother(asker: UserId, named: UserId, users: map<UserId, User>, show: UserId -> string)
    requires asker != named && asker in users
    ensures
      var s := Own(
        users, {"n1"}, map["rid" := Challenge(asker, "n1", Some("key"), None, Pending, HOUR, None)], [], map[], []);
      var s' := DeviceReport(s, "n1", Obj(map["secret_key" := Str("key"), "user_id" := Str(show(named))]), 0);
      Owns(s', asker, "n1") && !Owns(s', named, "n1")
  {
    var s := Own(
      users, {"n1"}, map["rid" := Challenge(asker, "n1", Some("key"), None, Pending, HOUR, None)], [], map[], []);
    var payload := Obj(map["secret_key" := Str("key"), "user_id" := Str(show(named))]);
    assert ReportedSecret("n1", payload) == Some("key") && SoleAnswer(s.challenges, "n1", "key", "rid");
    ReportMapsAsker(s, "n1", payload, 0, asker, "n1");
    ReportMapsAsker(s, "n1", payload, 0, named, "n1");
  }

  // ---------- The three flows, end to end ----------

  /** A mapping requested with a secret is completed by the device's report of that secret within the
      hour, and expires otherwise. */
  lemma LegacyFlow(s: Own, user: UserId, rid: string, node: NodeId, secret: string, now: Time, later: Time)
    requires user in s.users && node in s.nodes && rid !in s.challenges && secret != ""
    requires forall other :: other in s.challenges ==> !Answers(s.challenges[other], node, secret)
    ensures
      var asked := RequestMapping(s, user, rid, node, secret, now).0;
      var s' := DeviceReport(asked, node, Obj(map["node_id" := Str(node), "secret_key" := Str(secret)]), later);
      rid in s'.challenges &&
      s'.challenges[rid].status == (if later <= now + 3600 * SECOND then Completed else Expired) &&
      (Owns(s', user, node) <==> Owns(s, user, node) || later <= now + 3600 * SECOND)
  {
    var asked := RequestMapping(s, user, rid, node, secret, now).0;
    assert SoleAnswer(asked.challenges, node, secret, rid);
  }

  /** A challenge is completed by its own text within ten minutes, and by nothing else. */
  lemma ChallengeFlow(
    s: Own, user: UserId, rid: string, text: string, response: string, node: NodeId, now: Time, later: Time)
    requires user in s.users && node in s.nodes && rid !in s.challenges
    ensures
      var asked := InitiateChallenge(s, user, rid, text, node, now).0;
      var (s', r) := VerifyChallenge(asked, user, rid, response, later);
      (r.Ok? <==> response == text && later <= now + 600 * SECOND) &&
      (r.Ok? ==> Owns(s', user, node) && s'.challenges[rid].completedAt == Some(later)) &&
      (r.Err? ==> s' == asked)
  {
  }

  /** An invitation for several nodes gives the invitee each node answered for within seven days. */
  lemma SharingFlow(
    s: Own, owner: UserId, ids: seq<Uuid>, nodes: seq<NodeId>, user: UserId, now: Time, later: Time, k: nat)
    requires user in s.users && Invite(s, owner, ids, nodes, s.users[user].name, now).1.Ok? && k < |ids|
    ensures |ids| == |nodes|
    ensures
      var invited := Invite(s, owner, ids, nodes, s.users[user].name, now).0;
      var (s', r) := Answer(invited, user, s.users[user].name, ids[k], true, later);
      (r.Ok? <==> later <= now + 7 * 86400 * SECOND) &&
      (forall n :: SharedTo(s', user, n) <==> SharedTo(s, user, n) || (r.Ok? && n == nodes[k])) &&
      (forall v, n :: v != user ==> (HasAccess(s', v, n) <==> HasAccess(s, v, n)))
  {
    var invited := Invite(s, owner, ids, nodes, s.users[user].name, now).0;
    var added := Invitations(owner, ids, nodes, s.users[user].name, now);
    assert ids[k] in added;
    assert invited.requests[ids[k]] == Request(nodes[k], owner, s.users[user].name, Waiting, now + 7 * DAY);
    var s' := Answer(invited, user, s.users[user].name, ids[k], true, later).0;
    if s'.shares != s.shares {
      assert s'.shares[|s.shares|] in s'.shares;
      assert forall sh :: sh in s.shares ==> sh in s'.shares;
    }
  }

  // ---------- The flows as runs ----------

  predicate Confirmed(s: Own, user: UserId) {
    user in s.users && s.users[user].confirmed
  }

  /** From nothing, any accounts with names of their own, and any node, can be there. */
  lemma RunsCanStart(users: map<UserId, User>, node: NodeId)
    requires NamesUnique(users)
    ensures Run(EMPTY, [Accounts(users), NodeAppears(node)]) == EMPTY.(users := users, nodes := {node})
  {
    var es := [Accounts(users), NodeAppears(node)];
    assert es[..1] == [Accounts(users)] && [Accounts(users)][..0] == [];
    assert Run(EMPTY, [Accounts(users)]) == Step(EMPTY, Accounts(users));
    assert EMPTY.nodes + {node} == {node};
  }

  /** From any state, two events map a confirmed user to a node over either path. */
  lemma RunsCanMap(s: Own, user: UserId, rid: string, node: NodeId, text: string, now: Time)
    requires Confirmed(s, user) && node in s.nodes && rid !in s.challenges && text != ""
    requires forall other :: other in s.challenges ==> !Answers(s.challenges[other], node, text)
    ensures
      var report := Obj(map["node_id" := Str(node), "secret_key" := Str(text)]);
      var asked := Step(s, UserCalls(user, MappingRequest(rid, node, text, now)));
      Owns(Step(asked, DeviceReports(node, report, now)), user, node)
    ensures
      var asked := Step(s, UserCalls(user, Initiate(rid, text, node, now)));
      Owns(Step(asked, UserCalls(user, Verify(rid, text, now))), user, node)
  {
    LegacyFlow(s, user, rid, node, text, now, now);
    ChallengeFlow(s, user, rid, text, text, node, now, now);
  }

  lemma InviteOne(s: Own, owner: UserId, id: Uuid, node: NodeId, name: string, now: Time)
    requires Confirmed(s, owner) && Owns(s, owner, node) && id !in s.requests && name != ""
    ensures
      var invited := Step(s, UserCalls(owner, Inviting([id], [node], name, now)));
      invited == s.(requests := invited.requests) && id in invited.requests &&
      invited.requests[id] == Request(node, owner, name, Waiting, now + 7 * DAY)
  {
    InviteExact(s, owner, [id], [node], name, now);
    assert id in [id] && [id][0] == id && [node][0] == node;
  }

  lemma AnswerOne(s: Own, user: UserId, id: Uuid, accept: bool, now: Time)
    requires Confirmed(s, user) && id in s.requests && s.requests[id].status == Waiting
    requires s.requests[id].toName == s.users[user].name && now <= s.requests[id].expires
    requires !SharedTo(s, user, s.requests[id].node)
    ensures
      var answered := Step(s, UserCalls(user, Answering(id, accept, now)));
      answered.users == s.users && (SharedTo(answered, user, s.requests[id].node) <==> accept) &&
      forall sh :: sh in answered.shares && sh.node == s.requests[id].node && sh.to == user ==>
        sh.from == s.requests[id].from
  {
    var answered := Step(s, UserCalls(user, Answering(id, accept, now)));
    assert answered == Answer(s, user, s.users[user].name, id, accept, now).0;
    AnswerExact(s, user, s.users[user].name, id, accept, now);
  }

  lemma RevokeOne(s: Own, owner: UserId, user: UserId, node: NodeId)
    requires Confirmed(s, owner) && user in s.users
    requires forall sh :: sh in s.shares && sh.node == node && sh.to == user ==> sh.from == owner
    ensures !SharedTo(Step(s, UserCalls(owner, Revoking([node], s.users[user].name))), user, node)
  {
    assert node in [node];
  }

  /** From any state, an owner's invitation and its acceptance share the node; a revoke ends that, and a
      decline gives nothing. */
  lemma RunsCanShare(s: Own, owner: UserId, user: UserId, id: Uuid, node: NodeId, now: Time)
    requires Confirmed(s, owner) && Confirmed(s, user) && s.users[user].name != ""
    requires Owns(s, owner, node) && id !in s.requests && !SharedTo(s, user, node)
    ensures
      var invited := Step(s, UserCalls(owner, Inviting([id], [node], s.users[user].name, now)));
      var shared := Step(invited, UserCalls(user, Answering(id, true, now)));
      SharedTo(shared, user, node) &&
      !SharedTo(Step(invited, UserCalls(user, Answering(id, false, now))), user, node) &&
      !SharedTo(Step(shared, UserCalls(owner, Revoking([node], s.users[user].name))), user, node)
  {
    InviteOne(s, owner, id, node, s.users[user].name, now);
    var invited := Step(s, UserCalls(owner, Inviting([id], [node], s.users[user].name, now)));
    AnswerOne(invited, user, id, true, now);
    AnswerOne(invited, user, id, false, now);
    RevokeOne(Step(invited, UserCalls(user, Answering(id, true, now))), owner, user, node);
  }

  /** From any state, unmapping ends the caller's ownership, and deleting the account all of its access. */
  lemma RunsCanEnd(s: Own, user: UserId, node: NodeId)
    requires Confirmed(s, user)
    ensures !Owns(Step(s, UserCalls(user, Unmapping(node))), user, node)
    ensures
      var s' := Step(s, UserCalls(user, DeletingSelf));
      user !in s'.users && !HasAccess(s', user, node)
  {
    UnmapSucceedsIff(s, user, node);
    DeleteUserExact(s, user, user, node);
  }

  // ---------- The service calls ----------

  function View(db: Database): Own
    reads db
  {
    Own(db.users, db.nodes, db.challenges, db.mappings, db.requests, db.shares)
  }

  method RequestLegacyMapping(db: Database, user: UserId, rid: string, node: NodeId, secret: string, now: Time)
    returns (r: Result<()>)
    modifies db`challenges
    ensures (View(db), r) == RequestMapping(old(View(db)), user, rid, node, secret, now)
  {
    if user !in db.users || rid in db.challenges { return Err(Crash); }
    db.challenges := db.challenges[rid := Challenge(user, node, Some(secret), None, Pending, now + HOUR, None)];
    return Ok(());
  }

  method StartChallenge(db: Database, user: UserId, rid: string, challenge: string, node: NodeId, now: Time)
    returns (r: Result<()>)
    modifies db`challenges
    ensures (View(db), r) == InitiateChallenge(old(View(db)), user, rid, challenge, node, now)
  {
    if user !in db.users || rid in db.challenges { return Err(Crash); }
    var row := Challenge(user, node, None, Some(challenge), Pending, now + 10 * MINUTE, None);
    db.challenges := db.challenges[rid := row];
    return Ok(());
  }

  /** The common tail of both completion paths. */
  method Finish(db: Database, rid: string, now: Time) returns (done: bool)
    requires rid in db.challenges
    modifies db`challenges, db`mappings
    ensures done == Complete(old(View(db)), rid, now).Some?
    ensures View(db) == if done then Complete(old(View(db)), rid, now).value else old(View(db))
  {
    var row := db.challenges[rid];
    var mapping := Mapping(row.user, row.node);
    var added: seq<Mapping> := [];
    if mapping !in db.mappings {
      added := [mapping];
    }
    row := row.(status := Completed, completedAt := Some(now));
    // Commit.
    if added != [] && (row.user !in db.users || row.node !in db.nodes) { return false; }
    db.mappings := db.mappings + added;
    db.challenges := db.challenges[rid := row];
    return true;
  }

  method VerifyMapping(db: Database, user: UserId, rid: string, response: string, now: Time) returns (r: Result<()>)
    modifies db`challenges, db`mappings
    ensures (View(db), r) == VerifyChallenge(old(View(db)), user, rid, response, now)
  {
    if rid !in db.challenges { return Err(Invalid); }
    var row := db.challenges[rid];
    if row.user != user || row.status != Pending { return Err(Invalid); }
    if row.expires < now { return Err(Invalid); }
    if row.challenge.None? { return Err(Invalid); }
    if row.challenge.value != response { return Err(Invalid); }
    var done := Finish(db, rid, now);
    return if done then Ok(()) else Err(Crash);
  }

  /** `SELECT ... FROM mapping_challenges` for a reported secret. */
  method PendingFor(db: Database, node: NodeId, secret: string) returns (rids: seq<string>)
    ensures NoDup(rids)
    ensures forall rid :: rid in rids <==> rid in db.challenges && Answers(db.challenges[rid], node, secret)
  {
    rids := [];
    var left := db.challenges.Keys;
    while left != {}
      invariant left <= db.challenges.Keys && NoDup(rids)
      invariant forall rid :: rid in rids <==>
        rid in db.challenges && rid !in left && Answers(db.challenges[rid], node, secret)
      decreases left
    {
      var rid :| rid in left;
      if Answers(db.challenges[rid], node, secret) {
        rids := rids + [rid];
      }
      left := left - {rid};
    }
  }

  lemma NotSole(challenges: map<string, Challenge>, node: NodeId, secret: string, rids: seq<string>)
    requires |rids| != 1 && NoDup(rids)
    requires forall rid :: rid in rids <==> rid in challenges && Answers(challenges[rid], node, secret)
    ensures !exists rid :: SoleAnswer(challenges, node, secret, rid)
  {
    if |rids| > 1 {
      assert rids[0] in rids && rids[1] in rids;
    }
  }

  method HandleUserMapping(db: Database, node: NodeId, payload: Json, now: Time)
    modifies db`challenges, db`mappings
    ensures View(db) == DeviceReport(old(View(db)), node, payload, now)
  {
    if !payload.Obj? { return; }
    var secret := GetOr(payload.fields, "secret_key", Null);
    if !Truthy(secret) { return; }
    var claimed := GetOr(payload.fields, "node_id", Null);
    if Truthy(claimed) && claimed != Str(node) { return; }
    if !secret.Str? { return; }
    var rids := PendingFor(db, node, secret.s);
    if |rids| != 1 {
      NotSole(db.challenges, node, secret.s, rids);
      return;
    }
    var rid := rids[0];
    assert rid in rids && SoleAnswer(db.challenges, node, secret.s, rid);
    if db.challenges[rid].expires < now {
      db.challenges := db.challenges[rid := db.challenges[rid].(status := Expired)];
      return;
    }
    var _ := Finish(db, rid, now);
  }

  method CreateRequest(db: Database, user: UserId, ids: seq<Uuid>, nodes: seq<NodeId>, toName: string, now: Time)
    returns (r: Result<()>)
    modifies db`requests
    ensures (View(db), r) == Invite(old(View(db)), user, ids, nodes, toName, now)
  {
    if nodes == [] || toName == "" { return Err(Invalid); }
    for i := 0 to |nodes|
      invariant forall j :: 0 <= j < i ==> Mapping(user, nodes[j]) in db.mappings
    {
      if Mapping(user, nodes[i]) !in db.mappings { return Err(Forbidden); }
    }
    assert forall n :: n in nodes ==> Mapping(user, n) in db.mappings;
    if |ids| != |nodes| || !NoDup(ids) || exists id :: id in ids && id in db.requests { return Err(Crash); }
    var added := NewRequests(user, ids, nodes, toName, now);
    db.requests := db.requests + added;
    return Ok(());
  }

  method NewRequests(
    user: UserId, ids: seq<Uuid>, nodes: seq<NodeId>, toName: string, now: Time) returns (added: map<Uuid, Request>)
    requires |ids| == |nodes| && NoDup(ids)
    ensures added == Invitations(user, ids, nodes, toName, now)
  {
    added := map[];
    for i := 0 to |nodes|
      invariant forall j :: 0 <= j < i ==>
        ids[j] in added && added[ids[j]] == Request(nodes[j], user, toName, Waiting, now + 7 * DAY)
      invariant forall id :: id in added ==> exists j :: 0 <= j < i && ids[j] == id
    {
      added := added[ids[i] := Request(nodes[i], user, toName, Waiting, now + 7 * DAY)];
    }
    var spec := Invitations(user, ids, nodes, toName, now);
    assert forall id :: id in spec <==> id in ids;
    assert forall id :: id in added <==> id in ids;
    forall id | id in added ensures added[id] == spec[id] {
      var j :| 0 <= j < |ids| && ids[j] == id;
    }
  }

  method AcceptOrDecline(
    db: Database, user: UserId, name: string, id: Uuid, accept: bool, now: Time) returns (r: Result<()>)
    modifies db`requests, db`shares
    ensures (View(db), r) == Answer(old(View(db)), user, name, id, accept, now)
  {
    if id !in db.requests { return Err(NotFound); }
    var row := db.requests[id];
    if row.toName != name { return Err(Forbidden); }
    if row.status != Waiting { return Err(Invalid); }
    if row.expires < now {
      db.requests := db.requests[id := row.(status := Lapsed)];
      return Err(Invalid);
    }
    if accept {
      var existing := exists sh :: sh in db.shares && sh.node == row.node && sh.to == user;
      if !existing {
        db.shares := db.shares + [Share(row.node, row.from, user)];
      }
      row := row.(status := Accepted);
    } else {
      row := row.(status := Declined);
    }
    db.requests := db.requests[id := row];
    return Ok(());
  }

  /** The user with the given name, if any. */
  method UserNamed(db: Database, name: string) returns (id: Option<UserId>)
    ensures id.None? <==> forall u :: u in db.users ==> db.users[u].name != name
    ensures id.Some? ==> id.value in db.users && db.users[id.value].name == name
  {
    var left := db.users.Keys;
    while left != {}
      invariant left <= db.users.Keys
      invariant forall u :: u in db.users && u !in left ==> db.users[u].name != name
      decreases left
    {
      var u :| u in left;
      if db.users[u].name == name { return Some(u); }
      left := left - {u};
    }
    return None;
  }

  method RevokeShare(db: Database, owner: UserId, nodes: seq<NodeId>, invitee: string)
    requires NamesUnique(db.users)
    modifies db`shares
    ensures View(db) == Revoke(old(View(db)), owner, nodes, invitee)
  {
    var users := db.users;
    var user := UserNamed(db, invitee);
    if user.None? {
      FilterAll(db.shares, (sh: Share) => !Revoked(users, owner, nodes, invitee, sh));
      return;
    }
    var doomed: seq<Share> := [];
    for i := 0 to |nodes|
      invariant forall sh :: sh in doomed <==>
        sh.node in nodes[..i] && sh.from == owner && sh.to == user.value && sh in db.shares
    {
      var share := Share(nodes[i], owner, user.value);
      if share in db.shares {
        doomed := doomed + [share];
      }
    }
    assert nodes[..|nodes|] == nodes;
    FilterSame(db.shares, (sh: Share) => sh !in doomed, (sh: Share) => !Revoked(users, owner, nodes, invitee, sh));
    db.shares := Filter(db.shares, (sh: Share) => sh !in doomed);
  }

  method DeleteUserNode(db: Database, user: UserId, node: NodeId) returns (r: Result<()>)
    modifies db`mappings
    ensures (View(db), r) == Unmap(old(View(db)), user, node)
  {
    if Mapping(user, node) !in db.mappings { return Err(NotFound); }
    db.mappings := Filter(db.mappings, (m: Mapping) => m != Mapping(user, node));
    return Ok(());
  }
}
