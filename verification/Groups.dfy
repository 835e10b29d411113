/** Node groups: a forest of parent pointers with a cascading delete (app/services/groups.py and the
    foreign keys of app/models/sharing.py). */
module Groups {
  import opened Prelude
  import opened Store

  type Forest = map<Uuid, Group>

  datatype State = State(users: set<UserId>, nodes: set<NodeId>, groups: Forest, members: set<Member>)

  // ---------- Creating and deleting ----------

  function MembersOf(id: Uuid, nodes: seq<NodeId>): set<Member> {
    set n | n in nodes :: Member(id, n)
  }

  /** `create_group`: the group and its members are committed together, or not at all. */
  function CreateGroup(
    s: State, owner: UserId, id: Uuid, name: string, parent: Option<Uuid>, nodes: seq<NodeId>): (State, Result<()>)
  {
    if name == "" then (s, Err(Invalid))
    else if parent.Some? && (parent.value !in s.groups || s.groups[parent.value].owner != owner) then (s, Err(Invalid))
    else if owner !in s.users || id in s.groups || !NoDup(nodes) || exists n :: n in nodes && n !in s.nodes then
      (s, Err(Crash))
    else (s.(groups := s.groups[id := Group(owner, parent, name)], members := s.members + MembersOf(id, nodes)), Ok(()))
  }

  /** One round of `ON DELETE CASCADE`: the groups whose parent is going. */
  function Children(gs: Forest, doomed: set<Uuid>): set<Uuid> {
    set g | g in gs && gs[g].parent.Some? && gs[g].parent.value in doomed
  }

  /** All rounds. */
  function Cascade(gs: Forest, doomed: set<Uuid>): set<Uuid>
    requires doomed <= gs.Keys
    decreases |gs.Keys - doomed|
  {
    var more := doomed + Children(gs, doomed);
    if more == doomed then doomed
    else
      Fewer(gs.Keys - more, gs.Keys - doomed);
      Cascade(gs, more)
  }

  lemma Fewer(a: set<Uuid>, b: set<Uuid>)
    requires a < b
    ensures |a| < |b|
  {
    assert b == a + (b - a);
    assert |b - a| > 0;
  }

  /** The groups and their memberships are gone. */
  function Without(s: State, doomed: set<Uuid>): State {
    s.(groups := s.groups - doomed, members := set m | m in s.members && m.group !in doomed)
  }

  function DeleteGroup(s: State, owner: UserId, id: Uuid): (State, Result<()>) {
    if id !in s.groups || s.groups[id].owner != owner then (s, Err(NotFound))
    else (Without(s, Cascade(s.groups, {id})), Ok(()))
  }

  function OwnedBy(gs: Forest, user: UserId): set<Uuid> {
    set g | g in gs && gs[g].owner == user
  }

  function DeleteUser(s: State, user: UserId): State {
    Without(s, Cascade(s.groups, OwnedBy(s.groups, user))).(users := s.users - {user})
  }

  // ---------- The forest ----------

  /** The `k`-th ancestor of `g`, itself for 0; none beyond the root. */
  function Ancestor(gs: Forest, g: Uuid, k: nat): Option<Uuid>
    decreases k
  {
    if g !in gs then None
    else if k == 0 then Some(g)
    else if gs[g].parent.None? then None
    else Ancestor(gs, gs[g].parent.value, k - 1)
  }

  predicate Below(gs: Forest, g: Uuid, root: Uuid, k: nat) {
    Ancestor(gs, g, k) == Some(root)
  }

  /** `root` and everything under it. */
  ghost function Descendants(gs: Forest, root: Uuid): set<Uuid> {
    set g | g in gs && exists k: nat :: Below(gs, g, root, k)
  }

  /** No group is a proper ancestor of itself. */
  ghost predicate Acyclic(gs: Forest) {
    forall g, k: nat :: g in gs && k > 0 ==> !Below(gs, g, g, k)
  }

  /** Every parent exists and has the same owner. */
  ghost predicate ParentsOk(gs: Forest) {
    forall g :: g in gs && gs[g].parent.Some? ==>
      gs[g].parent.value in gs && gs[gs[g].parent.value].owner == gs[g].owner
  }

  /** A numbering in which parents come before their children. */
  ghost predicate Numbered(gs: Forest, rank: map<Uuid, nat>) {
    rank.Keys == gs.Keys &&
    forall g :: g in gs && gs[g].parent.Some? && gs[g].parent.value in gs ==> rank[gs[g].parent.value] < rank[g]
  }

  lemma {:induction false} RankFalls(gs: Forest, rank: map<Uuid, nat>, g: Uuid, k: nat)
    requires Numbered(gs, rank) && Ancestor(gs, g, k).Some?
    ensures Ancestor(gs, g, k).value in gs && rank[Ancestor(gs, g, k).value] + k <= rank[g]
    decreases k
  {
    if k > 0 {
      RankFalls(gs, rank, gs[g].parent.value, k - 1);
    }
  }

  lemma NumberedIsAcyclic(gs: Forest, rank: map<Uuid, nat>)
    requires Numbered(gs, rank)
    ensures Acyclic(gs)
  {
    forall g, k: nat | g in gs && k > 0 ensures !Below(gs, g, g, k) {
      if Below(gs, g, g, k) {
        RankFalls(gs, rank, g, k);
      }
    }
  }

  lemma {:induction false} AncestorsShareOwner(gs: Forest, g: Uuid, k: nat)
    requires ParentsOk(gs) && Ancestor(gs, g, k).Some?
    ensures Ancestor(gs, g, k).value in gs && gs[Ancestor(gs, g, k).value].owner == gs[g].owner
    decreases k
  {
    if k > 0 {
      AncestorsShareOwner(gs, gs[g].parent.value, k - 1);
    }
  }

  ghost predicate HasRoot(gs: Forest, g: Uuid) {
    exists k: nat, root :: Below(gs, g, root, k) && root in gs && gs[root].parent.None?
  }

  /** The chain of ancestors ends at a root: acyclicity is not lost to an infinite climb. */
  lemma {:induction false} ChainEnds(gs: Forest, rank: map<Uuid, nat>, g: Uuid)
    requires Numbered(gs, rank) && ParentsOk(gs) && g in gs
    ensures HasRoot(gs, g)
    decreases rank[g]
  {
    if gs[g].parent.None? {
      assert Below(gs, g, g, 0);
    } else {
      var p := gs[g].parent.value;
      ChainEnds(gs, rank, p);
      var k: nat, root :| Below(gs, p, root, k) && root in gs && gs[root].parent.None?;
      assert Below(gs, g, root, k + 1);
    }
  }

  // ---------- The cascade is the subtree ----------

  ghost predicate UnderOne(gs: Forest, roots: set<Uuid>, g: Uuid) {
    exists root, k: nat :: root in roots && Below(gs, g, root, k)
  }

  /** The rounds of the cascade remove exactly what lies under the doomed groups. */
  lemma {:induction false} CascadeIsSubtree(gs: Forest, doomed: set<Uuid>)
    requires doomed <= gs.Keys
    ensures forall g :: g in Cascade(gs, doomed) <==> g in gs && UnderOne(gs, doomed, g)
    decreases |gs.Keys - doomed|
  {
    var more := doomed + Children(gs, doomed);
    if more == doomed {
      forall g | g in gs ensures g in doomed <==> UnderOne(gs, doomed, g) {
        if g in doomed {
          assert Below(gs, g, g, 0);
        } else if root, k: nat :| root in doomed && Below(gs, g, root, k) {
          ClosedUpward(gs, doomed, g, root, k);
        }
      }
    } else {
      Fewer(gs.Keys - more, gs.Keys - doomed);
      CascadeIsSubtree(gs, more);
      forall g | g in gs ensures UnderOne(gs, more, g) <==> UnderOne(gs, doomed, g) {
        if root, k: nat :| root in more && root !in doomed && Below(gs, g, root, k) {
          ClimbOn(gs, g, root, k);
          assert Below(gs, g, gs[root].parent.value, k + 1);
        }
      }
    }
  }

  /** Nothing outside a set that holds all its children lies under it. */
  lemma {:induction false} ClosedUpward(gs: Forest, doomed: set<Uuid>, g: Uuid, root: Uuid, k: nat)
    requires doomed + Children(gs, doomed) == doomed && root in doomed && Below(gs, g, root, k)
    ensures g in doomed
    decreases k
  {
    if k > 0 {
      ClosedUpward(gs, doomed, gs[g].parent.value, root, k - 1);
      assert g in Children(gs, doomed);
    }
  }

  lemma {:induction false} ClimbOn(gs: Forest, g: Uuid, root: Uuid, k: nat)
    requires Below(gs, g, root, k) && root in gs && gs[root].parent.Some? && gs[root].parent.value in gs
    ensures Below(gs, g, gs[root].parent.value, k + 1)
    decreases k
  {
    if k > 0 {
      ClimbOn(gs, gs[g].parent.value, root, k - 1);
    } else {
      assert Ancestor(gs, gs[g].parent.value, 0) == Some(gs[root].parent.value);
    }
  }

  // ---------- Runs ----------

  datatype Event =
    | UserAppears(user: UserId)
    | NodeAppears(node: NodeId)
    | Create(owner: UserId, id: Uuid, name: string, parent: Option<Uuid>, nodes: seq<NodeId>)
    | Delete(owner: UserId, id: Uuid)
    | DeleteAccount(user: UserId)

  function Step(s: State, e: Event): State {
    match e
    case UserAppears(user) => s.(users := s.users + {user})
    case NodeAppears(node) => s.(nodes := s.nodes + {node})
    case Create(owner, id, name, parent, nodes) => CreateGroup(s, owner, id, name, parent, nodes).0
    case Delete(owner, id) => DeleteGroup(s, owner, id).0
    case DeleteAccount(user) => DeleteUser(s, user)
  }

  function Run(s: State, es: seq<Event>): State {
    if es == [] then s else Step(Run(s, es[..|es| - 1]), es[|es| - 1])
  }

  const EMPTY := State({}, {}, map[], {})

  ghost predicate Inv(s: State) {
    && ParentsOk(s.groups)
    && (exists rank :: Numbered(s.groups, rank))
    && (forall g :: g in s.groups ==> s.groups[g].owner in s.users)
    && (forall m :: m in s.members ==> m.group in s.groups && m.node in s.nodes)
  }

  /** A set that takes its children along. */
  ghost predicate DownClosed(gs: Forest, doomed: set<Uuid>) {
    doomed <= gs.Keys && Children(gs, doomed) <= doomed
  }

  lemma WithoutKeepsInv(s: State, doomed: set<Uuid>)
    requires Inv(s) && DownClosed(s.groups, doomed)
    ensures Inv(Without(s, doomed))
  {
    var rank :| Numbered(s.groups, rank);
    var s' := Without(s, doomed);
    forall g | g in s'.groups && s'.groups[g].parent.Some? ensures s'.groups[g].parent.value in s'.groups {
      assert g !in Children(s.groups, doomed);
    }
    assert Numbered(s'.groups, rank - doomed);
  }

  lemma {:induction false} CascadeIsClosed(gs: Forest, doomed: set<Uuid>)
    requires doomed <= gs.Keys
    ensures doomed <= Cascade(gs, doomed) && DownClosed(gs, Cascade(gs, doomed))
    decreases |gs.Keys - doomed|
  {
    var more := doomed + Children(gs, doomed);
    if more != doomed {
      Fewer(gs.Keys - more, gs.Keys - doomed);
      CascadeIsClosed(gs, more);
    }
  }

  lemma CreateKeepsInv(s: State, owner: UserId, id: Uuid, name: string, parent: Option<Uuid>, nodes: seq<NodeId>)
    requires Inv(s)
    ensures Inv(CreateGroup(s, owner, id, name, parent, nodes).0)
  {
    var (s', r) := CreateGroup(s, owner, id, name, parent, nodes);
    if r.Ok? {
      var rank :| Numbered(s.groups, rank);
      var at := if parent.Some? then rank[parent.value] + 1 else 0;
      assert Numbered(s'.groups, rank[id := at]);
    }
  }

  lemma StepKeepsInv(s: State, e: Event)
    requires Inv(s)
    ensures Inv(Step(s, e))
  {
    match e
    case UserAppears(_) =>
    case NodeAppears(_) =>
    case Create(owner, id, name, parent, nodes) => CreateKeepsInv(s, owner, id, name, parent, nodes);
    case Delete(owner, id) =>
      if id in s.groups {
        CascadeIsClosed(s.groups, {id});
        WithoutKeepsInv(s, Cascade(s.groups, {id}));
      }
    case DeleteAccount(user) =>
      CascadeIsClosed(s.groups, OwnedBy(s.groups, user));
      WithoutKeepsInv(s, Cascade(s.groups, OwnedBy(s.groups, user)));
  }

  lemma {:induction false} RunKeepsInv(s: State, events: seq<Event>)
    requires Inv(s)
    ensures Inv(Run(s, events))
  {
    if events != [] {
      var (front, last) := (events[..|events| - 1], events[|events| - 1]);
      RunKeepsInv(s, front);
      StepKeepsInv(Run(s, front), last);
    }
  }

  ghost predicate OwnersAgree(gs: Forest) {
    forall g, root, k: nat :: g in gs && Below(gs, g, root, k) ==> root in gs && gs[root].owner == gs[g].owner
  }

  lemma ParentsGiveOwners(gs: Forest)
    requires ParentsOk(gs)
    ensures OwnersAgree(gs)
  {
    forall g, root, k: nat | g in gs && Below(gs, g, root, k) ensures root in gs && gs[root].owner == gs[g].owner {
      AncestorsShareOwner(gs, g, k);
    }
  }

  /** The forest: in every reachable state no group is its own ancestor, no parent dangles, every climb
      ends at a root, and all ancestors of a group have its owner. */
  lemma ForestForever(es: seq<Event>)
    ensures
      var gs := Run(EMPTY, es).groups;
      Acyclic(gs) && ParentsOk(gs) && OwnersAgree(gs) && forall g :: g in gs ==> HasRoot(gs, g)
  {
    var s := Run(EMPTY, es);
    assert Numbered(EMPTY.groups, map[]);
    RunKeepsInv(EMPTY, es);
    var rank :| Numbered(s.groups, rank);
    NumberedIsAcyclic(s.groups, rank);
    ParentsGiveOwners(s.groups);
    forall g | g in s.groups ensures HasRoot(s.groups, g) {
      ChainEnds(s.groups, rank, g);
    }
  }

  /** A deletion succeeds exactly for the caller's own group, and is otherwise without effect; it removes
      exactly the group's descendants and their memberships, all of them the caller's own. */
  lemma DeleteExact(s: State, owner: UserId, id: Uuid)
    requires Inv(s)
    ensures
      var (s', r) := DeleteGroup(s, owner, id);
      (r.Ok? <==> id in s.groups && s.groups[id].owner == owner) && (r.Err? ==> (s', r) == (s, Err(NotFound))) &&
      (r.Ok? ==>
         s'.users == s.users && s'.nodes == s.nodes &&
         s'.groups == s.groups - Descendants(s.groups, id) &&
         (forall m :: m in s'.members <==> m in s.members && m.group !in Descendants(s.groups, id)) &&
         (forall g :: g in Descendants(s.groups, id) ==> s.groups[g].owner == owner))
  {
    var gs := s.groups;
    if id in gs && gs[id].owner == owner {
      CascadeIsSubtree(gs, {id});
      forall g | g in gs ensures UnderOne(gs, {id}, g) <==> g in Descendants(gs, id) {
        if k: nat :| Below(gs, g, id, k) {
          assert id in {id};
        }
      }
      assert Cascade(gs, {id}) == Descendants(gs, id);
      forall g | g in Descendants(gs, id) ensures gs[g].owner == owner {
        var k: nat :| Below(gs, g, id, k);
        AncestorsShareOwner(gs, g, k);
      }
    }
  }

  lemma OwnGroupsAreClosed(s: State, user: UserId)
    requires Inv(s)
    ensures Cascade(s.groups, OwnedBy(s.groups, user)) == OwnedBy(s.groups, user)
  {
  }

  /** Deleting a user takes exactly that user's groups and their memberships, cascade and all. */
  lemma DeleteUserExact(s: State, user: UserId)
    requires Inv(s)
    ensures
      var s' := DeleteUser(s, user);
      s'.users == s.users - {user} && s'.nodes == s.nodes &&
      (forall g :: g in s'.groups <==> g in s.groups && s.groups[g].owner != user) &&
      (forall g :: g in s'.groups ==> s'.groups[g] == s.groups[g]) &&
      (forall m :: m in s'.members <==> m in s.members && s.groups[m.group].owner != user)
  {
    OwnGroupsAreClosed(s, user);
    assert forall m :: m in s.members ==> m.group in s.groups;
  }

  /** A creation succeeds exactly for a name, a parent of the caller's own if any, and distinct known nodes
      (given an existing caller and a new id); it then adds one group, with exactly its nodes. A refused one,
      in particular one that repeats a node or names an unknown one, changes nothing. */
  lemma CreateExact(s: State, owner: UserId, id: Uuid, name: string, parent: Option<Uuid>, nodes: seq<NodeId>)
    requires Inv(s)
    ensures
      var (s', r) := CreateGroup(s, owner, id, name, parent, nodes);
      (r.Ok? <==>
         name != "" && owner in s.users && id !in s.groups && NoDup(nodes) &&
         (parent.Some? ==> parent.value in s.groups && s.groups[parent.value].owner == owner) &&
         forall n :: n in nodes ==> n in s.nodes) &&
      (r == Err(Invalid) <==>
         name == "" || (parent.Some? && !(parent.value in s.groups && s.groups[parent.value].owner == owner))) &&
      (r.Err? ==> s' == s && r.error in {Invalid, Crash}) &&
      (r.Ok? ==>
         s'.users == s.users && s'.nodes == s.nodes &&
         s'.groups - {id} == s.groups && id in s'.groups && s'.groups[id] == Group(owner, parent, name) &&
         (forall n :: Member(id, n) in s'.members <==> n in nodes) &&
         (forall m: Member :: m.group != id ==> (m in s'.members <==> m in s.members)))
  {
  }

  lemma RunSnoc(s: State, es: seq<Event>, e: Event)
    ensures Run(s, es + [e]) == Step(Run(s, es), e)
  {
  }

  lemma Nested(user: UserId, outer: Uuid, inner: Uuid, name: string)
    requires outer != inner && name != ""
    ensures
      var s := EMPTY.(users := {user});
      var s' := Step(Step(s, Create(user, outer, name, None, [])), Create(user, inner, name, Some(outer), []));
      s' == s.(groups := map[outer := Group(user, None, name), inner := Group(user, Some(outer), name)])
  {
    assert MembersOf(outer, []) == {} && MembersOf(inner, []) == {};
  }

  lemma NestIsOne(s: State, user: UserId, outer: Uuid, inner: Uuid, name: string)
    requires Inv(s) && outer != inner
    requires s.groups == map[outer := Group(user, None, name), inner := Group(user, Some(outer), name)]
    ensures Step(s, Delete(user, outer)).groups == map[]
    ensures Step(s, DeleteAccount(user)).groups == map[]
  {
    DeleteExact(s, user, outer);
    assert Ancestor(s.groups, outer, 0) == Some(outer);
    assert Below(s.groups, outer, outer, 0) && Below(s.groups, inner, outer, 1);
    DeleteUserExact(s, user);
  }

  /** From nothing, a user can nest one group in another, and deleting the outer one, or the user, ends both. */
  lemma RunsCanNest(user: UserId, outer: Uuid, inner: Uuid, name: string)
    requires outer != inner && name != ""
    ensures
      var es := [UserAppears(user), Create(user, outer, name, None, []), Create(user, inner, name, Some(outer), [])];
      var s := Run(EMPTY, es);
      outer in s.groups && inner in s.groups && s.groups[inner].parent == Some(outer) &&
      Step(s, Delete(user, outer)).groups == map[] && Step(s, DeleteAccount(user)).groups == map[]
  {
    var (e0, e1, e2) :=
      (UserAppears(user), Create(user, outer, name, None, []), Create(user, inner, name, Some(outer), []));
    assert [] + [e0] == [e0] && [e0] + [e1] == [e0, e1] && [e0, e1] + [e2] == [e0, e1, e2];
    RunSnoc(EMPTY, [], e0);
    RunSnoc(EMPTY, [e0], e1);
    RunSnoc(EMPTY, [e0, e1], e2);
    assert Numbered(EMPTY.groups, map[]) && EMPTY.users + {user} == {user};
    RunKeepsInv(EMPTY, [e0, e1, e2]);
    Nested(user, outer, inner, name);
    NestIsOne(Run(EMPTY, [e0, e1, e2]), user, outer, inner, name);
  }

  // ---------- The service calls ----------

  function View(db: Database): State
    reads db
  {
    State(db.users.Keys, db.nodes, db.groups, db.members)
  }

  method CreateNodeGroup(db: Database, owner: UserId, id: Uuid, name: string, parent: Option<Uuid>, nodes: seq<NodeId>)
    returns (r: Result<()>)
    modifies db`groups, db`members
    ensures (View(db), r) == CreateGroup(old(View(db)), owner, id, name, parent, nodes)
  {
    if name == "" { return Err(Invalid); }
    if parent.Some? {
      if parent.value !in db.groups || db.groups[parent.value].owner != owner { return Err(Invalid); }
    }
    var added: set<Member> := {};
    for i := 0 to |nodes|
      invariant added == set n | n in nodes[..i] :: Member(id, n)
    {
      added := added + {Member(id, nodes[i])};
    }
    // Commit: keys, unique (group, node), and the foreign keys to users and nodes.
    if owner !in db.users || id in db.groups || !NoDup(nodes) || exists n :: n in nodes && n !in db.nodes {
      return Err(Crash);
    }
    assert nodes[..|nodes|] == nodes;
    db.groups := db.groups[id := Group(owner, parent, name)];
    db.members := db.members + added;
    return Ok(());
  }

  /** The engine's cascade: children of deleted groups are looked for until there are none. */
  method CascadeFrom(gs: Forest, roots: set<Uuid>) returns (doomed: set<Uuid>)
    requires roots <= gs.Keys
    ensures doomed == Cascade(gs, roots)
  {
    doomed := roots;
    var more := Children(gs, doomed) - doomed;
    while more != {}
      invariant doomed <= gs.Keys && more == Children(gs, doomed) - doomed
      invariant Cascade(gs, doomed) == Cascade(gs, roots)
      decreases gs.Keys - doomed
    {
      assert doomed + Children(gs, doomed) == doomed + more;
      doomed := doomed + more;
      more := Children(gs, doomed) - doomed;
    }
    assert forall g :: g in Children(gs, doomed) && g !in doomed ==> g in more;
    assert doomed + Children(gs, doomed) == doomed;
  }

  method DeleteNodeGroup(db: Database, owner: UserId, id: Uuid) returns (r: Result<()>)
    modifies db`groups, db`members
    ensures (View(db), r) == DeleteGroup(old(View(db)), owner, id)
  {
    if id !in db.groups || db.groups[id].owner != owner { return Err(NotFound); }
    var doomed := CascadeFrom(db.groups, {id});
    db.groups := db.groups - doomed;
    db.members := set m | m in db.members && m.group !in doomed;
    return Ok(());
  }
}
