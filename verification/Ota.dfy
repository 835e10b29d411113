/** Firmware updates: images, jobs fanned out to nodes, and the queue each node drains (app/services/ota.py). */
module Ota {
  import opened Prelude
  import opened Store

  datatype State = State(
    nodes: set<NodeId>,
    images: map<Uuid, Image>,
    jobs: map<Uuid, Job>,
    rows: seq<JobNode>)

  // ---------- Administration ----------

  function CreateImage(s: State, id: Uuid, key: string, fwVersion: string): (State, Result<()>) {
    if id in s.images then (s, Err(Crash)) else (s.(images := s.images[id := Image(false, key, fwVersion)]), Ok(()))
  }

  function ConfirmImage(s: State, id: Uuid): (State, Result<()>) {
    if id !in s.images then (s, Err(Invalid)) else (s.(images := s.images[id := s.images[id].(ready := true)]), Ok(()))
  }

  /** The rows of a job: one for each node, in order. */
  function FanOut(job: Uuid, nodes: seq<NodeId>, now: Time): (rows: seq<JobNode>)
    ensures |rows| == |nodes|
    ensures forall i :: 0 <= i < |nodes| ==> rows[i] == JobNode(job, nodes[i], "pending", now)
  {
    seq(|nodes|, i requires 0 <= i < |nodes| => JobNode(job, nodes[i], "pending", now))
  }

  /** `create_job`: the job and all its rows are committed together, or not at all: an image that is not
      ready, a repeated node or an unknown one leaves nothing behind. */
  function CreateJob(s: State, id: Uuid, image: Uuid, nodes: seq<NodeId>, now: Time): (State, Result<()>) {
    if image !in s.images || !s.images[image].ready then (s, Err(Invalid))
    else if id in s.jobs || !NoDup(nodes) || exists n :: n in nodes && n !in s.nodes then (s, Err(Crash))
    else (s.(jobs := s.jobs[id := Job(image, true)], rows := s.rows + FanOut(id, nodes, now)), Ok(()))
  }

  // ---------- The queue of a node ----------

  predicate Waiting(status: string) {
    status == "pending" || status == "in-progress"
  }

  /** The row is one that `fetch_pending_for_node` may return for the node. */
  predicate Open(s: State, node: NodeId, row: JobNode) {
    row.node == node && Waiting(row.status) && row.job in s.jobs && s.jobs[row.job].active &&
    s.jobs[row.job].image in s.images
  }

  function OpenRows(s: State, node: NodeId): seq<JobNode> {
    Filter(s.rows, (row: JobNode) => Open(s, node, row))
  }

  /** A row that may be served next: an open one with none strictly older. Which of two rows of the same
      age comes first is the database's choice. */
  ghost predicate Next(s: State, node: NodeId, row: JobNode) {
    row in s.rows && Open(s, node, row) &&
    forall other :: other in s.rows && Open(s, node, other) ==> row.created <= other.created
  }

  function SetStatus(rows: seq<JobNode>, job: Uuid, node: NodeId, status: string): (r: seq<JobNode>)
    ensures |r| == |rows|
    ensures forall i :: 0 <= i < |rows| ==>
      r[i] == if rows[i].job == job && rows[i].node == node then rows[i].(status := status) else rows[i]
  {
    seq(|rows|, i requires 0 <= i < |rows| =>
      if rows[i].job == job && rows[i].node == node then rows[i].(status := status) else rows[i])
  }

  predicate HasRow(rows: seq<JobNode>, job: Uuid, node: NodeId) {
    exists row :: row in rows && row.job == job && row.node == node
  }

  /** `update_status`; the job id is none when it does not parse. */
  function UpdateStatus(s: State, node: NodeId, job: Option<Uuid>, status: string): (State, Result<()>) {
    if job.None? then (s, Err(Invalid))
    else if !HasRow(s.rows, job.value, node) then (s, Err(NotFound))
    else (s.(rows := SetStatus(s.rows, job.value, node, status)), Ok(()))
  }

  // ---------- Runs ----------

  datatype Event =
    | NodeAppears(node: NodeId)
    | ImageCreated(id: Uuid, key: string, fwVersion: string)
    | ImageConfirmed(id: Uuid)
    | JobCreated(id: Uuid, image: Uuid, nodes: seq<NodeId>, now: Time)
    | StatusReported(node: NodeId, job: Option<Uuid>, status: string)

  function Step(s: State, e: Event): State {
    match e
    case NodeAppears(node) => s.(nodes := s.nodes + {node})
    case ImageCreated(id, key, fwVersion) => CreateImage(s, id, key, fwVersion).0
    case ImageConfirmed(id) => ConfirmImage(s, id).0
    case JobCreated(id, image, nodes, now) => CreateJob(s, id, image, nodes, now).0
    case StatusReported(node, job, status) => UpdateStatus(s, node, job, status).0
  }

  function Run(s: State, es: seq<Event>): State {
    if es == [] then s else Step(Run(s, es[..|es| - 1]), es[|es| - 1])
  }

  const EMPTY := State({}, map[], map[], [])

  ghost predicate RowsUnique(rows: seq<JobNode>) {
    forall i, j :: 0 <= i < j < |rows| ==> rows[i].job != rows[j].job || rows[i].node != rows[j].node
  }

  /** Jobs stand on ready images, rows on existing jobs and nodes, one row for each job and node. */
  ghost predicate Inv(s: State) {
    && (forall id :: id in s.jobs ==>
          s.jobs[id].active && s.jobs[id].image in s.images && s.images[s.jobs[id].image].ready)
    && (forall row :: row in s.rows ==> row.job in s.jobs && row.node in s.nodes)
    && RowsUnique(s.rows)
  }

  lemma CreateJobKeepsInv(s: State, id: Uuid, image: Uuid, nodes: seq<NodeId>, now: Time)
    requires Inv(s)
    ensures Inv(CreateJob(s, id, image, nodes, now).0)
  {
  }

  lemma StatusKeepsInv(s: State, node: NodeId, job: Option<Uuid>, status: string)
    requires Inv(s)
    ensures Inv(UpdateStatus(s, node, job, status).0)
  {
  }

  lemma {:induction false} RunKeepsInv(s: State, es: seq<Event>)
    requires Inv(s)
    ensures Inv(Run(s, es))
  {
    if es != [] {
      var (before, e) := (Run(s, es[..|es| - 1]), es[|es| - 1]);
      RunKeepsInv(s, es[..|es| - 1]);
      match e {
        case JobCreated(id, image, nodes, now) => CreateJobKeepsInv(before, id, image, nodes, now);
        case StatusReported(node, job, status) => StatusKeepsInv(before, node, job, status);
        case _ =>
      }
    }
  }

  /** The readiness gate: in every reachable state every job, and so every payload, is of a ready image. */
  lemma ReadyImagesOnly(es: seq<Event>)
    ensures Inv(Run(EMPTY, es))
  {
    RunKeepsInv(EMPTY, es);
  }

  lemma {:induction false} FanOutOf(job: Uuid, nodes: seq<NodeId>, now: Time, node: NodeId, keep: JobNode -> bool)
    requires NoDup(nodes)
    requires forall n :: n in nodes ==> (keep(JobNode(job, n, "pending", now)) <==> n == node)
    ensures Filter(FanOut(job, nodes, now), keep) == if node in nodes then [JobNode(job, node, "pending", now)] else []
  {
    if nodes != [] {
      var (front, last) := (nodes[..|nodes| - 1], nodes[|nodes| - 1]);
      assert nodes == front + [last];
      FanOutOf(job, front, now, node, keep);
      FanOutSnoc(job, front, last, now);
      FilterSnoc(FanOut(job, front, now), JobNode(job, last, "pending", now), keep);
    }
  }

  lemma FanOutSnoc(job: Uuid, front: seq<NodeId>, last: NodeId, now: Time)
    ensures FanOut(job, front + [last], now) == FanOut(job, front, now) + [JobNode(job, last, "pending", now)]
  {
  }

  /** Atomic fan-out: a job is created exactly for a ready image and distinct, known nodes; it then adds one
      row to the queue of each of them, and changes no other queue. */
  lemma FanOutExact(s: State, id: Uuid, image: Uuid, nodes: seq<NodeId>, now: Time, node: NodeId)
    requires Inv(s) && id !in s.jobs
    ensures
      var (s', r) := CreateJob(s, id, image, nodes, now);
      (r.Ok? <==>
         image in s.images && s.images[image].ready && NoDup(nodes) && forall n :: n in nodes ==> n in s.nodes) &&
      (r.Err? ==> s' == s) &&
      (r.Ok? ==>
         OpenRows(s', node) == OpenRows(s, node) + if node in nodes then [JobNode(id, node, "pending", now)] else [])
  {
    var (s', r) := CreateJob(s, id, image, nodes, now);
    if r.Ok? {
      var (open, open') := ((row: JobNode) => Open(s, node, row), (row: JobNode) => Open(s', node, row));
      FilterAppend(s.rows, FanOut(id, nodes, now), open');
      FilterSame(s.rows, open, open');
      FanOutOf(id, nodes, now, node, open');
    }
  }

  lemma NextIsOldest(s: State, node: NodeId, row: JobNode)
    ensures Next(s, node, row) <==>
      row in OpenRows(s, node) && forall other :: other in OpenRows(s, node) ==> row.created <= other.created
  {
  }

  /** A new job is served when its clock says: whatever could be served next still can, exactly if it is no
      younger than the new row of its node; and the new row can, exactly if no open row is older. */
  lemma NewJobTakesItsTurn(s: State, id: Uuid, image: Uuid, nodes: seq<NodeId>, now: Time, node: NodeId, row: JobNode)
    requires Inv(s) && id !in s.jobs && CreateJob(s, id, image, nodes, now).1.Ok?
    ensures
      var (s', added) := (CreateJob(s, id, image, nodes, now).0, JobNode(id, node, "pending", now));
      (Next(s, node, row) ==> (Next(s', node, row) <==> node !in nodes || row.created <= now)) &&
      (Next(s', node, added) <==>
         node in nodes && forall other :: other in OpenRows(s, node) ==> now <= other.created)
  {
    var (s', added) := (CreateJob(s, id, image, nodes, now).0, JobNode(id, node, "pending", now));
    FanOutExact(s, id, image, nodes, now, node);
    NextIsOldest(s, node, row);
    NextIsOldest(s', node, row);
    NextIsOldest(s', node, added);
    assert forall r :: r in OpenRows(s', node) <==> r in OpenRows(s, node) || (node in nodes && r == added);
  }

  /** The rows a device may be served: its own, not yet in a final state, of an active job with an image. */
  lemma OpenRowsAre(s: State, node: NodeId, row: JobNode)
    ensures row in OpenRows(s, node) <==>
      row in s.rows && row.node == node && row.status in {"pending", "in-progress"} &&
      row.job in s.jobs && s.jobs[row.job].active && s.jobs[row.job].image in s.images
  {
  }

  /** A job is refused without effect also when its id is taken; an accepted one is active, for its image. */
  lemma CreateJobExact(s: State, id: Uuid, image: Uuid, nodes: seq<NodeId>, now: Time)
    ensures
      var (s', r) := CreateJob(s, id, image, nodes, now);
      (r.Ok? <==>
         image in s.images && s.images[image].ready && id !in s.jobs && NoDup(nodes) &&
         forall n :: n in nodes ==> n in s.nodes) &&
      (r == Err(Invalid) <==> image !in s.images || !s.images[image].ready) &&
      (r.Err? ==> s' == s && r.error in {Invalid, Crash}) &&
      (r.Ok? ==>
         s'.nodes == s.nodes && s'.images == s.images && s'.jobs == s.jobs[id := Job(image, true)] &&
         |s'.rows| == |s.rows| + |nodes| && s.rows <= s'.rows &&
         forall k :: 0 <= k < |nodes| ==> s'.rows[|s.rows| + k] == JobNode(id, nodes[k], "pending", now))
  {
  }

  /** A report succeeds exactly for an existing row of the node; it then sets the status of that row, in its
      place, and nothing else. */
  lemma UpdateExact(s: State, node: NodeId, job: Option<Uuid>, status: string)
    ensures
      var (s', r) := UpdateStatus(s, node, job, status);
      (r.Ok? <==> job.Some? && exists i :: 0 <= i < |s.rows| && s.rows[i].job == job.value && s.rows[i].node == node) &&
      (r.Err? ==> s' == s && r == Err(if job.None? then Invalid else NotFound)) &&
      s' == s.(rows := s'.rows) && |s'.rows| == |s.rows| &&
      forall i :: 0 <= i < |s.rows| ==>
        s'.rows[i] ==
          if job == Some(s.rows[i].job) && s.rows[i].node == node then s.rows[i].(status := status) else s.rows[i]
  {
    if job.Some? {
      if row :| row in s.rows && row.job == job.value && row.node == node {
        var i :| 0 <= i < |s.rows| && s.rows[i] == row;
      }
      if i :| 0 <= i < |s.rows| && s.rows[i].job == job.value && s.rows[i].node == node {
        assert s.rows[i] in s.rows;
      }
    }
  }

  /** Image `id` was created by event `i`, and nothing before it. */
  predicate CreatesImage(es: seq<Event>, i: int, id: Uuid) {
    0 <= i < |es| && es[i].ImageCreated? && es[i].id == id &&
    forall j :: 0 <= j < i && es[j].ImageCreated? ==> es[j].id != id
  }

  predicate ConfirmedSince(es: seq<Event>, i: nat, id: Uuid) {
    exists j :: i < j < |es| && es[j] == ImageConfirmed(id)
  }

  lemma CreatesSnoc(front: seq<Event>, e: Event, i: int, id: Uuid)
    ensures CreatesImage(front + [e], i, id) <==>
      CreatesImage(front, i, id) ||
      (i == |front| && e.ImageCreated? && e.id == id &&
       forall j :: 0 <= j < i && front[j].ImageCreated? ==> front[j].id != id)
  {
    var es := front + [e];
    assert forall j :: 0 <= j < |front| ==> es[j] == front[j];
  }

  lemma ConfirmedSnoc(front: seq<Event>, e: Event, i: nat, id: Uuid)
    requires i < |front|
    ensures ConfirmedSince(front + [e], i, id) <==> ConfirmedSince(front, i, id) || e == ImageConfirmed(id)
  {
    var es := front + [e];
    assert forall j :: 0 <= j < |front| ==> es[j] == front[j];
    if e == ImageConfirmed(id) {
      assert es[|front|] == ImageConfirmed(id);
    }
    if j :| i < j < |front| && front[j] == ImageConfirmed(id) {
      assert es[j] == ImageConfirmed(id);
    }
  }

  /** The image row that event `i` leads to. */
  function ImageNow(es: seq<Event>, i: nat, id: Uuid): Image
    requires i < |es| && es[i].ImageCreated?
  {
    Image(ConfirmedSince(es, i, id), es[i].key, es[i].fwVersion)
  }

  lemma StepImages(s: State, e: Event, id: Uuid)
    ensures
      var s' := Step(s, e);
      (id in s'.images <==> id in s.images || (e.ImageCreated? && e.id == id)) &&
      (id in s.images ==>
         s'.images[id] == if e == ImageConfirmed(id) then s.images[id].(ready := true) else s.images[id]) &&
      (id !in s.images && e.ImageCreated? && e.id == id ==> s'.images[id] == Image(false, e.key, e.fwVersion))
  {
  }

  /** In every reachable state an image is there exactly if it was created, with its own key and version, and
      ready exactly if it has itself been confirmed since. */
  lemma {:induction false} ReadyIffConfirmed(es: seq<Event>, id: Uuid)
    ensures id in Run(EMPTY, es).images <==> exists i :: CreatesImage(es, i, id)
    ensures forall i :: CreatesImage(es, i, id) ==> Run(EMPTY, es).images[id] == ImageNow(es, i, id)
  {
    if es != [] {
      var (front, e) := (es[..|es| - 1], es[|es| - 1]);
      LastSplit(es);
      ReadyIffConfirmed(front, id);
      StepImages(Run(EMPTY, front), e, id);
      CreatedIff(front, e, id);
      forall i | CreatesImage(es, i, id) ensures Run(EMPTY, es).images[id] == ImageNow(es, i, id) {
        CreatesSnoc(front, e, i, id);
        if i < |front| {
          ConfirmedSnoc(front, e, i, id);
        } else {
          NotCreated(front, id);
        }
      }
    }
  }

  lemma {:induction false} FirstCreation(es: seq<Event>, i: int, id: Uuid)
    requires 0 <= i < |es| && es[i].ImageCreated? && es[i].id == id
    ensures exists k :: CreatesImage(es, k, id)
  {
    if !CreatesImage(es, i, id) {
      var j :| 0 <= j < i && es[j].ImageCreated? && es[j].id == id;
      FirstCreation(es, j, id);
    }
  }

  lemma NotCreated(es: seq<Event>, id: Uuid)
    requires forall j :: 0 <= j < |es| && es[j].ImageCreated? ==> es[j].id != id
    ensures forall i :: !CreatesImage(es, i, id)
  {
  }

  lemma CreatedIff(front: seq<Event>, e: Event, id: Uuid)
    ensures (exists i :: CreatesImage(front + [e], i, id)) <==>
      (exists i :: CreatesImage(front, i, id)) || (e.ImageCreated? && e.id == id)
  {
    forall i ensures CreatesImage(front, i, id) ==> CreatesImage(front + [e], i, id) {
      CreatesSnoc(front, e, i, id);
    }
    if i :| CreatesImage(front + [e], i, id) {
      CreatesSnoc(front, e, i, id);
    }
    if e.ImageCreated? && e.id == id {
      assert (front + [e])[|front|] == e;
      FirstCreation(front + [e], |front|, id);
    }
  }

  lemma ConfirmExact(s: State, id: Uuid)
    ensures
      var (s', r) := ConfirmImage(s, id);
      (r.Ok? <==> id in s.images) && (r.Err? ==> (s', r) == (s, Err(Invalid))) && s' == s.(images := s'.images) &&
      s'.images.Keys == s.images.Keys &&
      forall k :: k in s.images ==>
        s'.images[k] == if k == id then s.images[k].(ready := true) else s.images[k]
  {
  }

  // ---------- Draining ----------

  /** The row that stands for a job and node. */
  lemma RowIsUnique(rows: seq<JobNode>, a: JobNode, b: JobNode)
    requires RowsUnique(rows) && a in rows && b in rows && a.job == b.job && a.node == b.node
    ensures a == b
  {
  }

  /** `row` is the only one for its job and node. */
  ghost predicate Only(rows: seq<JobNode>, row: JobNode) {
    forall r :: r in rows && r.job == row.job && r.node == row.node ==> r == row
  }

  /** Reporting a final status takes its row, and no other, out of a selection of open rows. */
  lemma {:induction false} ReportDrops(
    rows: seq<JobNode>, row: JobNode, status: string, keep: JobNode -> bool, keep': JobNode -> bool)
    requires Only(rows, row) && !keep'(row.(status := status))
    requires forall other :: other in rows && other != row ==> keep'(other) == keep(other)
    ensures Filter(SetStatus(rows, row.job, row.node, status), keep') ==
      Filter(rows, (r: JobNode) => keep(r) && r != row)
  {
    if rows != [] {
      var (front, last) := (rows[..|rows| - 1], rows[|rows| - 1]);
      var rows' := SetStatus(rows, row.job, row.node, status);
      assert rows'[..|rows| - 1] == SetStatus(front, row.job, row.node, status);
      assert last in rows && forall r :: r in front ==> r in rows;
      ReportDrops(front, row, status, keep, keep');
    }
  }

  lemma {:induction false} FilterWithout(rows: seq<JobNode>, row: JobNode, keep: JobNode -> bool)
    requires NoDup(rows)
    ensures |Filter(rows, (r: JobNode) => keep(r) && r != row)| ==
      |Filter(rows, keep)| - (if row in rows && keep(row) then 1 else 0)
  {
    if rows != [] {
      var (front, last) := (rows[..|rows| - 1], rows[|rows| - 1]);
      FilterWithout(front, row, keep);
      assert last !in front;
      assert rows == front + [last];
    }
  }

  lemma ReportCloses(s: State, node: NodeId, row: JobNode, status: string)
    requires Inv(s) && row in s.rows && Open(s, node, row) && !Waiting(status)
    ensures
      var s' := UpdateStatus(s, node, Some(row.job), status).0;
      |OpenRows(s', node)| + 1 == |OpenRows(s, node)| &&
      (forall other :: other in OpenRows(s', node) <==> other in OpenRows(s, node) && other != row) &&
      (forall other: JobNode :: other.node != node ==> (other in s'.rows <==> other in s.rows)) && Inv(s')
  {
    var s' := UpdateStatus(s, node, Some(row.job), status).0;
    StatusKeepsInv(s, node, Some(row.job), status);
    ReportsElsewhere(s.rows, row.job, node, status);
    OpenAfterReport(s, node, row, status);
    var open := (r: JobNode) => Open(s, node, r);
    FilterWithout(s.rows, row, open);
    FilterSame(s.rows, (r: JobNode) => open(r) && r != row, (r: JobNode) => Open(s, node, r) && r != row);
  }

  lemma OpenAfterReport(s: State, node: NodeId, row: JobNode, status: string)
    requires Inv(s) && row in s.rows && Open(s, node, row) && !Waiting(status)
    ensures OpenRows(UpdateStatus(s, node, Some(row.job), status).0, node) ==
      Filter(s.rows, (r: JobNode) => Open(s, node, r) && r != row)
  {
    var s' := UpdateStatus(s, node, Some(row.job), status).0;
    forall r | r in s.rows && r.job == row.job && r.node == row.node ensures r == row {
      RowIsUnique(s.rows, r, row);
    }
    var (open, open') := ((r: JobNode) => Open(s, node, r), (r: JobNode) => Open(s', node, r));
    ReportDrops(s.rows, row, status, open, open');
    FilterSame(s.rows, (r: JobNode) => open(r) && r != row, (r: JobNode) => Open(s, node, r) && r != row);
  }

  lemma ReportsElsewhere(rows: seq<JobNode>, job: Uuid, node: NodeId, status: string)
    ensures forall other: JobNode :: other.node != node ==>
      (other in SetStatus(rows, job, node, status) <==> other in rows)
  {
  }

  /** One exchange of a drain: the job served and the status reported for it. */
  datatype Served = Served(row: JobNode, status: string)

  /** The node fetches, gets each row in turn, and reports a final status for it. */
  ghost predicate Drains(s: State, node: NodeId, served: seq<Served>, s': State)
    decreases |served|
  {
    if served == [] then s' == s
    else
      Next(s, node, served[0].row) && !Waiting(served[0].status) &&
      Drains(UpdateStatus(s, node, Some(served[0].row.job), served[0].status).0, node, served[1..], s')
  }

  ghost predicate ServedIn(served: seq<Served>, row: JobNode) {
    exists i :: 0 <= i < |served| && served[i].row == row
  }

  /** Any drain, whatever final statuses are reported and however ties are broken: the rows it serves and
      the rows it leaves make up the queue, so it meets "wait" after exactly as many payloads as there
      were open rows; and other nodes' rows are as before. */
  lemma {:induction false} DrainServesAll(s: State, node: NodeId, served: seq<Served>, s': State)
    requires Inv(s) && Drains(s, node, served, s')
    ensures |served| + |OpenRows(s', node)| == |OpenRows(s, node)|
    ensures forall row :: row in OpenRows(s, node) <==> row in OpenRows(s', node) || ServedIn(served, row)
    ensures forall row :: row in OpenRows(s', node) ==> !ServedIn(served, row)
    ensures forall row: JobNode :: row.node != node ==> (row in s'.rows <==> row in s.rows)
    decreases |served|
  {
    if served != [] {
      var (first, rest) := (served[0], served[1..]);
      var s1 := UpdateStatus(s, node, Some(first.row.job), first.status).0;
      ReportCloses(s, node, first.row, first.status);
      DrainServesAll(s1, node, rest, s');
      forall row ensures ServedIn(served, row) <==> row == first.row || ServedIn(rest, row) {
        ServedCons(served, row);
      }
    }
  }

  lemma ServedCons(served: seq<Served>, row: JobNode)
    requires served != []
    ensures ServedIn(served, row) <==> row == served[0].row || ServedIn(served[1..], row)
  {
  }

  ghost predicate Before(a: JobNode, b: JobNode) {
    a.job != b.job && a.created <= b.created
  }

  ghost predicate Ordered(served: seq<Served>) {
    forall i, j :: 0 <= i < j < |served| ==> Before(served[i].row, served[j].row)
  }

  lemma OrderedCons(served: seq<Served>)
    requires served != [] && Ordered(served[1..])
    requires forall row :: ServedIn(served[1..], row) ==> Before(served[0].row, row)
    ensures Ordered(served)
  {
  }

  /** It serves each job once, and never one while a strictly older row is open. */
  lemma {:induction false} DrainIsOrdered(s: State, node: NodeId, served: seq<Served>, s': State)
    requires Inv(s) && Drains(s, node, served, s')
    ensures Ordered(served)
    decreases |served|
  {
    if served != [] {
      var (first, rest) := (served[0], served[1..]);
      var s1 := UpdateStatus(s, node, Some(first.row.job), first.status).0;
      ReportCloses(s, node, first.row, first.status);
      DrainIsOrdered(s1, node, rest, s');
      DrainServesAll(s1, node, rest, s');
      forall row | ServedIn(rest, row) ensures Before(first.row, row) {
        assert row in OpenRows(s1, node);
        OlderAndOther(s, node, first.row, row);
      }
      OrderedCons(served);
    }
  }

  lemma OlderAndOther(s: State, node: NodeId, first: JobNode, row: JobNode)
    requires Inv(s) && Next(s, node, first) && row in OpenRows(s, node) && row != first
    ensures Before(first, row)
  {
  }

  /** A status that is not final keeps the row in the queue, at its place. */
  lemma ProgressKeepsPlace(s: State, node: NodeId, row: JobNode, status: string)
    requires Inv(s) && Next(s, node, row) && Waiting(status)
    ensures
      var s' := UpdateStatus(s, node, Some(row.job), status).0;
      Next(s', node, row.(status := status))
  {
    var s' := UpdateStatus(s, node, Some(row.job), status).0;
    var i :| 0 <= i < |s.rows| && s.rows[i] == row;
    assert s'.rows[i] == row.(status := status);
    forall o | o in s'.rows && Open(s', node, o) ensures row.created <= o.created {
      var j :| 0 <= j < |s'.rows| && s'.rows[j] == o;
      assert s.rows[j] in s.rows;
      assert s.rows[j].job == row.job && s.rows[j].node == node ==> s.rows[j] == row by {
        if s.rows[j].job == row.job && s.rows[j].node == node {
          RowIsUnique(s.rows, s.rows[j], row);
        }
      }
    }
  }

  // ---------- The status query ----------

  function RowsOf(rows: seq<JobNode>, node: NodeId): seq<JobNode> {
    Filter(rows, (row: JobNode) => row.node == node)
  }

  /** `get_status_for_node` asks for one row, so it answers only while the node has at most one. */
  function StatusForNode(s: State, node: NodeId): Result<Option<JobNode>> {
    var rows := RowsOf(s.rows, node);
    if |rows| == 0 then Ok(None) else if |rows| == 1 then Ok(Some(rows[0])) else Err(Crash)
  }

  /** Event `i` of the run creates a job for the node. */
  predicate CreatesFor(es: seq<Event>, i: int, node: NodeId) {
    0 <= i < |es| && es[i].JobCreated? && node in es[i].nodes &&
    CreateJob(Run(EMPTY, es[..i]), es[i].id, es[i].image, es[i].nodes, es[i].now).1.Ok?
  }

  /** The events of the run that create a job for the node. */
  function JobsFor(es: seq<Event>, node: NodeId): set<int> {
    set i | 0 <= i < |es| && CreatesFor(es, i, node)
  }

  lemma {:induction false} CountAfterReport(rows: seq<JobNode>, job: Uuid, node: NodeId, status: string, n: NodeId)
    ensures |RowsOf(SetStatus(rows, job, node, status), n)| == |RowsOf(rows, n)|
  {
    if rows != [] {
      assert SetStatus(rows, job, node, status)[..|rows| - 1] == SetStatus(rows[..|rows| - 1], job, node, status);
      CountAfterReport(rows[..|rows| - 1], job, node, status, n);
    }
  }

  lemma CountAfterStep(s: State, e: Event, node: NodeId)
    ensures
      var made := e.JobCreated? && node in e.nodes && CreateJob(s, e.id, e.image, e.nodes, e.now).1.Ok?;
      |RowsOf(Step(s, e).rows, node)| == |RowsOf(s.rows, node)| + if made then 1 else 0
  {
    match e
    case JobCreated(id, image, nodes, now) =>
      if CreateJob(s, id, image, nodes, now).1.Ok? {
        var here := (row: JobNode) => row.node == node;
        FilterAppend(s.rows, FanOut(id, nodes, now), here);
        FanOutOf(id, nodes, now, node, here);
      }
    case StatusReported(n, job, status) =>
      if job.Some? { CountAfterReport(s.rows, job.value, n, status, node); }
    case _ =>
  }

  lemma SamePrefix(es: seq<Event>, more: seq<Event>, i: int, node: NodeId)
    requires 0 <= i < |es|
    ensures CreatesFor(es + more, i, node) <==> CreatesFor(es, i, node)
  {
    assert (es + more)[..i] == es[..i];
  }

  lemma JobsSnoc(front: seq<Event>, e: Event, node: NodeId)
    ensures JobsFor(front + [e], node) ==
      JobsFor(front, node) + if CreatesFor(front + [e], |front|, node) then {|front|} else {}
  {
    forall i | 0 <= i < |front| ensures CreatesFor(front + [e], i, node) <==> CreatesFor(front, i, node) {
      SamePrefix(front, [e], i, node);
    }
  }

  lemma {:induction false} RowsAreJobs(es: seq<Event>, node: NodeId)
    ensures |RowsOf(Run(EMPTY, es).rows, node)| == |JobsFor(es, node)|
  {
    if es == [] {
      assert JobsFor(es, node) == {};
    } else {
      var (front, e) := (es[..|es| - 1], es[|es| - 1]);
      RowsAreJobs(front, node);
      CountAfterStep(Run(EMPTY, front), e, node);
      LastSplit(es);
      JobsSnoc(front, e, node);
      assert |front| !in JobsFor(front, node);
    }
  }

  /** The status that the events leave for the job and node: the last one reported, or the first one given. */
  function LastStatus(es: seq<Event>, job: Uuid, node: NodeId): string {
    if es == [] then "pending"
    else match es[|es| - 1]
      case StatusReported(n, j, status) =>
        if n == node && j == Some(job) then status else LastStatus(es[..|es| - 1], job, node)
      case _ => LastStatus(es[..|es| - 1], job, node)
  }

  /** The row of a job and node, given the event that created it. */
  function RowNow(es: seq<Event>, i: nat, node: NodeId): JobNode
    requires i < |es| && es[i].JobCreated?
  {
    JobNode(es[i].id, node, LastStatus(es[i + 1..], es[i].id, node), es[i].now)
  }

  lemma StepTracks(s: State, e: Event, row: JobNode)
    requires row in s.rows
    ensures
      var status := if e.StatusReported? && e.node == row.node && e.job == Some(row.job) then e.status else row.status;
      row.(status := status) in Step(s, e).rows
  {
    var k :| 0 <= k < |s.rows| && s.rows[k] == row;
    match e
    case StatusReported(n, job, status) =>
      if job.Some? && HasRow(s.rows, job.value, n) {
        assert SetStatus(s.rows, job.value, n, status)[k] in SetStatus(s.rows, job.value, n, status);
      }
    case _ =>
      assert Step(s, e).rows[k] == row;
  }

  lemma RowSnoc(front: seq<Event>, e: Event, i: nat, node: NodeId)
    requires i < |front| && front[i].JobCreated?
    ensures
      var row := RowNow(front, i, node);
      var status := if e.StatusReported? && e.node == node && e.job == Some(row.job) then e.status else row.status;
      RowNow(front + [e], i, node) == row.(status := status)
  {
    assert (front + [e])[i + 1..] == front[i + 1..] + [e];
    assert (front[i + 1..] + [e])[..|front| - i - 1] == front[i + 1..];
  }

  /** In every reachable state the row of each job and node shows the last status reported for it. */
  lemma {:induction false} RowShowsLastReport(es: seq<Event>, i: nat, node: NodeId)
    requires CreatesFor(es, i, node)
    ensures RowNow(es, i, node) in Run(EMPTY, es).rows
  {
    var (front, e) := (es[..|es| - 1], es[|es| - 1]);
    LastSplit(es);
    if i < |front| {
      SamePrefix(front, [e], i, node);
      RowShowsLastReport(front, i, node);
      RowSnoc(front, e, i, node);
      StepTracks(Run(EMPTY, front), e, RowNow(front, i, node));
    } else {
      var k :| 0 <= k < |e.nodes| && e.nodes[k] == node;
      assert FanOut(e.id, e.nodes, e.now)[k] == RowNow(es, i, node);
    }
  }

  /** In every reachable state the status query answers if and only if at most one job was ever created for
      the node, and says that there is none exactly when there was none. */
  lemma StatusAnswersIff(es: seq<Event>, node: NodeId)
    ensures StatusForNode(Run(EMPTY, es), node).Ok? <==> |JobsFor(es, node)| <= 1
    ensures StatusForNode(Run(EMPTY, es), node) == Ok(None) <==> JobsFor(es, node) == {}
  {
    RowsAreJobs(es, node);
  }

  /** With exactly one job it answers that job's row, with the last status reported for it. */
  lemma StatusIsLastReport(es: seq<Event>, i: nat, node: NodeId)
    requires JobsFor(es, node) == {i}
    ensures CreatesFor(es, i, node)
    ensures StatusForNode(Run(EMPTY, es), node) == Ok(Some(RowNow(es, i, node)))
  {
    assert i in JobsFor(es, node) && |{i}| == 1;
    RowsAreJobs(es, node);
    RowShowsLastReport(es, i, node);
    OnlyMember(RowsOf(Run(EMPTY, es).rows, node), RowNow(es, i, node));
  }

  lemma OnlyMember(rows: seq<JobNode>, row: JobNode)
    requires |rows| == 1 && row in rows
    ensures rows[0] == row
  {
  }

  /** Jobs never go away, so once a node has had two its status query fails in every later state. */
  lemma StatusQueryLost(es: seq<Event>, more: seq<Event>, node: NodeId, i: int, j: int)
    requires i != j && CreatesFor(es, i, node) && CreatesFor(es, j, node)
    ensures StatusForNode(Run(EMPTY, es + more), node) == Err(Crash)
  {
    SamePrefix(es, more, i, node);
    SamePrefix(es, more, j, node);
    var jobs := JobsFor(es + more, node);
    assert jobs == {i, j} + (jobs - {i, j});
    RowsAreJobs(es + more, node);
  }

  lemma RunSnoc(s: State, es: seq<Event>, e: Event)
    ensures Run(s, es + [e]) == Step(Run(s, es), e)
  {
  }

  lemma OneJob(s: State, node: NodeId, image: Uuid, id: Uuid, now: Time)
    requires id !in s.jobs && node in s.nodes && image in s.images && s.images[image].ready
    ensures
      var s' := Step(s, JobCreated(id, image, [node], now));
      |RowsOf(s'.rows, node)| == |RowsOf(s.rows, node)| + 1 &&
      s'.nodes == s.nodes && s'.images == s.images && s'.jobs.Keys == s.jobs.Keys + {id}
  {
    CountAfterStep(s, JobCreated(id, image, [node], now), node);
  }

  lemma TwoJobsFrom(s: State, node: NodeId, image: Uuid, a: Uuid, b: Uuid, now: Time, later: Time)
    requires a != b && a !in s.jobs && b !in s.jobs
    requires node in s.nodes && image in s.images && s.images[image].ready
    ensures
      var s' := Step(Step(s, JobCreated(a, image, [node], now)), JobCreated(b, image, [node], later));
      StatusForNode(s', node) == Err(Crash)
  {
    OneJob(s, node, image, a, now);
    OneJob(Step(s, JobCreated(a, image, [node], now)), node, image, b, later);
  }

  /** For one, after two jobs for the same node. */
  lemma TwoJobsRaise(
    node: NodeId, image: Uuid, a: Uuid, b: Uuid, key: string, fwVersion: string, now: Time, later: Time)
    requires a != b
    ensures
      var es := [NodeAppears(node), ImageCreated(image, key, fwVersion), ImageConfirmed(image),
                 JobCreated(a, image, [node], now), JobCreated(b, image, [node], later)];
      StatusForNode(Run(EMPTY, es), node) == Err(Crash)
  {
    var ready := [NodeAppears(node), ImageCreated(image, key, fwVersion), ImageConfirmed(image)];
    var (first, second) := (JobCreated(a, image, [node], now), JobCreated(b, image, [node], later));
    assert ready + [first] + [second] == [ready[0], ready[1], ready[2], first, second];
    RunSnoc(EMPTY, ready, first);
    RunSnoc(EMPTY, ready + [first], second);
    ReadyAfter(node, image, key, fwVersion);
    TwoJobsFrom(Run(EMPTY, ready), node, image, a, b, now, later);
  }

  lemma ReadyAfter(node: NodeId, image: Uuid, key: string, fwVersion: string)
    ensures Run(EMPTY, [NodeAppears(node), ImageCreated(image, key, fwVersion), ImageConfirmed(image)]) ==
      State({node}, map[image := Image(true, key, fwVersion)], map[], [])
  {
    var (e0, e1, e2) := (NodeAppears(node), ImageCreated(image, key, fwVersion), ImageConfirmed(image));
    assert [e0] == [] + [e0] && [e0, e1] == [e0] + [e1] && [e0, e1, e2] == [e0, e1] + [e2];
    RunSnoc(EMPTY, [], e0);
    RunSnoc(EMPTY, [e0], e1);
    RunSnoc(EMPTY, [e0, e1], e2);
  }

  // ---------- The service calls ----------

  function View(db: Database): State
    reads db
  {
    State(db.nodes, db.images, db.jobs, db.jobNodes)
  }

  method ConfirmImageUpload(db: Database, id: Uuid) returns (r: Result<()>)
    modifies db`images
    ensures (View(db), r) == ConfirmImage(old(View(db)), id)
  {
    if id !in db.images { return Err(Invalid); }
    db.images := db.images[id := db.images[id].(ready := true)];
    return Ok(());
  }

  method CreateOtaJob(db: Database, id: Uuid, image: Uuid, nodes: seq<NodeId>, now: Time) returns (r: Result<()>)
    modifies db`jobs, db`jobNodes
    ensures (View(db), r) == CreateJob(old(View(db)), id, image, nodes, now)
  {
    if image !in db.images || !db.images[image].ready { return Err(Invalid); }
    var added: seq<JobNode> := [];
    for i := 0 to |nodes|
      invariant |added| == i && forall j :: 0 <= j < i ==> added[j] == JobNode(id, nodes[j], "pending", now)
    {
      added := added + [JobNode(id, nodes[i], "pending", now)];
    }
    // Commit: primary key, unique (job, node), and the foreign key to nodes.
    if id in db.jobs || !NoDup(nodes) || exists n :: n in nodes && n !in db.nodes { return Err(Crash); }
    assert added == FanOut(id, nodes, now);
    db.jobs := db.jobs[id := Job(image, true)];
    db.jobNodes := db.jobNodes + added;
    return Ok(());
  }

  /** `fetch_pending_for_node`: the first row in order of creation with its image, or none: "wait". */
  method FetchPending(db: Database, node: NodeId) returns (next: Option<(JobNode, Image)>)
    ensures next.None? <==> OpenRows(View(db), node) == []
    ensures next.Some? ==>
      Next(View(db), node, next.value.0) && next.value.1 == db.images[db.jobs[next.value.0.job].image]
    ensures next.Some? && Inv(View(db)) ==> next.value.1.ready
  {
    var row: Option<JobNode> := None;
    for i := 0 to |db.jobNodes|
      invariant row.None? <==> forall j :: 0 <= j < i ==> !Open(View(db), node, db.jobNodes[j])
      invariant row.Some? ==> row.value in db.jobNodes && Open(View(db), node, row.value)
      invariant row.Some? ==> forall j :: 0 <= j < i && Open(View(db), node, db.jobNodes[j]) ==>
          row.value.created <= db.jobNodes[j].created
    {
      var candidate := db.jobNodes[i];
      if Open(View(db), node, candidate) && (row.None? || candidate.created < row.value.created) {
        row := Some(candidate);
      }
    }
    ghost var open := OpenRows(View(db), node);
    if open != [] {
      assert open[0] in open;
    }
    if row.None? { return None; }
    return Some((row.value, db.images[db.jobs[row.value.job].image]));
  }

  method UpdateOtaStatus(db: Database, node: NodeId, job: Option<Uuid>, status: string) returns (r: Result<()>)
    modifies db`jobNodes
    ensures (View(db), r) == UpdateStatus(old(View(db)), node, job, status)
  {
    if job.None? { return Err(Invalid); }
    if !HasRow(db.jobNodes, job.value, node) { return Err(NotFound); }
    db.jobNodes := SetStatus(db.jobNodes, job.value, node, status);
    return Ok(());
  }

  lemma {:induction false} DrainsSnoc(s: State, node: NodeId, served: seq<Served>, s': State, last: Served)
    requires Drains(s, node, served, s') && Next(s', node, last.row) && !Waiting(last.status)
    ensures Drains(s, node, served + [last], UpdateStatus(s', node, Some(last.row.job), last.status).0)
    decreases |served|
  {
    if served != [] {
      TailSnoc(served, last);
      var s1 := UpdateStatus(s, node, Some(served[0].row.job), served[0].status).0;
      DrainsSnoc(s1, node, served[1..], s', last);
    }
  }

  /** The queue of the node has been drained from `start` to `s` so far, with the statuses of `report`. */
  ghost predicate Draining(start: State, node: NodeId, report: JobNode -> string, served: seq<Served>, s: State) {
    Inv(s) && Drains(start, node, served, s) &&
    forall i :: 0 <= i < |served| ==> served[i].status == report(served[i].row)
  }

  lemma Exchange(start: State, node: NodeId, report: JobNode -> string, served: seq<Served>, s: State, row: JobNode)
    requires Draining(start, node, report, served, s) && Next(s, node, row) && !Waiting(report(row))
    ensures
      var s' := UpdateStatus(s, node, Some(row.job), report(row)).0;
      |OpenRows(s', node)| < |OpenRows(s, node)| &&
      Draining(start, node, report, served + [Served(row, report(row))], s')
  {
    ReportCloses(s, node, row, report(row));
    DrainsSnoc(start, node, served, s, Served(row, report(row)));
  }

  /** A device that keeps fetching and reports a final status of its choice each time: the loop ends, is a
      drain as above, and leaves the queue empty after one payload for each row that was open. */
  method Drain(db: Database, node: NodeId, report: JobNode -> string) returns (count: nat, ghost served: seq<Served>)
    requires Inv(View(db)) && forall row :: !Waiting(report(row))
    modifies db`jobNodes
    ensures Draining(old(View(db)), node, report, served, View(db))
    ensures OpenRows(View(db), node) == [] && count == |served| == |OpenRows(old(View(db)), node)|
  {
    ghost var start := View(db);
    count, served := 0, [];
    var next := FetchPending(db, node);
    ghost var s := start;
    while next.Some?
      invariant View(db) == s && Draining(start, node, report, served, s) && count == |served|
      invariant next.None? <==> OpenRows(s, node) == []
      invariant next.Some? ==> Next(s, node, next.value.0)
      decreases |OpenRows(s, node)|
    {
      var row := next.value.0;
      var status := report(row);
      Exchange(start, node, report, served, s, row);
      var _ := UpdateOtaStatus(db, node, Some(row.job), status);
      count, served, s := count + 1, served + [Served(row, status)], View(db);
      next := FetchPending(db, node);
    }
    DrainServesAll(start, node, served, s);
  }
}
