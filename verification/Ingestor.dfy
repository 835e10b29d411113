/** The MQTT ingestor: it folds an unbounded message log into rows that belong to nodes
    (app/mqtt/router.py and the upserts of app/services/node.py). */
module Ingestor {
  import opened Prelude
  import opened Store
  import opened Topics
  import opened ParamsShadow
  import opened TimeSeries
  import Ownership

  /** A delivered PUBLISH: the payload is none when it is not JSON, and `now` is the clock at dispatch. */
  datatype Message = Message(topic: string, payload: Option<Json>, now: Time)

  // ---------- Node, config and shadow rows ----------

  datatype Tables = Tables(nodes: set<NodeId>, configs: map<NodeId, Config>, shadows: map<NodeId, Params>)

  /** The column widths a node id and a config version must respect. */
  predicate FitsNodeId(node: NodeId) { |node| <= 64 }

  /** The `config_version` to store; none when the column refuses it. */
  function VersionOf(payload: map<string, Json>): Option<Option<string>> {
    match GetOr(payload, "config_version", Null)
    case Null => Some(None)
    case Str(v) => if |v| <= 32 then Some(Some(v)) else None
    case _ => None
  }

  /** `_ensure_node`, which commits by itself; none when the row cannot be created. */
  function EnsureNode(t: Tables, node: NodeId): Option<Tables> {
    if node in t.nodes then Some(t) else if FitsNodeId(node) then Some(t.(nodes := t.nodes + {node})) else None
  }

  /** `_handle_config`: a refused config leaves the node row behind. */
  function ConfigStep(t: Tables, node: NodeId, payload: Json): Tables {
    if !payload.Obj? || EnsureNode(t, node).None? then t
    else
      var t' := EnsureNode(t, node).value;
      match VersionOf(payload.fields)
      case None => t'
      case Some(version) => t'.(configs := t'.configs[node := Config(version, payload.fields)])
  }

  /** `_handle_params_local`. */
  function ParamsStep(t: Tables, node: NodeId, payload: Json): Tables {
    if !payload.Obj? || EnsureNode(t, node).None? then t
    else
      var t' := EnsureNode(t, node).value;
      t'.(shadows := t'.shadows[node := Upsert(Lookup(t.shadows, node), payload.fields).value])
  }

  // ---------- Dispatch ----------

  datatype State = State(
    own: Ownership.Own,
    configs: map<NodeId, Config>,
    shadows: map<NodeId, Params>,
    tsdata: seq<TsRow>)

  /** The keys of `_HANDLERS` whose handlers do something. */
  datatype Handler = ConfigHandler | ParamsHandler | MappingHandler | SeriesHandler | SimpleHandler

  function HandlerOf(suffix: string): Option<Handler> {
    if suffix == CONFIG then Some(ConfigHandler)
    else if suffix == PARAMS_LOCAL || suffix == PARAMS_LOCAL_INIT then Some(ParamsHandler)
    else if suffix == USER_MAPPING then Some(MappingHandler)
    else if suffix == TSDATA then Some(SeriesHandler)
    else if suffix == SIMPLE_TSDATA then Some(SimpleHandler)
    else None
  }

  /** A message as the handlers get it. */
  datatype Routed = Dropped | Routed(node: NodeId, handler: Handler, payload: Json, now: Time)

  /** Where a message goes; malformed topics and payloads are dropped, and so is a JSON `null`. */
  function Route(m: Message): Routed {
    if SplitTopic(m.topic).None? || m.payload.None? || m.payload.value.Null? then Dropped
    else
      var (node, suffix) := SplitTopic(m.topic).value;
      if HandlerOf(suffix).None? then Dropped else Routed(node, HandlerOf(suffix).value, m.payload.value, m.now)
  }

  function TablesOf(s: State): Tables {
    Tables(s.own.nodes, s.configs, s.shadows)
  }

  function WithTables(s: State, t: Tables): State {
    s.(own := s.own.(nodes := t.nodes), configs := t.configs, shadows := t.shadows)
  }

  function TablesStep(t: Tables, r: Routed): Tables {
    if r.Dropped? then t
    else match r.handler
      case ConfigHandler => ConfigStep(t, r.node, r.payload)
      case ParamsHandler => ParamsStep(t, r.node, r.payload)
      case _ => t
  }

  function NewRows(rt: Runtime, r: Routed): seq<TsRow> {
    if r.Dropped? then []
    else match r.handler
      case SeriesHandler => BulkRows(rt, r.node, r.payload)
      case SimpleHandler => MessageRows(rt, r.node, r.payload)
      case _ => []
  }

  ghost function OwnStep(own: Ownership.Own, r: Routed): Ownership.Own {
    if r.Routed? && r.handler == MappingHandler then Ownership.DeviceReport(own, r.node, r.payload, r.now) else own
  }

  /** A handler; its exception is swallowed, and leaves what was committed before it. */
  ghost function Handle(rt: Runtime, s: State, r: Routed): State {
    WithTables(State(OwnStep(s.own, r), s.configs, s.shadows, s.tsdata + NewRows(rt, r)), TablesStep(TablesOf(s), r))
  }

  /** `dispatch`. */
  ghost function Dispatch(rt: Runtime, s: State, m: Message): State {
    Handle(rt, s, Route(m))
  }

  /** A whole log, as routed. */
  ghost function HandleAll(rt: Runtime, s: State, log: seq<Routed>): State {
    if log == [] then s else Handle(rt, HandleAll(rt, s, log[..|log| - 1]), log[|log| - 1])
  }

  // ---------- Projection onto one node ----------

  function OnlyChallenges(challenges: map<string, Challenge>, n: NodeId): map<string, Challenge> {
    map rid | rid in challenges && challenges[rid].node == n :: challenges[rid]
  }

  function OnlyMappings(mappings: seq<Mapping>, n: NodeId): seq<Mapping> {
    Filter(mappings, (m: Mapping) => m.node == n)
  }

  function OnlyOwn(own: Ownership.Own, n: NodeId): Ownership.Own {
    Ownership.Own(
      own.users,
      own.nodes * {n},
      OnlyChallenges(own.challenges, n),
      OnlyMappings(own.mappings, n),
      map id | id in own.requests && own.requests[id].node == n :: own.requests[id],
      Filter(own.shares, (sh: Share) => sh.node == n))
  }

  function OnlyTables(t: Tables, n: NodeId): Tables {
    Tables(t.nodes * {n}, OnlyAt(t.configs, n), OnlyAt(t.shadows, n))
  }

  function OnlyAt<V>(m: map<NodeId, V>, n: NodeId): map<NodeId, V> {
    map k | k in m && k == n :: m[k]
  }

  function OnlyRows(rows: seq<TsRow>, n: NodeId): seq<TsRow> {
    Filter(rows, (row: TsRow) => row.node == n)
  }

  /** The rows of node `n`. */
  function Only(s: State, n: NodeId): State {
    var t := OnlyTables(TablesOf(s), n);
    State(OnlyOwn(s.own, n), t.configs, t.shadows, OnlyRows(s.tsdata, n))
  }

  predicate IsFor(r: Routed, n: NodeId) {
    r.Routed? && r.node == n
  }

  /** The messages of the log that are for node `n`. */
  function LogFor(log: seq<Routed>, n: NodeId): seq<Routed> {
    Filter(log, (r: Routed) => IsFor(r, n))
  }

  lemma UpdateProjects<V>(m: map<NodeId, V>, node: NodeId, v: V, n: NodeId)
    ensures OnlyAt(m[node := v], n) == if node == n then OnlyAt(m, n)[n := v] else OnlyAt(m, n)
    ensures Lookup(OnlyAt(m, n), n) == Lookup(m, n)
  {
  }

  lemma EnsureProjects(t: Tables, node: NodeId, n: NodeId)
    requires EnsureNode(t, node).Some?
    ensures
      var t' := OnlyTables(EnsureNode(t, node).value, n);
      if node == n then EnsureNode(OnlyTables(t, n), n) == Some(t') else t' == OnlyTables(t, n)
  {
    assert (t.nodes + {n}) * {n} == t.nodes * {n} + {n};
    assert node != n ==> (t.nodes + {node}) * {n} == t.nodes * {n};
  }

  lemma ConfigProjects(t: Tables, node: NodeId, payload: Json, n: NodeId)
    ensures OnlyTables(ConfigStep(t, node, payload), n) ==
      if node == n then ConfigStep(OnlyTables(t, n), n, payload) else OnlyTables(t, n)
  {
    if payload.Obj? && EnsureNode(t, node).Some? {
      EnsureProjects(t, node, n);
      if VersionOf(payload.fields).Some? {
        UpdateProjects(t.configs, node, Config(VersionOf(payload.fields).value, payload.fields), n);
      }
    }
  }

  lemma ParamsProjects(t: Tables, node: NodeId, payload: Json, n: NodeId)
    ensures OnlyTables(ParamsStep(t, node, payload), n) ==
      if node == n then ParamsStep(OnlyTables(t, n), n, payload) else OnlyTables(t, n)
  {
    if payload.Obj? && EnsureNode(t, node).Some? {
      EnsureProjects(t, node, n);
      UpdateProjects(t.shadows, node, Upsert(Lookup(t.shadows, node), payload.fields).value, n);
    }
  }

  lemma TablesProject(t: Tables, r: Routed, n: NodeId)
    ensures OnlyTables(TablesStep(t, r), n) == if IsFor(r, n) then TablesStep(OnlyTables(t, n), r) else OnlyTables(t, n)
  {
    if r.Routed? {
      match r.handler
      case ConfigHandler => ConfigProjects(t, r.node, r.payload, n);
      case ParamsHandler => ParamsProjects(t, r.node, r.payload, n);
      case _ =>
    }
  }

  lemma ChallengesProject(challenges: map<string, Challenge>, rid: string, c: Challenge, n: NodeId)
    requires rid in challenges && c.node == challenges[rid].node
    ensures OnlyChallenges(challenges[rid := c], n) ==
      if c.node == n then OnlyChallenges(challenges, n)[rid := c] else OnlyChallenges(challenges, n)
  {
  }

  lemma MappingsProject(mappings: seq<Mapping>, m: Mapping, n: NodeId)
    ensures OnlyMappings(mappings + [m], n) == OnlyMappings(mappings, n) + if m.node == n then [m] else []
    ensures m.node == n ==> (m in OnlyMappings(mappings, n) <==> m in mappings)
  {
  }

  lemma CompletionProjects(own: Ownership.Own, rid: string, now: Time, n: NodeId)
    requires rid in own.challenges
    ensures
      var (here, done) := (OnlyOwn(own, n), Ownership.Complete(own, rid, now));
      if own.challenges[rid].node == n then
        rid in here.challenges && (Ownership.Complete(here, rid, now).Some? <==> done.Some?) &&
        (done.Some? ==> Ownership.Complete(here, rid, now).value == OnlyOwn(done.value, n))
      else done.Some? ==> OnlyOwn(done.value, n) == here
  {
    var c := own.challenges[rid];
    MappingsProject(own.mappings, Mapping(c.user, c.node), n);
    ChallengesProject(own.challenges, rid, c.(status := Completed, completedAt := Some(now)), n);
  }

  lemma SoleProjects(challenges: map<string, Challenge>, secret: string, rid: string, n: NodeId)
    ensures Ownership.SoleAnswer(challenges, n, secret, rid) <==>
      Ownership.SoleAnswer(OnlyChallenges(challenges, n), n, secret, rid)
  {
    var here := OnlyChallenges(challenges, n);
    assert forall other :: other in challenges && Ownership.Answers(challenges[other], n, secret) <==>
      other in here && Ownership.Answers(here[other], n, secret);
  }

  lemma ReportElsewhere(own: Ownership.Own, node: NodeId, payload: Json, now: Time, n: NodeId)
    requires node != n
    ensures OnlyOwn(Ownership.DeviceReport(own, node, payload, now), n) == OnlyOwn(own, n)
  {
    var own' := Ownership.DeviceReport(own, node, payload, now);
    if own' != own {
      var secret := Ownership.ReportedSecret(node, payload).value;
      var rid :| Ownership.SoleAnswer(own.challenges, node, secret, rid);
      ChallengesProject(own.challenges, rid, own.challenges[rid].(status := Expired), n);
      CompletionProjects(own, rid, now, n);
    }
  }

  /** The report, once the row it answers is known. */
  lemma ReportIs(own: Ownership.Own, node: NodeId, payload: Json, now: Time, rid: string)
    requires
      var secret := Ownership.ReportedSecret(node, payload);
      secret.Some? && Ownership.SoleAnswer(own.challenges, node, secret.value, rid)
    ensures Ownership.DeviceReport(own, node, payload, now) ==
      if own.challenges[rid].expires < now then
        own.(challenges := own.challenges[rid := own.challenges[rid].(status := Expired)])
      else if Ownership.Complete(own, rid, now).Some? then Ownership.Complete(own, rid, now).value
      else own
  {
  }

  lemma ReportHere(own: Ownership.Own, n: NodeId, payload: Json, now: Time)
    ensures OnlyOwn(Ownership.DeviceReport(own, n, payload, now), n) ==
      Ownership.DeviceReport(OnlyOwn(own, n), n, payload, now)
  {
    var (secret, here) := (Ownership.ReportedSecret(n, payload), OnlyOwn(own, n));
    if secret.Some? {
      forall rid ensures Ownership.SoleAnswer(own.challenges, n, secret.value, rid) <==>
                         Ownership.SoleAnswer(here.challenges, n, secret.value, rid) {
        SoleProjects(own.challenges, secret.value, rid, n);
      }
      if rid :| Ownership.SoleAnswer(own.challenges, n, secret.value, rid) {
        assert Ownership.SoleAnswer(here.challenges, n, secret.value, rid);
        ReportIs(own, n, payload, now, rid);
        ReportIs(here, n, payload, now, rid);
        ChallengesProject(own.challenges, rid, own.challenges[rid].(status := Expired), n);
        CompletionProjects(own, rid, now, n);
      }
    }
  }

  lemma EntriesNode(rt: Runtime, node: NodeId, entries: seq<Json>)
    ensures forall row :: row in EntriesRows(rt, node, entries) ==> row.node == node
  {
  }

  lemma NewRowsNode(rt: Runtime, r: Routed)
    requires r.Routed?
    ensures forall row :: row in NewRows(rt, r) ==> row.node == r.node
  {
    if r.handler == SeriesHandler && r.payload.Obj? && GetOr(r.payload.fields, "ts_data", Null).Arr? {
      EntriesNode(rt, r.node, GetOr(r.payload.fields, "ts_data", Null).items);
    }
  }

  lemma RowsProject(table: seq<TsRow>, rows: seq<TsRow>, node: NodeId, n: NodeId)
    requires forall row :: row in rows ==> row.node == node
    ensures OnlyRows(table + rows, n) == OnlyRows(table, n) + if node == n then rows else []
  {
    var here := (row: TsRow) => row.node == n;
    FilterAppend(table, rows, here);
    if node == n {
      FilterAll(rows, here);
    } else {
      FilterSame(rows, here, (row: TsRow) => false);
      FilterNone(rows);
    }
  }

  lemma {:induction false} FilterNone<T(!new)>(s: seq<T>)
    ensures Filter(s, (x: T) => false) == []
  {
    if s != [] {
      FilterNone(s[..|s| - 1]);
    }
  }

  lemma OwnProjects(own: Ownership.Own, r: Routed, n: NodeId)
    ensures OnlyOwn(OwnStep(own, r), n) == if IsFor(r, n) then OwnStep(OnlyOwn(own, n), r) else OnlyOwn(own, n)
  {
    if r.Routed? && r.handler == MappingHandler {
      if r.node == n {
        ReportHere(own, n, r.payload, r.now);
      } else {
        ReportElsewhere(own, r.node, r.payload, r.now, n);
      }
    }
  }

  lemma OwnStepKeepsNodes(own: Ownership.Own, r: Routed)
    ensures OwnStep(own, r).nodes == own.nodes
  {
  }

  lemma SeriesProjects(rt: Runtime, table: seq<TsRow>, r: Routed, n: NodeId)
    ensures OnlyRows(table + NewRows(rt, r), n) == OnlyRows(table, n) + if IsFor(r, n) then NewRows(rt, r) else []
  {
    if r.Dropped? {
      assert table + [] == table;
    } else {
      NewRowsNode(rt, r);
      RowsProject(table, NewRows(rt, r), r.node, n);
    }
  }

  /** One message: it moves the rows of its own node, and looks at no others. */
  lemma HandleProjects(rt: Runtime, s: State, r: Routed, n: NodeId)
    ensures Only(Handle(rt, s, r), n) == if IsFor(r, n) then Handle(rt, Only(s, n), r) else Only(s, n)
  {
    TablesProject(TablesOf(s), r, n);
    OwnProjects(s.own, r, n);
    OwnStepKeepsNodes(s.own, r);
    OwnStepKeepsNodes(Only(s, n).own, r);
    SeriesProjects(rt, s.tsdata, r, n);
    assert TablesOf(Only(s, n)) == OnlyTables(TablesOf(s), n);
  }

  /** Per-node projection: the rows of a node after a log are what its own messages make of its own rows. */
  lemma {:induction false} LogProjects(rt: Runtime, s: State, log: seq<Routed>, n: NodeId)
    ensures Only(HandleAll(rt, s, log), n) == HandleAll(rt, Only(s, n), LogFor(log, n))
  {
    if log != [] {
      var (front, r) := (log[..|log| - 1], log[|log| - 1]);
      LogProjects(rt, s, front, n);
      HandleProjects(rt, HandleAll(rt, s, front), r, n);
      if IsFor(r, n) {
        var before := LogFor(front, n);
        assert (before + [r])[..|before|] == before;
      }
    }
  }

  // ---------- From topics to rows ----------

  lemma RouteOf(m: Message, id: string, suffix: string)
    requires m.topic == NodeTopic(id, suffix) && id != "" && '/' !in id && suffix != ""
    ensures Route(m) ==
      if m.payload.None? || m.payload.value == Null || HandlerOf(suffix).None? then Dropped
      else Routed(id, HandlerOf(suffix).value, m.payload.value, m.now)
  {
    SplitIffPrinted(m.topic, id, suffix);
    var h := HandlerOf(suffix);
  }

  lemma ConfigRouted(rt: Runtime, s: State, id: string, payload: Json, now: Time)
    ensures
      var s' := Handle(rt, s, Routed(id, ConfigHandler, payload, now));
      if !payload.Obj? || (id !in s.own.nodes && |id| > 64) then s' == s
      else
        var version := if "config_version" in payload.fields then payload.fields["config_version"] else Null;
        var seen := s.(own := s.own.(nodes := s.own.nodes + {id}));
        (version == Null ==> s' == seen.(configs := s.configs[id := Config(None, payload.fields)])) &&
        (version.Str? && |version.s| <= 32 ==>
           s' == seen.(configs := s.configs[id := Config(Some(version.s), payload.fields)])) &&
        (version != Null && !(version.Str? && |version.s| <= 32) ==> s' == seen)
  {
    assert s.tsdata + [] == s.tsdata;
    assert id in s.own.nodes ==> s.own.nodes + {id} == s.own.nodes;
  }

  /** A config message keeps the last payload with its version: the node row appears, and, if the version is
      absent, null or a text that fits, exactly that config row is set. */
  lemma ConfigTopic(rt: Runtime, s: State, id: string, payload: Json, now: Time)
    requires id != "" && '/' !in id
    ensures
      var s' := Dispatch(rt, s, Message("node/" + id + "/" + "config", Some(payload), now));
      if !payload.Obj? || (id !in s.own.nodes && |id| > 64) then s' == s
      else
        var version := if "config_version" in payload.fields then payload.fields["config_version"] else Null;
        var seen := s.(own := s.own.(nodes := s.own.nodes + {id}));
        (version == Null ==> s' == seen.(configs := s.configs[id := Config(None, payload.fields)])) &&
        (version.Str? && |version.s| <= 32 ==>
           s' == seen.(configs := s.configs[id := Config(Some(version.s), payload.fields)])) &&
        (version != Null && !(version.Str? && |version.s| <= 32) ==> s' == seen)
  {
    var m := Message("node/" + id + "/" + "config", Some(payload), now);
    RouteOf(m, id, "config");
    ConfigRouted(rt, s, id, payload, now);
    DroppedIsNothing(rt, s);
    assert payload != Null ==> Route(m) == Routed(id, ConfigHandler, payload, now);
  }

  lemma DroppedIsNothing(rt: Runtime, s: State)
    ensures Handle(rt, s, Dropped) == s
  {
    assert s.tsdata + [] == s.tsdata;
  }

  lemma ParamsSuffixes(suffix: string)
    ensures HandlerOf(suffix) == Some(ParamsHandler) <==> suffix == "params/local" || suffix == "params/local/init"
  {
  }

  /** Both params messages merge their object into exactly the node's shadow, or start it. */
  lemma ParamsTopics(rt: Runtime, s: State, id: string, suffix: string, payload: Json, now: Time)
    requires id != "" && '/' !in id && suffix in {"params/local", "params/local/init"}
    ensures
      var s' := Dispatch(rt, s, Message("node/" + id + "/" + suffix, Some(payload), now));
      if !payload.Obj? || (id !in s.own.nodes && |id| > 64) then s' == s
      else
        var shadow := if id in s.shadows then Merge(s.shadows[id], payload.fields) else payload.fields;
        s' == s.(own := s.own.(nodes := s.own.nodes + {id}), shadows := s.shadows[id := shadow])
  {
    var m := Message("node/" + id + "/" + suffix, Some(payload), now);
    ParamsSuffixes(suffix);
    RouteOf(m, id, suffix);
    ParamsRouted(rt, s, id, payload, now);
    DroppedIsNothing(rt, s);
    assert payload != Null ==> Route(m) == Routed(id, ParamsHandler, payload, now);
  }

  lemma ParamsRouted(rt: Runtime, s: State, id: string, payload: Json, now: Time)
    ensures
      var s' := Handle(rt, s, Routed(id, ParamsHandler, payload, now));
      if !payload.Obj? || (id !in s.own.nodes && |id| > 64) then s' == s
      else
        var shadow := if id in s.shadows then Merge(s.shadows[id], payload.fields) else payload.fields;
        s' == s.(own := s.own.(nodes := s.own.nodes + {id}), shadows := s.shadows[id := shadow])
  {
    assert s.tsdata + [] == s.tsdata;
    assert id in s.own.nodes ==> s.own.nodes + {id} == s.own.nodes;
  }

  lemma MappingRouted(rt: Runtime, s: State, id: string, payload: Json, now: Time)
    ensures Handle(rt, s, Routed(id, MappingHandler, payload, now)) ==
      s.(own := Ownership.DeviceReport(s.own, id, payload, now))
  {
    assert s.tsdata + [] == s.tsdata;
    OwnStepKeepsNodes(s.own, Routed(id, MappingHandler, payload, now));
  }

  /** A mapping report is the ownership machine's. */
  lemma MappingTopic(rt: Runtime, s: State, id: string, payload: Json, now: Time)
    requires id != "" && '/' !in id
    ensures Dispatch(rt, s, Message("node/" + id + "/" + "user/mapping", Some(payload), now)) ==
      s.(own := Ownership.DeviceReport(s.own, id, payload, now))
  {
    var m := Message("node/" + id + "/" + "user/mapping", Some(payload), now);
    RouteOf(m, id, "user/mapping");
    MappingRouted(rt, s, id, payload, now);
    DroppedIsNothing(rt, s);
    assert payload != Null ==> Route(m) == Routed(id, MappingHandler, payload, now);
  }

  lemma SeriesRouted(rt: Runtime, s: State, id: string, payload: Json, now: Time)
    ensures Handle(rt, s, Routed(id, SeriesHandler, payload, now)) == s.(tsdata := s.tsdata + BulkRows(rt, id, payload))
    ensures Handle(rt, s, Routed(id, SimpleHandler, payload, now)) ==
      s.(tsdata := s.tsdata + MessageRows(rt, id, payload))
    ensures payload == Null ==>
      s.tsdata + BulkRows(rt, id, payload) == s.tsdata && s.tsdata + MessageRows(rt, id, payload) == s.tsdata
  {
  }

  /** Bulk series messages append their rows to the series, and do nothing else. */
  lemma SeriesTopic(rt: Runtime, s: State, id: string, payload: Json, now: Time)
    requires id != "" && '/' !in id
    ensures Dispatch(rt, s, Message("node/" + id + "/" + "tsdata", Some(payload), now)) ==
      s.(tsdata := s.tsdata + BulkRows(rt, id, payload))
  {
    var m := Message("node/" + id + "/" + "tsdata", Some(payload), now);
    RouteOf(m, id, "tsdata");
    SeriesRouted(rt, s, id, payload, now);
    DroppedIsNothing(rt, s);
    assert payload != Null ==> Route(m) == Routed(id, SeriesHandler, payload, now);
  }

  /** And so do simple ones. */
  lemma SimpleSeriesTopic(rt: Runtime, s: State, id: string, payload: Json, now: Time)
    requires id != "" && '/' !in id
    ensures Dispatch(rt, s, Message("node/" + id + "/" + "simple_tsdata", Some(payload), now)) ==
      s.(tsdata := s.tsdata + MessageRows(rt, id, payload))
  {
    var m := Message("node/" + id + "/" + "simple_tsdata", Some(payload), now);
    RouteOf(m, id, "simple_tsdata");
    SeriesRouted(rt, s, id, payload, now);
    DroppedIsNothing(rt, s);
    assert payload != Null ==> Route(m) == Routed(id, SimpleHandler, payload, now);
  }

  /** The topic is that of a node, with the suffix. */
  ghost predicate IsTopic(topic: string, id: string, suffix: string) {
    id != "" && '/' !in id && topic == "node/" + id + "/" + suffix
  }

  /** Any other message changes nothing: one without a payload, or under any other topic. */
  lemma OtherTopics(rt: Runtime, s: State, m: Message)
    requires m.payload == None || m.payload == Some(Null) ||
      forall id, suffix :: IsTopic(m.topic, id, suffix) ==>
        suffix !in {"config", "params/local", "params/local/init", "user/mapping", "tsdata", "simple_tsdata"}
    ensures Dispatch(rt, s, m) == s
  {
    assert s.tsdata + [] == s.tsdata;
    if SplitTopic(m.topic).Some? && m.payload.Some? && m.payload != Some(Null) {
      var (id, suffix) := SplitTopic(m.topic).value;
      SplitIffPrinted(m.topic, id, suffix);
      assert IsTopic(m.topic, id, suffix);
      assert HandlerOf(suffix).None?;
    }
  }

  lemma SuffixIs(m: Message, n: NodeId, suffix: string)
    requires suffix != ""
    ensures SplitTopic(m.topic) == Some((n, suffix)) <==> IsTopic(m.topic, n, suffix)
  {
    SplitIffPrinted(m.topic, n, suffix);
  }

  lemma RoutedSplit(m: Message, n: NodeId, h: Handler)
    ensures IsFor(Route(m), n) && Route(m).handler == h <==>
      m.payload.Some? && m.payload.value != Null && SplitTopic(m.topic).Some? && SplitTopic(m.topic).value.0 == n &&
      HandlerOf(SplitTopic(m.topic).value.1) == Some(h)
    ensures IsFor(Route(m), n) ==> m.payload.Some? && Route(m).payload == m.payload.value
  {
    if SplitTopic(m.topic).Some? {
      var found := HandlerOf(SplitTopic(m.topic).value.1);
    }
  }

  /** The updates of a node's shadow in a log are the params objects under its two topics. */
  lemma UpdatesAre(m: Message, n: NodeId)
    ensures Updates(Route(m), n) <==>
      m.payload.Some? && m.payload.value.Obj? &&
      (IsTopic(m.topic, n, "params/local") || IsTopic(m.topic, n, "params/local/init"))
    ensures Updates(Route(m), n) ==> Route(m).payload == m.payload.value
  {
    RoutedSplit(m, n, ParamsHandler);
    SuffixIs(m, n, "params/local");
    SuffixIs(m, n, "params/local/init");
    if SplitTopic(m.topic).Some? {
      ParamsSuffixes(SplitTopic(m.topic).value.1);
    }
  }

  lemma ConfigSuffix(suffix: string)
    ensures HandlerOf(suffix) == Some(ConfigHandler) <==> suffix == "config"
  {
  }

  /** Its configs are the objects under its config topic. */
  lemma ConfiguresAre(m: Message, n: NodeId)
    ensures Configures(Route(m), n) <==> m.payload.Some? && m.payload.value.Obj? && IsTopic(m.topic, n, "config")
    ensures Configures(Route(m), n) ==> Route(m).payload == m.payload.value
  {
    RoutedSplit(m, n, ConfigHandler);
    SuffixIs(m, n, "config");
    if SplitTopic(m.topic).Some? {
      ConfigSuffix(SplitTopic(m.topic).value.1);
    }
  }

  // ---------- Clocks ----------

  /** The message without its clock. */
  function Untimed(r: Routed): Routed {
    if r.Dropped? then r else r.(now := 0)
  }

  /** The message with its clock only if the handler looks at it. */
  function Stamped(r: Routed): Routed {
    if r.Routed? && r.handler == MappingHandler then r else Untimed(r)
  }

  function Each(log: seq<Routed>, f: Routed -> Routed): (r: seq<Routed>)
    ensures |r| == |log| && forall i :: 0 <= i < |log| ==> r[i] == f(log[i])
  {
    seq(|log|, i requires 0 <= i < |log| => f(log[i]))
  }

  lemma EachAppend(a: seq<Routed>, b: seq<Routed>, f: Routed -> Routed)
    ensures Each(a + b, f) == Each(a, f) + Each(b, f)
  {
  }

  lemma {:induction false} EachProjects(log: seq<Routed>, f: Routed -> Routed, n: NodeId)
    requires forall r :: IsFor(f(r), n) <==> IsFor(r, n)
    ensures LogFor(Each(log, f), n) == Each(LogFor(log, n), f)
  {
    if log != [] {
      var (front, r) := (log[..|log| - 1], log[|log| - 1]);
      EachProjects(front, f, n);
      assert log == front + [r];
      EachAppend(front, [r], f);
      var here := (r: Routed) => IsFor(r, n);
      FilterSnoc(Each(front, f), f(r), here);
      FilterSnoc(front, r, here);
      assert Each(front, f) + [f(r)] == Each(log, f);
      EachAppend(LogFor(front, n), [r], f);
    }
  }

  /** Only a mapping report depends on when it is dispatched. */
  lemma {:induction false} OnlyReportsAreTimed(rt: Runtime, s: State, log: seq<Routed>)
    ensures HandleAll(rt, s, Each(log, Stamped)) == HandleAll(rt, s, log)
  {
    if log != [] {
      var (front, r) := (log[..|log| - 1], log[|log| - 1]);
      OnlyReportsAreTimed(rt, s, front);
      assert Each(log, Stamped)[..|log| - 1] == Each(front, Stamped);
    }
  }

  /** Configs, shadows, node rows and time series depend on no clock. */
  lemma {:induction false} RowsAreTimeless(rt: Runtime, s: State, log: seq<Routed>)
    ensures
      var (timed, untimed) := (HandleAll(rt, s, log), HandleAll(rt, s, Each(log, Untimed)));
      TablesOf(timed) == TablesOf(untimed) && timed.tsdata == untimed.tsdata
  {
    if log != [] {
      var (front, r) := (log[..|log| - 1], log[|log| - 1]);
      RowsAreTimeless(rt, s, front);
      assert Each(log, Untimed)[..|log| - 1] == Each(front, Untimed);
    }
  }

  /** Hence two interleavings that keep each node's order, dispatched by replicas at whatever times, end
      with the same configs, shadows, node rows and time series of every node; and with the same rows
      altogether if the node's mapping reports come at the same times. */
  lemma InterleavingsAgree(rt: Runtime, s: State, log: seq<Routed>, log': seq<Routed>, n: NodeId)
    requires Each(LogFor(log, n), Untimed) == Each(LogFor(log', n), Untimed)
    ensures
      var (here, here') := (Only(HandleAll(rt, s, log), n), Only(HandleAll(rt, s, log'), n));
      TablesOf(here) == TablesOf(here') && here.tsdata == here'.tsdata &&
      (Each(LogFor(log, n), Stamped) == Each(LogFor(log', n), Stamped) ==> here == here')
  {
    EachProjects(log, Untimed, n);
    EachProjects(log', Untimed, n);
    RowsAreTimeless(rt, s, log);
    RowsAreTimeless(rt, s, log');
    LogProjects(rt, s, Each(log, Untimed), n);
    LogProjects(rt, s, Each(log', Untimed), n);
    if Each(LogFor(log, n), Stamped) == Each(LogFor(log', n), Stamped) {
      StampedAgree(rt, s, log, log', n);
    }
  }

  lemma StampedAgree(rt: Runtime, s: State, log: seq<Routed>, log': seq<Routed>, n: NodeId)
    requires Each(LogFor(log, n), Stamped) == Each(LogFor(log', n), Stamped)
    ensures Only(HandleAll(rt, s, log), n) == Only(HandleAll(rt, s, log'), n)
  {
    EachProjects(log, Stamped, n);
    EachProjects(log', Stamped, n);
    OnlyReportsAreTimed(rt, s, log);
    OnlyReportsAreTimed(rt, s, log');
    LogProjects(rt, s, Each(log, Stamped), n);
    LogProjects(rt, s, Each(log', Stamped), n);
  }

  /** Dispatching a node's messages alone gives that node the same rows as the whole log. */
  lemma OwnMessagesSuffice(rt: Runtime, s: State, log: seq<Routed>, n: NodeId)
    ensures Only(HandleAll(rt, s, LogFor(log, n)), n) == Only(HandleAll(rt, s, log), n)
  {
    LogProjects(rt, s, log, n);
    LogProjects(rt, s, LogFor(log, n), n);
    FilterAll(LogFor(log, n), (r: Routed) => IsFor(r, n));
  }

  /** What a device may publish changes no rows but its own, if its name is a single topic level. */
  lemma PublishConfined(rt: Runtime, s: State, backend: string, cn: string, m: Message, n: NodeId)
    requires PublishOk(backend, Some(cn), m.topic) && cn != backend && '/' !in cn && n != cn
    ensures Only(Dispatch(rt, s, m), n) == Only(s, n)
  {
    SlashFreeIsAttributed(cn, m.topic);
    HandleProjects(rt, s, Route(m), n);
  }

  /** To the ownership machine a message is at most a node appearing or a device reporting. */
  lemma MessageIsOwnershipStep(rt: Runtime, s: State, r: Routed)
    ensures
      var own' := Handle(rt, s, r).own;
      own' == s.own ||
      (r.Routed? && own' == Ownership.Step(s.own, Ownership.NodeAppears(r.node))) ||
      (r.Routed? && own' == Ownership.Step(s.own, Ownership.DeviceReports(r.node, r.payload, r.now)))
  {
    OwnStepKeepsNodes(s.own, r);
    if r.Routed? {
      assert r.node in s.own.nodes ==> s.own.nodes + {r.node} == s.own.nodes;
    }
  }

  /** So a whole log keeps its invariant, and access stays accounted for. */
  lemma {:induction false} LogKeepsOwnership(rt: Runtime, s: State, log: seq<Routed>)
    requires Ownership.Inv(s.own)
    ensures Ownership.Inv(HandleAll(rt, s, log).own)
  {
    if log != [] {
      var (before, r) := (HandleAll(rt, s, log[..|log| - 1]), log[|log| - 1]);
      LogKeepsOwnership(rt, s, log[..|log| - 1]);
      MessageIsOwnershipStep(rt, before, r);
      if r.Routed? {
        Ownership.StepKeepsInv(before.own, Ownership.NodeAppears(r.node));
        Ownership.StepKeepsInv(before.own, Ownership.DeviceReports(r.node, r.payload, r.now));
      }
      assert HandleAll(rt, s, log) == Handle(rt, before, r);
    }
  }

  // ---------- Redelivery ----------

  function TablesAll(t: Tables, log: seq<Routed>): Tables {
    if log == [] then t else TablesStep(TablesAll(t, log[..|log| - 1]), log[|log| - 1])
  }

  lemma {:induction false} TablesAppend(t: Tables, a: seq<Routed>, b: seq<Routed>)
    ensures TablesAll(t, a + b) == TablesAll(TablesAll(t, a), b)
  {
    if b == [] {
      assert a + b == a;
    } else {
      assert (a + b)[..|a + b| - 1] == a + b[..|b| - 1];
      TablesAppend(t, a, b[..|b| - 1]);
    }
  }

  /** Configs, shadows and node rows evolve by themselves, whatever other messages are in the log. */
  lemma {:induction false} TablesAreSeparate(rt: Runtime, s: State, log: seq<Routed>)
    ensures TablesOf(HandleAll(rt, s, log)) == TablesAll(TablesOf(s), log)
  {
    if log != [] {
      TablesAreSeparate(rt, s, log[..|log| - 1]);
    }
  }

  /** The node's row exists or can be created. */
  predicate Admits(t: Tables, n: NodeId) {
    n in t.nodes || FitsNodeId(n)
  }

  predicate Updates(r: Routed, n: NodeId) {
    IsFor(r, n) && r.handler == ParamsHandler && r.payload.Obj?
  }

  predicate Configures(r: Routed, n: NodeId) {
    IsFor(r, n) && r.handler == ConfigHandler && r.payload.Obj?
  }

  /** The params updates for node `n`. */
  function UpdatesFor(log: seq<Routed>, n: NodeId): (us: seq<Params>)
    ensures forall r :: r in log && Updates(r, n) ==> r.payload.fields in us
    ensures forall u :: u in us ==> exists r :: r in log && Updates(r, n) && r.payload.fields == u
  {
    if log == [] then []
    else
      var (front, r) := (log[..|log| - 1], log[|log| - 1]);
      assert log == front + [r];
      if Updates(r, n) then UpdatesFor(front, n) + [r.payload.fields] else UpdatesFor(front, n)
  }

  /** The config that the log leaves for node `n`, given the one before it. */
  function ConfigAfter(c: Option<Config>, log: seq<Routed>, n: NodeId): Option<Config> {
    if log == [] then c
    else
      var (before, r) := (ConfigAfter(c, log[..|log| - 1], n), log[|log| - 1]);
      if Configures(r, n) && VersionOf(r.payload.fields).Some? then
        Some(Config(VersionOf(r.payload.fields).value, r.payload.fields))
      else before
  }

  /** What one message does to the rows of `n`. */
  lemma RowsStep(t: Tables, r: Routed, n: NodeId)
    ensures
      var t' := TablesStep(t, r);
      (n in t'.nodes <==> n in t.nodes || (FitsNodeId(n) && (Updates(r, n) || Configures(r, n)))) &&
      Lookup(t'.shadows, n) ==
        (if Updates(r, n) && Admits(t, n) then Upsert(Lookup(t.shadows, n), r.payload.fields)
         else Lookup(t.shadows, n)) &&
      Lookup(t'.configs, n) ==
        (if Configures(r, n) && Admits(t, n) then ConfigAfter(Lookup(t.configs, n), [r], n) else Lookup(t.configs, n))
  {
    assert [r][..0] == [] && [r][0] == r;
  }

  predicate Mentions(log: seq<Routed>, n: NodeId) {
    exists r :: r in log && (Updates(r, n) || Configures(r, n))
  }

  /** A node row appears with the first config or params object, if its id fits. */
  lemma {:induction false} NodesAfter(t: Tables, log: seq<Routed>, n: NodeId)
    ensures n in TablesAll(t, log).nodes <==> n in t.nodes || (FitsNodeId(n) && Mentions(log, n))
  {
    if log != [] {
      var (front, r) := (log[..|log| - 1], log[|log| - 1]);
      NodesAfter(t, front, n);
      RowsStep(TablesAll(t, front), r, n);
      assert forall x :: x in log <==> x in front || x == r;
    }
  }

  /** The shadow row is the upsert of the node's own updates, in order. */
  lemma {:induction false} ShadowAfter(t: Tables, log: seq<Routed>, n: NodeId)
    ensures Lookup(TablesAll(t, log).shadows, n) ==
      if Admits(t, n) then UpsertAll(Lookup(t.shadows, n), UpdatesFor(log, n)) else Lookup(t.shadows, n)
  {
    if log != [] {
      var (front, r) := (log[..|log| - 1], log[|log| - 1]);
      ShadowAfter(t, front, n);
      NodesAfter(t, front, n);
      RowsStep(TablesAll(t, front), r, n);
      var us := UpdatesFor(front, n);
      if Updates(r, n) {
        assert (us + [r.payload.fields])[..|us|] == us;
      }
    }
  }

  lemma {:induction false} ConfigIsLast(t: Tables, log: seq<Routed>, n: NodeId)
    ensures Lookup(TablesAll(t, log).configs, n) ==
      if Admits(t, n) then ConfigAfter(Lookup(t.configs, n), log, n) else Lookup(t.configs, n)
  {
    if log != [] {
      var (front, r) := (log[..|log| - 1], log[|log| - 1]);
      ConfigIsLast(t, front, n);
      NodesAfter(t, front, n);
      RowsStep(TablesAll(t, front), r, n);
      ConfigAppend(Lookup(t.configs, n), front, [r], n);
      assert log == front + [r];
      assert [r][..0] == [];
    }
  }

  lemma {:induction false} UpdatesAppend(a: seq<Routed>, b: seq<Routed>, n: NodeId)
    ensures UpdatesFor(a + b, n) == UpdatesFor(a, n) + UpdatesFor(b, n)
  {
    if b == [] {
      assert a + b == a;
    } else {
      assert (a + b)[..|a + b| - 1] == a + b[..|b| - 1];
      UpdatesAppend(a, b[..|b| - 1], n);
    }
  }

  lemma {:induction false} ConfigAppend(c: Option<Config>, a: seq<Routed>, b: seq<Routed>, n: NodeId)
    ensures ConfigAfter(c, a + b, n) == ConfigAfter(ConfigAfter(c, a, n), b, n)
  {
    if b == [] {
      assert a + b == a;
    } else {
      assert (a + b)[..|a + b| - 1] == a + b[..|b| - 1];
      ConfigAppend(c, a, b[..|b| - 1], n);
    }
  }

  /** A log settles the config of `n` regardless of the one before, or leaves it alone. */
  lemma {:induction false} ConfigSettles(c: Option<Config>, log: seq<Routed>, n: NodeId)
    ensures ConfigAfter(c, log, n) == if ConfigAfter(None, log, n).Some? then ConfigAfter(None, log, n) else c
  {
    if log != [] {
      ConfigSettles(c, log[..|log| - 1], n);
    }
  }

  lemma {:induction false} NoConfigIn(log: seq<Routed>, noise: seq<Routed>, n: NodeId)
    requires ConfigAfter(None, log, n) == None && forall r :: r in noise ==> r in log
    ensures ConfigAfter(None, noise, n) == None
  {
    if noise != [] {
      NoConfigIn(log, noise[..|noise| - 1], n);
      assert noise[|noise| - 1] in noise;
      NoConfigAt(log, noise[|noise| - 1], n);
    }
  }

  lemma {:induction false} NoConfigAt(log: seq<Routed>, r: Routed, n: NodeId)
    requires ConfigAfter(None, log, n) == None && r in log
    ensures !(Configures(r, n) && VersionOf(r.payload.fields).Some?)
  {
    if r in log[..|log| - 1] {
      NoConfigAt(log[..|log| - 1], r, n);
    }
  }

  /** Replaying a log, clocks and all. */
  lemma ReplayTolerated(t: Tables, log: seq<Routed>, noise: seq<Routed>)
    requires forall r :: r in noise ==> r in log
    ensures TablesAll(t, log + noise + log) == TablesAll(t, log)
  {
    var (t', t'') := (TablesAll(t, log), TablesAll(t, log + noise + log));
    forall n ensures Lookup(t''.shadows, n) == Lookup(t'.shadows, n) {
      ShadowAfter(t, log, n);
      ShadowAfter(t, log + noise + log, n);
      ShadowRestored(Lookup(t.shadows, n), log, noise, n);
    }
    SameRows(t''.shadows, t'.shadows);
    forall n ensures Lookup(t''.configs, n) == Lookup(t'.configs, n) {
      ConfigIsLast(t, log, n);
      ConfigIsLast(t, log + noise + log, n);
      ConfigRestored(Lookup(t.configs, n), log, noise, n);
    }
    SameRows(t''.configs, t'.configs);
    forall n ensures n in t''.nodes <==> n in t'.nodes {
      NodesAfter(t, log, n);
      NodesAfter(t, log + noise + log, n);
      assert forall r :: r in log + noise + log <==> r in log;
      assert Mentions(log + noise + log, n) <==> Mentions(log, n);
    }
    assert t''.nodes == t'.nodes;
  }

  lemma SameRows<V>(a: map<NodeId, V>, b: map<NodeId, V>)
    requires forall n :: Lookup(a, n) == Lookup(b, n)
    ensures a == b
  {
    assert forall n :: n in a <==> Lookup(a, n).Some?;
    assert forall n :: n in b <==> Lookup(b, n).Some?;
    forall n | n in a ensures n in b && a[n] == b[n] {
      assert Lookup(a, n) == Lookup(b, n);
    }
  }

  lemma ShadowRestored(row: Option<Params>, log: seq<Routed>, noise: seq<Routed>, n: NodeId)
    requires forall r :: r in noise ==> r in log
    ensures UpsertAll(row, UpdatesFor(log + noise + log, n)) == UpsertAll(row, UpdatesFor(log, n))
  {
    var (us, vs) := (UpdatesFor(log, n), UpdatesFor(noise, n));
    UpdatesAppend(log + noise, log, n);
    UpdatesAppend(log, noise, n);
    assert forall u :: u in vs ==> u in us;
    UpsertIsReplay(row, us);
    UpsertIsReplay(row, us + vs + us);
    RedeliveryRestores(if row.None? then map[] else row.value, us, vs);
    NonEmptyHas(vs);
  }

  lemma ConfigRestored(c: Option<Config>, log: seq<Routed>, noise: seq<Routed>, n: NodeId)
    requires forall r :: r in noise ==> r in log
    ensures ConfigAfter(c, log + noise + log, n) == ConfigAfter(c, log, n)
  {
    ConfigAppend(c, log + noise, log, n);
    ConfigAppend(c, log, noise, n);
    ConfigSettles(c, log, n);
    ConfigSettles(ConfigAfter(c, log, n), noise, n);
    ConfigSettles(ConfigAfter(c, log + noise, n), log, n);
    if ConfigAfter(None, log, n) == None {
      NoConfigIn(log, noise, n);
    }
  }

  lemma {:induction false} TablesAreTimeless(t: Tables, log: seq<Routed>)
    ensures TablesAll(t, Each(log, Untimed)) == TablesAll(t, log)
  {
    if log != [] {
      TablesAreTimeless(t, log[..|log| - 1]);
      assert Each(log, Untimed)[..|log| - 1] == Each(log[..|log| - 1], Untimed);
    }
  }

  /** `r` is a message of the log, dispatched at whatever time. */
  predicate Repeats(log: seq<Routed>, r: Routed) {
    Untimed(r) in Each(log, Untimed)
  }

  /** Redelivery tolerance: after a stretch of log, any of its messages may come again at any time, in any
      order and number; once the stretch has been redelivered in order, everything is as it was. */
  lemma RedeliveryTolerated(t: Tables, log: seq<Routed>, noise: seq<Routed>, again: seq<Routed>)
    requires forall r :: r in noise ==> Repeats(log, r)
    requires Each(again, Untimed) == Each(log, Untimed)
    ensures TablesAll(t, log + noise + again) == TablesAll(t, log)
  {
    EachAppend(log + noise, again, Untimed);
    EachAppend(log, noise, Untimed);
    forall r | r in Each(noise, Untimed) ensures r in Each(log, Untimed) {
      var i :| 0 <= i < |noise| && Each(noise, Untimed)[i] == r;
      assert noise[i] in noise;
    }
    ReplayTolerated(t, Each(log, Untimed), Each(noise, Untimed));
    TablesAreTimeless(t, log + noise + again);
    TablesAreTimeless(t, log);
  }

  /** One step of an at-least-once delivery: the next message, or the messages since `from` once more as
      `again`, after any failed attempts to redeliver them. */
  datatype Delivery = Fresh | Again(from: nat, attempts: seq<Routed>, again: seq<Routed>)

  /** The redelivery is of what the log delivered from `from` on, at later dispatches. */
  predicate Redelivers(sent: seq<Routed>, d: Delivery)
    requires d.Again?
  {
    d.from <= |sent| && Each(d.again, Untimed) == Each(sent[d.from..], Untimed) &&
    forall r :: r in d.attempts ==> Repeats(sent[d.from..], r)
  }

  /** How many messages of the log have been delivered, and what the ingestor saw; none when a
      redelivery is not made of what was delivered since its start. */
  ghost function Seen(log: seq<Routed>, ds: seq<Delivery>): (r: Option<(nat, seq<Routed>)>)
    ensures r.Some? ==> r.value.0 <= |log|
  {
    if ds == [] then Some((0, []))
    else
      match Seen(log, ds[..|ds| - 1])
      case None => None
      case Some((k, seen)) =>
        var d := ds[|ds| - 1];
        match d
        case Fresh => if k < |log| then Some((k + 1, seen + [log[k]])) else None
        case Again(from, attempts, again) =>
          if Redelivers(log[..k], d) then Some((k, seen + attempts + again)) else None
  }

  lemma AgainRestores(t: Tables, seen: seq<Routed>, sent: seq<Routed>, d: Delivery)
    requires d.Again? && Redelivers(sent, d) && TablesAll(t, seen) == TablesAll(t, sent)
    ensures TablesAll(t, seen + d.attempts + d.again) == TablesAll(t, sent)
  {
    var (before, stretch) := (sent[..d.from], sent[d.from..]);
    var start := TablesAll(t, before);
    assert sent == before + stretch;
    TablesAppend(t, before, stretch);
    TablesAppend(t, seen + d.attempts, d.again);
    TablesAppend(t, seen, d.attempts);
    RedeliveryTolerated(start, stretch, d.attempts, d.again);
    TablesAppend(start, stretch + d.attempts, d.again);
    TablesAppend(start, stretch, d.attempts);
  }

  /** Logs redelivered as in sections 4.3.2 and 4.6 of MQTT 3.1.1 give the configs, shadows and nodes of
      the original log. */
  lemma {:induction false} AtLeastOnceIsEnough(t: Tables, log: seq<Routed>, ds: seq<Delivery>)
    requires Seen(log, ds).Some?
    ensures TablesAll(t, Seen(log, ds).value.1) == TablesAll(t, log[..Seen(log, ds).value.0])
  {
    if ds != [] {
      var (front, d) := (ds[..|ds| - 1], ds[|ds| - 1]);
      AtLeastOnceIsEnough(t, log, front);
      var (k, seen) := Seen(log, front).value;
      match d {
        case Fresh =>
          TakeSnoc(log, k);
          TablesAppend(t, seen, [log[k]]);
          TablesAppend(t, log[..k], [log[k]]);
        case Again(from, attempts, again) => AgainRestores(t, seen, log[..k], d);
      }
    }
  }

  /** The same about the whole ingestor, with messages of every kind in the log. */
  lemma RedeliveredLogsAgree(rt: Runtime, s: State, log: seq<Routed>, ds: seq<Delivery>)
    requires Seen(log, ds).Some? && Seen(log, ds).value.0 == |log|
    ensures TablesOf(HandleAll(rt, s, Seen(log, ds).value.1)) == TablesOf(HandleAll(rt, s, log))
  {
    AtLeastOnceIsEnough(TablesOf(s), log, ds);
    TablesAreSeparate(rt, s, Seen(log, ds).value.1);
    TablesAreSeparate(rt, s, log);
    assert log[..|log|] == log;
  }

  /** The stored shadow of a node is the last-writer view of the params messages sent for it. */
  lemma StoredShadowIsLastWriter(rt: Runtime, s: State, log: seq<Routed>, n: NodeId, d: string, p: string, v: Json)
    requires n !in s.shadows && Admits(TablesOf(s), n)
    ensures
      var row := Lookup(HandleAll(rt, s, log).shadows, n);
      (row.Some? && HoldsParam(row.value, d, p, v)) <==> exists i: nat :: LastWord(UpdatesFor(log, n), i, d, p, v)
  {
    TablesAreSeparate(rt, s, log);
    ShadowAfter(TablesOf(s), log, n);
    UpsertIsReplay(None, UpdatesFor(log, n));
    ShadowIsLastWriter(UpdatesFor(log, n), d, p, v);
  }

  function Routes(ms: seq<Message>): (log: seq<Routed>)
    ensures |log| == |ms| && forall i :: 0 <= i < |ms| ==> log[i] == Route(ms[i])
  {
    seq(|ms|, i requires 0 <= i < |ms| => Route(ms[i]))
  }

  /** The ingestor's loop over what it is delivered. */
  ghost function DispatchAll(rt: Runtime, s: State, ms: seq<Message>): State {
    if ms == [] then s else Dispatch(rt, DispatchAll(rt, s, ms[..|ms| - 1]), ms[|ms| - 1])
  }

  lemma {:induction false} DispatchIsHandle(rt: Runtime, s: State, ms: seq<Message>)
    ensures DispatchAll(rt, s, ms) == HandleAll(rt, s, Routes(ms))
  {
    if ms != [] {
      DispatchIsHandle(rt, s, ms[..|ms| - 1]);
      assert Routes(ms)[..|ms| - 1] == Routes(ms[..|ms| - 1]);
    }
  }

  /** The message carries a params object of the node. */
  ghost predicate SendsParams(m: Message, n: NodeId) {
    m.payload.Some? && m.payload.value.Obj? &&
    (IsTopic(m.topic, n, "params/local") || IsTopic(m.topic, n, "params/local/init"))
  }

  ghost function ParamsSent(ms: seq<Message>, n: NodeId): seq<Params> {
    if ms == [] then []
    else
      var (before, m) := (ParamsSent(ms[..|ms| - 1], n), ms[|ms| - 1]);
      if SendsParams(m, n) then before + [m.payload.value.fields] else before
  }

  lemma {:induction false} SentAreUpdates(ms: seq<Message>, n: NodeId)
    ensures UpdatesFor(Routes(ms), n) == ParamsSent(ms, n)
  {
    if ms != [] {
      SentAreUpdates(ms[..|ms| - 1], n);
      assert Routes(ms)[..|ms| - 1] == Routes(ms[..|ms| - 1]);
      UpdatesAre(ms[|ms| - 1], n);
    }
  }

  /** From topics to shadows: whatever is delivered, the shadow of a node new to it is the last-writer view of
      the params objects under the node's own topics. */
  lemma DeliveredShadowIsLastWriter(
    rt: Runtime, s: State, ms: seq<Message>, n: NodeId, d: string, p: string, v: Json)
    requires n !in s.shadows && (n in s.own.nodes || |n| <= 64)
    ensures
      var row := Lookup(DispatchAll(rt, s, ms).shadows, n);
      (row.Some? && HoldsParam(row.value, d, p, v)) <==> exists i: nat :: LastWord(ParamsSent(ms, n), i, d, p, v)
  {
    DispatchIsHandle(rt, s, ms);
    SentAreUpdates(ms, n);
    StoredShadowIsLastWriter(rt, s, Routes(ms), n, d, p, v);
  }

  // ---------- Redelivered time series ----------

  lemma HandleSnoc(rt: Runtime, s: State, log: seq<Routed>, r: Routed)
    ensures HandleAll(rt, s, log + [r]) == Handle(rt, HandleAll(rt, s, log), r)
  {
  }

  function Straight(k: nat): (ds: seq<Delivery>)
    ensures |ds| == k
  {
    if k == 0 then [] else Straight(k - 1) + [Fresh]
  }

  lemma {:induction false} StraightSees(log: seq<Routed>, k: nat)
    requires k <= |log|
    ensures Seen(log, Straight(k)) == Some((k, log[..k]))
  {
    if k > 0 {
      StraightSees(log, k - 1);
      assert Straight(k)[..k - 1] == Straight(k - 1);
      assert log[..k] == log[..k - 1] + [log[k - 1]];
    }
  }

  lemma SeenAgain(log: seq<Routed>, ds: seq<Delivery>, d: Delivery, k: nat, seen: seq<Routed>)
    requires Seen(log, ds) == Some((k, seen)) && d.Again? && Redelivers(log[..k], d)
    ensures Seen(log, ds + [d]) == Some((k, seen + d.attempts + d.again))
  {
  }

  lemma RedeliversLast(log: seq<Routed>, i: nat, again: Routed)
    requires i < |log| && Untimed(again) == Untimed(log[i])
    ensures Redelivers(log[..i + 1], Again(i, [], [again]))
  {
    assert log[..i + 1][i..] == [log[i]];
    assert Each([again], Untimed) == Each([log[i]], Untimed);
  }

  lemma AgainLast(log: seq<Routed>, i: nat, again: Routed)
    requires i < |log| && Untimed(again) == Untimed(log[i])
    ensures Seen(log, Straight(i + 1) + [Again(i, [], [again])]) == Some((i + 1, log[..i + 1] + [again]))
  {
    StraightSees(log, i + 1);
    RedeliversLast(log, i, again);
    SeenAgain(log, Straight(i + 1), Again(i, [], [again]), i + 1, log[..i + 1]);
    assert log[..i + 1] + [] == log[..i + 1];
  }

  /** The message stores a row: a simple one by its name, time and value, a bulk one by some record of an
      entry before the first that raises. */
  ghost predicate StoresRows(rt: Runtime, r: Routed) {
    r.Routed? && r.payload.Obj? &&
    var fields := r.payload.fields;
    match r.handler
    case SimpleHandler =>
      NameOf(fields).Named? && StampOf(rt, fields).At? &&
      var series := Series(r.node, NameOf(fields).device, NameOf(fields).param);
      PointRow(rt, series, TypeOf(fields), StampOf(rt, fields).ts, GetOr(fields, "v", Null)).Some?
    case SeriesHandler =>
      var entries := GetOr(fields, "ts_data", Null);
      entries.Arr? && exists row :: FromHandled(rt, r.node, entries.items, row)
    case _ => false
  }

  lemma StoresRowsIff(rt: Runtime, r: Routed)
    ensures StoresRows(rt, r) <==> NewRows(rt, r) != []
  {
    if r.Routed? && r.payload.Obj? {
      if r.handler == SimpleHandler {
        SimpleStores(rt, r.node, r.payload.fields);
      } else if r.handler == SeriesHandler && GetOr(r.payload.fields, "ts_data", Null).Arr? {
        var entries := GetOr(r.payload.fields, "ts_data", Null).items;
        forall row ensures row in EntriesRows(rt, r.node, entries) <==> FromHandled(rt, r.node, entries, row) {
          BulkStoresExactly(rt, r.node, entries, row);
        }
        NonEmptyHas(EntriesRows(rt, r.node, entries));
      }
    }
  }

  /** Time series do not tolerate redelivery: a message leaves the table alone when it comes again exactly
      if it stored nothing the first time. */
  lemma SeriesRepeat(rt: Runtime, s: State, r: Routed, again: Routed)
    requires Untimed(again) == Untimed(r)
    ensures Handle(rt, Handle(rt, s, r), again).tsdata == Handle(rt, s, r).tsdata <==> !StoresRows(rt, r)
    ensures Handle(rt, Handle(rt, s, r), again).tsdata == s.tsdata + NewRows(rt, r) + NewRows(rt, r)
  {
    StoresRowsIff(rt, r);
    assert NewRows(rt, again) == NewRows(rt, r);
  }

  lemma {:induction false} SeenRepeats(log: seq<Routed>, ds: seq<Delivery>, r: Routed)
    requires Seen(log, ds).Some? && r in Seen(log, ds).value.1
    ensures Repeats(log, r)
  {
    if ds != [] {
      var (front, d) := (ds[..|ds| - 1], ds[|ds| - 1]);
      var (k, seen) := Seen(log, front).value;
      if r in seen {
        SeenRepeats(log, front, r);
      } else if d.Fresh? {
        assert Each(log, Untimed)[k] == Untimed(r);
      } else {
        RedeliveryRepeats(log[..k], d, r);
        var i :| 0 <= i < k && Each(log[..k], Untimed)[i] == Untimed(r);
        assert Each(log, Untimed)[i] == Untimed(r);
      }
    }
  }

  lemma RepeatsMore(sent: seq<Routed>, from: nat, r: Routed)
    requires from <= |sent| && Repeats(sent[from..], r)
    ensures Repeats(sent, r)
  {
    var i :| 0 <= i < |sent[from..]| && Each(sent[from..], Untimed)[i] == Untimed(r);
    assert Each(sent, Untimed)[from + i] == Untimed(r);
  }

  lemma RedeliveryRepeats(sent: seq<Routed>, d: Delivery, r: Routed)
    requires d.Again? && Redelivers(sent, d) && r in d.attempts + d.again
    ensures Repeats(sent, r)
  {
    if r !in d.attempts {
      var j :| 0 <= j < |d.again| && d.again[j] == r;
      assert Each(d.again, Untimed)[j] == Untimed(r);
    }
    RepeatsMore(sent, d.from, r);
  }

  lemma {:induction false} NothingStored(rt: Runtime, s: State, log: seq<Routed>)
    requires forall r :: r in log ==> !StoresRows(rt, r)
    ensures HandleAll(rt, s, log).tsdata == s.tsdata
  {
    if log != [] {
      NothingStored(rt, s, log[..|log| - 1]);
      assert log[|log| - 1] in log;
      StoresRowsIff(rt, log[|log| - 1]);
    }
  }

  lemma RepeatStoresNothing(rt: Runtime, log: seq<Routed>, r: Routed)
    requires (forall x :: x in log ==> !StoresRows(rt, x)) && Repeats(log, r)
    ensures !StoresRows(rt, r)
  {
    var i :| 0 <= i < |log| && Each(log, Untimed)[i] == Untimed(r);
    assert !StoresRows(rt, log[i]);
  }

  ghost predicate SameSeries(rt: Runtime, s: State, log: seq<Routed>, ds: seq<Delivery>)
    requires Seen(log, ds).Some?
  {
    var (k, seen) := Seen(log, ds).value;
    HandleAll(rt, s, seen).tsdata == HandleAll(rt, s, log[..k]).tsdata
  }

  lemma SomethingRepeats(rt: Runtime, s: State, log: seq<Routed>, i: nat) returns (ds: seq<Delivery>)
    requires i < |log| && StoresRows(rt, log[i])
    ensures Seen(log, ds).Some? && !SameSeries(rt, s, log, ds)
  {
    var r := log[i];
    ds := Straight(i + 1) + [Again(i, [], [r])];
    AgainLast(log, i, r);
    TakeSnoc(log, i);
    HandleSnoc(rt, s, log[..i], r);
    HandleSnoc(rt, s, log[..i + 1], r);
    SeriesRepeat(rt, HandleAll(rt, s, log[..i]), r, r);
  }

  lemma NothingRepeats(rt: Runtime, s: State, log: seq<Routed>, ds: seq<Delivery>)
    requires Seen(log, ds).Some? && forall r :: r in log ==> !StoresRows(rt, r)
    ensures SameSeries(rt, s, log, ds)
  {
    var (k, seen) := Seen(log, ds).value;
    forall r | r in seen ensures !StoresRows(rt, r) {
      SeenRepeats(log, ds, r);
      RepeatStoresNothing(rt, log, r);
    }
    NothingStored(rt, s, seen);
    NothingStored(rt, s, log[..k]);
  }

  /** Over whole deliveries: every at-least-once delivery of a log, at any time during it, leaves the time
      series of the log itself, if and only if no message of the log stores a row. */
  lemma RedeliveredSeriesIff(rt: Runtime, s: State, log: seq<Routed>)
    ensures (forall ds :: Seen(log, ds).Some? ==> SameSeries(rt, s, log, ds)) <==>
      forall r :: r in log ==> !StoresRows(rt, r)
  {
    if i :| 0 <= i < |log| && StoresRows(rt, log[i]) {
      var _ := SomethingRepeats(rt, s, log, i);
    } else {
      forall ds | Seen(log, ds).Some? ensures SameSeries(rt, s, log, ds) {
        NothingRepeats(rt, s, log, ds);
      }
    }
  }

  function SimpleMessage(name: string, t: int, v: int): map<string, Json> {
    map["name" := Str(name), "t" := Int(t), "v" := Int(v)]
  }

  /** For one, the brightness a light sent is stored once more. */
  lemma BrightnessRepeats(rt: Runtime, s: State, now: Time, later: Time)
    requires rt.clock(0).At?
    ensures
      var payload := Obj(SimpleMessage("Light.brightness", 0, 70));
      var (r, again) := (Routed("n1", SimpleHandler, payload, now), Routed("n1", SimpleHandler, payload, later));
      var row := TsRow(rt.clock(0).ts, "n1", "Light", "brightness", "int", Some(70), None, None, None);
      Handle(rt, Handle(rt, s, r), again).tsdata == s.tsdata + [row] + [row]
  {
    var payload := Obj(SimpleMessage("Light.brightness", 0, 70));
    assert "Light" + ['.'] + "brightness" == "Light.brightness";
    SimpleRow(rt, Series("n1", "Light", "brightness"), "Light.brightness", 0, 70);
    SeriesRepeat(rt, s, Routed("n1", SimpleHandler, payload, now), Routed("n1", SimpleHandler, payload, later));
  }

  lemma SimpleRow(rt: Runtime, series: Series, name: string, t: int, v: int)
    requires '.' !in series.device && name == series.device + ['.'] + series.param
    requires |series.node| <= 64 && |series.device| <= 64 && |series.param| <= 64 && 0 <= v < 0x8000_0000_0000_0000
    requires rt.clock(t).At?
    ensures MessageRows(rt, series.node, Obj(SimpleMessage(name, t, v))) ==
      [TsRow(rt.clock(t).ts, series.node, series.device, series.param, "int", Some(v), None, None, None)]
  {
    CutIsFirst(series.device, '.', series.param);
    SimpleStores(rt, series.node, SimpleMessage(name, t, v));
    IntPoint(rt, series, rt.clock(t).ts, v);
  }

  lemma IntPoint(rt: Runtime, series: Series, ts: int, v: int)
    requires |series.node| <= 64 && |series.device| <= 64 && |series.param| <= 64 && 0 <= v < 0x8000_0000_0000_0000
    ensures PointRow(rt, series, Str("int"), ts, Int(v)) ==
      Some(TsRow(ts, series.node, series.device, series.param, "int", Some(v), None, None, None))
  {
  }

  // ---------- Redelivered mapping reports ----------

  predicate Reports(r: Routed) {
    r.Routed? && r.handler == MappingHandler && Ownership.ReportedSecret(r.node, r.payload).Some?
  }

  /** The message is not a report that could settle a challenge now. */
  ghost predicate Idle(challenges: map<string, Challenge>, r: Routed) {
    Reports(r) ==>
      !exists rid :: Ownership.SoleAnswer(challenges, r.node, Ownership.ReportedSecret(r.node, r.payload).value, rid)
  }

  /** The report does not fail for want of the node's row: its node is known, or it answers no one
      challenge, or one that has expired. */
  ghost predicate Taken(own: Ownership.Own, r: Routed) {
    Reports(r) && r.node !in own.nodes ==>
      var secret := Ownership.ReportedSecret(r.node, r.payload).value;
      forall rid :: Ownership.SoleAnswer(own.challenges, r.node, secret, rid) ==> own.challenges[rid].expires < r.now
  }

  /** A report that is taken settles the challenge it answers, if any. */
  lemma TakenIsSpent(own: Ownership.Own, r: Routed)
    requires Ownership.Inv(own) && Taken(own, r)
    ensures Idle(OwnStep(own, r).challenges, r)
  {
    if Reports(r) {
      var secret := Ownership.ReportedSecret(r.node, r.payload).value;
      if rid :| Ownership.SoleAnswer(own.challenges, r.node, secret, rid) {
        assert Ownership.ChallengeOk(own, own.challenges[rid]);
        ReportIs(own, r.node, r.payload, r.now, rid);
        var own' := OwnStep(own, r);
        assert forall other :: other in own'.challenges ==> !Ownership.Answers(own'.challenges[other], r.node, secret);
      }
    }
  }

  /** One that is not taken leaves its challenge pending. */
  lemma FailedStaysPending(own: Ownership.Own, r: Routed)
    requires Ownership.Inv(own) && !Taken(own, r)
    ensures OwnStep(own, r) == own && !Idle(own.challenges, r)
  {
    var secret := Ownership.ReportedSecret(r.node, r.payload).value;
    var rid :| Ownership.SoleAnswer(own.challenges, r.node, secret, rid) && own.challenges[rid].expires >= r.now;
    ReportIs(own, r.node, r.payload, r.now, rid);
    assert forall m :: m in own.mappings ==> Ownership.MappingOk(own, m);
  }

  lemma IdleStays(own: Ownership.Own, r: Routed, other: Routed)
    requires Idle(own.challenges, r)
    ensures Idle(OwnStep(own, other).challenges, r)
  {
    var own' := OwnStep(own, other);
    if Reports(r) && own'.challenges != own.challenges {
      var secret := Ownership.ReportedSecret(r.node, r.payload).value;
      var secret' := Ownership.ReportedSecret(other.node, other.payload).value;
      var rid :| Ownership.SoleAnswer(own.challenges, other.node, secret', rid);
      ReportIs(own, other.node, other.payload, other.now, rid);
      assert forall x :: x in own.challenges ==>
        (Ownership.Answers(own'.challenges[x], r.node, secret) <==>
          Ownership.Answers(own.challenges[x], r.node, secret));
      assert own'.challenges.Keys == own.challenges.Keys;
      forall x ensures !Ownership.SoleAnswer(own'.challenges, r.node, secret, x) {
        assert !Ownership.SoleAnswer(own.challenges, r.node, secret, x);
      }
    }
  }

  /** A mapping report for a known node, repeated at once at whatever time, counts once. */
  lemma ReportCountsOnce(own: Ownership.Own, node: NodeId, payload: Json, now: Time, later: Time)
    requires Ownership.Inv(own) && node in own.nodes
    ensures
      var own' := Ownership.DeviceReport(own, node, payload, now);
      Ownership.DeviceReport(own', node, payload, later) == own'
  {
    TakenIsSpent(own, Routed(node, MappingHandler, payload, now));
    var own' := Ownership.DeviceReport(own, node, payload, now);
    assert Idle(own'.challenges, Routed(node, MappingHandler, payload, later));
  }

  lemma {:induction false} HandleAppend(rt: Runtime, s: State, a: seq<Routed>, b: seq<Routed>)
    ensures HandleAll(rt, s, a + b) == HandleAll(rt, HandleAll(rt, s, a), b)
  {
    if b == [] {
      assert a + b == a;
    } else {
      assert (a + b)[..|a + b| - 1] == a + b[..|b| - 1];
      HandleAppend(rt, s, a, b[..|b| - 1]);
    }
  }

  /** Every report of the log is taken when it is first handled. */
  ghost predicate AllTaken(rt: Runtime, s: State, log: seq<Routed>) {
    forall i :: 0 <= i < |log| ==> Taken(HandleAll(rt, s, log[..i]).own, log[i])
  }

  lemma HandleChallenges(rt: Runtime, s: State, r: Routed)
    ensures Handle(rt, s, r).own.challenges == OwnStep(s.own, r).challenges
  {
  }

  lemma {:induction false} LogIsSpent(rt: Runtime, s: State, log: seq<Routed>)
    requires Ownership.Inv(s.own) && AllTaken(rt, s, log)
    ensures forall r :: r in log ==> Idle(HandleAll(rt, s, log).own.challenges, r)
  {
    if log != [] {
      var (front, last) := (log[..|log| - 1], log[|log| - 1]);
      LastSplit(log);
      TakenPrefix(rt, s, log, |log| - 1);
      LogIsSpent(rt, s, front);
      LogKeepsOwnership(rt, s, front);
      HandleChallenges(rt, HandleAll(rt, s, front), last);
      SpentSnoc(HandleAll(rt, s, front).own, front, last);
    }
  }

  lemma SpentSnoc(own: Ownership.Own, front: seq<Routed>, last: Routed)
    requires Ownership.Inv(own) && Taken(own, last) && forall r :: r in front ==> Idle(own.challenges, r)
    ensures forall r :: r in front + [last] ==> Idle(OwnStep(own, last).challenges, r)
  {
    TakenIsSpent(own, last);
    forall r | r in front ensures Idle(OwnStep(own, last).challenges, r) {
      IdleStays(own, r, last);
    }
  }

  lemma TakenPrefix(rt: Runtime, s: State, log: seq<Routed>, k: nat)
    requires AllTaken(rt, s, log) && k <= |log|
    ensures AllTaken(rt, s, log[..k])
  {
    assert forall i :: 0 <= i < k ==> log[..k][..i] == log[..i];
  }

  /** Idle messages change no ownership row but the nodes. */
  lemma {:induction false} IdleRun(rt: Runtime, s: State, more: seq<Routed>)
    requires forall r :: r in more ==> Idle(s.own.challenges, r)
    ensures HandleAll(rt, s, more).own == s.own.(nodes := HandleAll(rt, s, more).own.nodes)
  {
    if more != [] {
      var (front, r) := (more[..|more| - 1], more[|more| - 1]);
      IdleRun(rt, s, front);
      assert r in more;
      assert Idle(HandleAll(rt, s, front).own.challenges, r);
    }
  }

  lemma RepeatsAreIdle(own: Ownership.Own, log: seq<Routed>, r: Routed)
    requires forall x :: x in log ==> Idle(own.challenges, x)
    requires Repeats(log, r)
    ensures Idle(own.challenges, r)
  {
    var i :| 0 <= i < |log| && Each(log, Untimed)[i] == Untimed(r);
    assert Idle(own.challenges, log[i]);
  }

  lemma RedeliveryIsIdle(own: Ownership.Own, sent: seq<Routed>, d: Delivery)
    requires d.Again? && Redelivers(sent, d) && forall x :: x in sent ==> Idle(own.challenges, x)
    ensures forall r :: r in d.attempts + d.again ==> Idle(own.challenges, r)
  {
    forall r | r in d.attempts + d.again ensures Idle(own.challenges, r) {
      RedeliveryRepeats(sent, d, r);
      RepeatsAreIdle(own, sent, r);
    }
  }

  /** Redeliveries leave the ownership rows of the log, if each of its reports is taken at first. */
  lemma {:induction false} RedeliveredReports(rt: Runtime, s: State, log: seq<Routed>, ds: seq<Delivery>)
    requires Ownership.Inv(s.own) && AllTaken(rt, s, log) && Seen(log, ds).Some?
    ensures SameOwnership(rt, s, log, ds)
  {
    if ds != [] {
      var (front, d) := (ds[..|ds| - 1], ds[|ds| - 1]);
      RedeliveredReports(rt, s, log, front);
      var (k, seen) := Seen(log, front).value;
      SameTables(rt, s, log, front);
      SameTables(rt, s, log, ds);
      match d {
        case Fresh =>
          TakeSnoc(log, k);
          HandleSnoc(rt, s, seen, log[k]);
          HandleSnoc(rt, s, log[..k], log[k]);
        case Again(from, attempts, again) =>
          TakenPrefix(rt, s, log, k);
          LogIsSpent(rt, s, log[..k]);
          RedeliveryIsIdle(HandleAll(rt, s, seen).own, log[..k], d);
          IdleRun(rt, HandleAll(rt, s, seen), attempts + again);
          HandleAppend(rt, s, seen, attempts + again);
          AppendAssoc(seen, attempts, again);
      }
    }
  }

  lemma SameTables(rt: Runtime, s: State, log: seq<Routed>, ds: seq<Delivery>)
    requires Seen(log, ds).Some?
    ensures
      var (k, seen) := Seen(log, ds).value;
      TablesOf(HandleAll(rt, s, seen)) == TablesOf(HandleAll(rt, s, log[..k]))
  {
    AtLeastOnceIsEnough(TablesOf(s), log, ds);
    TablesAreSeparate(rt, s, Seen(log, ds).value.1);
    TablesAreSeparate(rt, s, log[..Seen(log, ds).value.0]);
  }

  /** The delivery leaves the ownership rows of the part of the log delivered. */
  ghost predicate SameOwnership(rt: Runtime, s: State, log: seq<Routed>, ds: seq<Delivery>)
    requires Seen(log, ds).Some?
  {
    var (k, seen) := Seen(log, ds).value;
    HandleAll(rt, s, seen).own == HandleAll(rt, s, log[..k]).own
  }

  /** Every at-least-once delivery, at any time during the log, leaves the ownership rows of the log itself,
      if and only if no report of the log fails for want of its node's row. */
  lemma RedeliveredReportsIff(rt: Runtime, s: State, log: seq<Routed>)
    requires Ownership.Inv(s.own)
    ensures (forall ds :: Seen(log, ds).Some? ==> SameOwnership(rt, s, log, ds)) <==> AllTaken(rt, s, log)
  {
    if AllTaken(rt, s, log) {
      forall ds | Seen(log, ds).Some? ensures SameOwnership(rt, s, log, ds) {
        RedeliveredReports(rt, s, log, ds);
      }
    } else {
      var i :| 0 <= i < |log| && !Taken(HandleAll(rt, s, log[..i]).own, log[i]);
      var _ := FailedCanExpire(rt, s, log, i);
    }
  }

  /** A report that failed, redelivered once its challenge has run out, expires it. */
  lemma LateReport(rt: Runtime, s: State, r: Routed) returns (again: Routed)
    requires Ownership.Inv(s.own) && !Taken(s.own, r)
    ensures Untimed(again) == Untimed(r)
    ensures Handle(rt, Handle(rt, s, r), again).own != Handle(rt, s, r).own
  {
    FailedStaysPending(s.own, r);
    var secret := Ownership.ReportedSecret(r.node, r.payload).value;
    var rid :| Ownership.SoleAnswer(s.own.challenges, r.node, secret, rid);
    again := r.(now := s.own.challenges[rid].expires + 1);
    HandleChallenges(rt, s, r);
    HandleChallenges(rt, Handle(rt, s, r), again);
    ReportIs(Handle(rt, s, r).own, r.node, r.payload, again.now, rid);
  }

  lemma FailedCanExpire(rt: Runtime, s: State, log: seq<Routed>, i: nat) returns (ds: seq<Delivery>)
    requires Ownership.Inv(s.own) && i < |log| && !Taken(HandleAll(rt, s, log[..i]).own, log[i])
    ensures Seen(log, ds).Some? && !SameOwnership(rt, s, log, ds)
  {
    LogKeepsOwnership(rt, s, log[..i]);
    var again := LateReport(rt, HandleAll(rt, s, log[..i]), log[i]);
    ds := Straight(i + 1) + [Again(i, [], [again])];
    AgainLast(log, i, again);
    TakeSnoc(log, i);
    HandleSnoc(rt, s, log[..i], log[i]);
    HandleSnoc(rt, s, log[..i + 1], again);
  }

  lemma TwoThenAgain(r: Routed, c: Routed, again: Routed)
    requires Untimed(again) == Untimed(r)
    ensures Seen([r, c], [Fresh, Fresh, Again(0, [], [again, c])]) == Some((2, [r, c, again, c]))
  {
    var (log, d) := ([r, c], Again(0, [], [again, c]));
    var ds := [Fresh, Fresh, d];
    StraightSees(log, 2);
    assert ds[..2] == Straight(0) + [Fresh] + [Fresh] == Straight(2);
    assert log[..2][0..] == log && Each([again, c], Untimed) == Each(log, Untimed);
    assert [r, c] + [] + [again, c] == [r, c, again, c];
  }

  /** A report that comes before its node's row is lost. */
  lemma ReportBeforeNode(rt: Runtime, s: State, rid: string, r: Routed, c: Routed)
    requires Reports(r) && r.node !in s.own.nodes && FitsNodeId(r.node) && Configures(c, r.node)
    requires Ownership.SoleAnswer(s.own.challenges, r.node, Ownership.ReportedSecret(r.node, r.payload).value, rid)
    requires r.now <= s.own.challenges[rid].expires && !Ownership.Owns(s.own, s.own.challenges[rid].user, r.node)
    ensures HandleAll(rt, s, [r, c]).own == s.own.(nodes := s.own.nodes + {r.node})
  {
    assert [] + [r] == [r] && [r] + [c] == [r, c];
    HandleSnoc(rt, s, [], r);
    HandleSnoc(rt, s, [r], c);
    ReportIs(s.own, r.node, r.payload, r.now, rid);
  }

  /** But it maps the user when it is redelivered after it. */
  lemma RedeliveryMaps(rt: Runtime, s: State, rid: string, r: Routed, c: Routed, again: Routed)
    requires Reports(r) && r.node !in s.own.nodes && FitsNodeId(r.node) && Configures(c, r.node)
    requires Ownership.SoleAnswer(s.own.challenges, r.node, Ownership.ReportedSecret(r.node, r.payload).value, rid)
    requires Untimed(again) == Untimed(r) && r.now <= again.now <= s.own.challenges[rid].expires
    requires s.own.challenges[rid].user in s.own.users && !Ownership.Owns(s.own, s.own.challenges[rid].user, r.node)
    ensures
      var (own, own') := (HandleAll(rt, s, [r, c]).own, HandleAll(rt, s, [r, c, again, c]).own);
      var user := s.own.challenges[rid].user;
      !Ownership.Owns(own, user, r.node) && Ownership.Owns(own', user, r.node)
  {
    assert [r, c] + [again] == [r, c, again] && [r, c, again] + [c] == [r, c, again, c];
    ReportBeforeNode(rt, s, rid, r, c);
    HandleSnoc(rt, s, [r, c], again);
    HandleSnoc(rt, s, [r, c, again], c);
    ReportIs(HandleAll(rt, s, [r, c]).own, r.node, r.payload, again.now, rid);
  }

  /** For one, with a single pending request and a config that follows the report. */
  lemma LateNodeMaps(rt: Runtime, s: State, u: UserId, user: User)
    requires s.own == Ownership.Own(
      map[u := user], {}, map["rid" := Challenge(u, "n1", Some("key"), None, Pending, HOUR, None)], [], map[], [])
    ensures
      var report := Obj(map["secret_key" := Str("key")]);
      var (r, c) := (Routed("n1", MappingHandler, report, 0), Routed("n1", ConfigHandler, Obj(map[]), 0));
      var again := r.(now := SECOND);
      Seen([r, c], [Fresh, Fresh, Again(0, [], [again, c])]) == Some((2, [r, c, again, c])) &&
      !Ownership.Owns(HandleAll(rt, s, [r, c]).own, u, "n1") &&
      Ownership.Owns(HandleAll(rt, s, [r, c, again, c]).own, u, "n1")
  {
    var report := Obj(map["secret_key" := Str("key")]);
    var (r, c) := (Routed("n1", MappingHandler, report, 0), Routed("n1", ConfigHandler, Obj(map[]), 0));
    assert Ownership.ReportedSecret("n1", report) == Some("key");
    TwoThenAgain(r, c, r.(now := SECOND));
    RedeliveryMaps(rt, s, "rid", r, c, r.(now := SECOND));
  }

  // ---------- The handlers ----------

  function View(db: Database): State
    reads db
  {
    State(Ownership.View(db), db.configs, db.shadows, db.tsdata)
  }

  method UpsertNodeConfig(db: Database, node: NodeId, payload: map<string, Json>) returns (raised: bool)
    modifies db`configs
    ensures raised == VersionOf(payload).None?
    ensures db.configs ==
      if raised then old(db.configs) else old(db.configs)[node := Config(VersionOf(payload).value, payload)]
  {
    var version := VersionOf(payload);
    if version.None? { return true; }
    if node !in db.configs {
      db.configs := db.configs[node := Config(version.value, payload)];
    } else {
      var existing := db.configs[node];
      existing := existing.(version := version.value, payload := payload);
      db.configs := db.configs[node := existing];
    }
    return false;
  }

  method UpsertParamsShadow(db: Database, node: NodeId, params: Params)
    modifies db`shadows
    ensures db.shadows == old(db.shadows)[node := Upsert(Lookup(old(db.shadows), node), params).value]
  {
    if node !in db.shadows {
      db.shadows := db.shadows[node := params];
    } else {
      var merged := MergeParams(db.shadows[node], params);
      db.shadows := db.shadows[node := merged];
    }
  }

  method CreateIfAbsent(db: Database, node: NodeId) returns (raised: bool)
    modifies db`nodes
    ensures raised == EnsureNode(TablesOf(old(View(db))), node).None?
    ensures db.nodes == if raised then old(db.nodes) else old(db.nodes) + {node}
  {
    if node !in db.nodes {
      if !FitsNodeId(node) { return true; }
      db.nodes := db.nodes + {node};
    }
    return false;
  }

  method HandleConfig(db: Database, node: NodeId, payload: Json)
    modifies db`nodes, db`configs
    ensures TablesOf(View(db)) == ConfigStep(old(TablesOf(View(db))), node, payload)
  {
    if !payload.Obj? { return; }
    var raised := CreateIfAbsent(db, node);
    if raised { return; }
    var _ := UpsertNodeConfig(db, node, payload.fields);
  }

  method HandleParamsLocal(db: Database, node: NodeId, payload: Json)
    modifies db`nodes, db`shadows
    ensures TablesOf(View(db)) == ParamsStep(old(TablesOf(View(db))), node, payload)
  {
    if !payload.Obj? { return; }
    var raised := CreateIfAbsent(db, node);
    if raised { return; }
    UpsertParamsShadow(db, node, payload.fields);
  }

  method DispatchMessage(db: Database, rt: Runtime, m: Message)
    modifies db`nodes, db`configs, db`shadows, db`challenges, db`mappings, db`tsdata
    ensures View(db) == Dispatch(rt, old(View(db)), m)
  {
    var parsed := SplitTopic(m.topic);
    if parsed.None? { return; }
    var (node, suffix) := parsed.value;
    if m.payload.None? || m.payload.value.Null? { return; }
    var payload := m.payload.value;
    var handler := HandlerOf(suffix);
    if handler.None? { return; }
    match handler.value {
      case ConfigHandler => HandleConfig(db, node, payload);
      case ParamsHandler => HandleParamsLocal(db, node, payload);
      case MappingHandler => Ownership.HandleUserMapping(db, node, payload, m.now);
      case SeriesHandler => HandleTsdata(db, rt, node, payload);
      case SimpleHandler => HandleSimpleTsdata(db, rt, node, payload);
    }
  }
}
