/** The params shadow of a node: a two-level merge of reported values (app/services/node.py). */
module ParamsShadow {
  import opened Prelude

  /** A payload, or a stored shadow: device name to reported value, usually an object of params. */
  type Params = map<string, Json>

  // ---------- The merge ----------

  /** What a device holds once `v` is reported for it: objects are overlaid, anything else replaces. */
  function Overlay(current: Option<Json>, v: Json): Json {
    if v.Obj? && current.Some? && current.value.Obj? then Obj(current.value.fields + v.fields) else v
  }

  function Merge(current: Params, update: Params): Params {
    map d | d in current.Keys + update.Keys ::
      if d in update then Overlay(Lookup(current, d), update[d]) else current[d]
  }

  /** `_merge_params`: the loop over the update's items, in any order. */
  method MergeParams(current: Params, update: Params) returns (merged: Params)
    ensures merged == Merge(current, update)
  {
    merged := current;
    var left := update.Keys;
    while left != {}
      invariant left <= update.Keys
      invariant merged.Keys == current.Keys + (update.Keys - left)
      invariant forall d :: d in merged ==>
        merged[d] == if d in update && d !in left then Overlay(Lookup(current, d), update[d]) else current[d]
      decreases left
    {
      var d :| d in left;
      merged := merged[d := Overlay(Lookup(merged, d), update[d])];
      left := left - {d};
    }
  }

  // ---------- When batching is exact ----------

  /** Device `d` is an object in `a`, something else in `b`, and an object again in `c` that lacks a key of `a`. */
  predicate Forgets(a: Params, b: Params, c: Params, d: string) {
    d in a && a[d].Obj? && d in b && !b[d].Obj? && d in c && c[d].Obj? &&
    !(a[d].fields.Keys <= c[d].fields.Keys)
  }

  lemma BatchingAtDevice(a: Params, b: Params, c: Params, d: string)
    ensures Lookup(Merge(Merge(a, b), c), d) == Lookup(Merge(a, Merge(b, c)), d) <==> !Forgets(a, b, c, d)
  {
    if d in a && a[d].Obj? && d in c && c[d].Obj? {
      var (x, z) := (a[d].fields, c[d].fields);
      assert x.Keys <= z.Keys ==> x + z == z;
      assert (x + z).Keys == x.Keys + z.Keys;
      if d in b && b[d].Obj? {
        assert (x + b[d].fields) + z == x + (b[d].fields + z);
      }
    }
  }

  /** The exact batching law: two updates may be merged before they reach the shadow unless, and
      only unless, some device is forgotten by the one and not by the other. */
  lemma BatchingIff(a: Params, b: Params, c: Params)
    ensures Merge(Merge(a, b), c) == Merge(a, Merge(b, c)) <==> forall d :: !Forgets(a, b, c, d)
  {
    var (l, r) := (Merge(Merge(a, b), c), Merge(a, Merge(b, c)));
    forall d ensures Lookup(l, d) == Lookup(r, d) <==> !Forgets(a, b, c, d) {
      BatchingAtDevice(a, b, c, d);
    }
    SameLookups(l, r);
  }

  lemma SameLookups(l: Params, r: Params)
    ensures l == r <==> forall d :: Lookup(l, d) == Lookup(r, d)
  {
    if forall d :: Lookup(l, d) == Lookup(r, d) {
      forall d ensures d in l <==> d in r {
        assert Lookup(l, d) == Lookup(r, d);
      }
      forall d | d in l ensures l[d] == r[d] {
        assert Lookup(l, d) == Lookup(r, d);
      }
    }
  }

  /** The merge is not associative: an object, then a scalar, then an object. */
  lemma BatchingCanFail()
    ensures exists a: Params, b: Params, c: Params :: Merge(Merge(a, b), c) != Merge(a, Merge(b, c))
  {
    var a: Params := map["Light" := Obj(map["power" := Bool(true)])];
    var b: Params := map["Light" := Null];
    var c: Params := map["Light" := Obj(map[])];
    assert "power" in a["Light"].fields.Keys;
    assert Forgets(a, b, c, "Light");
    BatchingIff(a, b, c);
  }

  predicate AllObjects(p: Params) {
    forall d :: d in p ==> p[d].Obj?
  }

  /** A way to coalesce a run of payloads before applying them. */
  datatype Batch = One(payload: Params) | Join(left: Batch, right: Batch)

  function Coalesce(b: Batch): Params {
    match b
    case One(p) => p
    case Join(l, r) => Merge(Coalesce(l), Coalesce(r))
  }

  function Payloads(b: Batch): seq<Params> {
    match b
    case One(p) => [p]
    case Join(l, r) => Payloads(l) + Payloads(r)
  }

  /** Payloads whose device values are all objects can be coalesced in any grouping, on any shadow. */
  lemma {:induction false} GroupingIsFree(shadow: Params, b: Batch)
    requires forall p :: p in Payloads(b) ==> AllObjects(p)
    ensures AllObjects(Coalesce(b))
    ensures Merge(shadow, Coalesce(b)) == Replay(shadow, Payloads(b))
    decreases b
  {
    match b
    case One(p) =>
      assert p in Payloads(b);
      assert Payloads(b)[..0] == [];
      assert Replay(shadow, [p]) == Merge(Replay(shadow, []), p);
    case Join(l, r) =>
      GroupingIsFree(shadow, l);
      GroupingIsFree(Merge(shadow, Coalesce(l)), r);
      BatchingIff(shadow, Coalesce(l), Coalesce(r));
      ReplayAppend(shadow, Payloads(l), Payloads(r));
  }

  // ---------- A run of updates ----------

  function Replay(shadow: Params, us: seq<Params>): Params {
    if us == [] then shadow else Merge(Replay(shadow, us[..|us| - 1]), us[|us| - 1])
  }

  lemma {:induction false} ReplayAppend(shadow: Params, us: seq<Params>, vs: seq<Params>)
    ensures Replay(shadow, us + vs) == Replay(Replay(shadow, us), vs)
  {
    if vs == [] {
      assert us + vs == us;
    } else {
      assert (us + vs)[..|us + vs| - 1] == us + vs[..|vs| - 1];
      ReplayAppend(shadow, us, vs[..|vs| - 1]);
    }
  }

  /** Update `i` is the last word on `(d, p)`: it sets it to `v`, and every later report for `d` is an
      object that does not mention `p`. */
  predicate LastWord(us: seq<Params>, i: nat, d: string, p: string, v: Json) {
    i < |us| && d in us[i] && us[i][d].Obj? && p in us[i][d].fields && us[i][d].fields[p] == v &&
    forall j :: i < j < |us| && d in us[j] ==> us[j][d].Obj? && p !in us[j][d].fields
  }

  predicate HoldsParam(shadow: Params, d: string, p: string, v: Json) {
    d in shadow && shadow[d].Obj? && p in shadow[d].fields && shadow[d].fields[p] == v
  }

  /** One more update decides `(d, p)` by itself, clears it, or leaves the last word where it was. */
  lemma LastWordSnoc(front: seq<Params>, u: Params, d: string, p: string, v: Json)
    ensures (exists i: nat :: LastWord(front + [u], i, d, p, v)) <==>
      if d !in u || (u[d].Obj? && p !in u[d].fields) then exists i: nat :: LastWord(front, i, d, p, v)
      else HoldsParam(u, d, p, v)
  {
    var us := front + [u];
    if HoldsParam(u, d, p, v) {
      assert LastWord(us, |front|, d, p, v);
    }
    forall i: nat | i < |front|
      ensures LastWord(us, i, d, p, v) <==> LastWord(front, i, d, p, v) && (d !in u || (u[d].Obj? && p !in u[d].fields))
    {
      assert us[|front|] == u;
      assert forall j :: 0 <= j < |front| ==> us[j] == front[j];
    }
  }

  /** The shadow refines a last-writer log. */
  lemma {:induction false} ShadowIsLastWriter(us: seq<Params>, d: string, p: string, v: Json)
    ensures HoldsParam(Replay(map[], us), d, p, v) <==> exists i: nat :: LastWord(us, i, d, p, v)
  {
    if us != [] {
      var (front, u) := (us[..|us| - 1], us[|us| - 1]);
      ShadowIsLastWriter(front, d, p, v);
      LastWordSnoc(front, u, d, p, v);
      assert us == front + [u];
    }
  }

  /** A device is in the shadow once it was mentioned. */
  lemma {:induction false} ShadowDevices(us: seq<Params>, d: string)
    ensures d in Replay(map[], us) <==> exists i :: 0 <= i < |us| && d in us[i]
  {
    if us != [] {
      var (front, u) := (us[..|us| - 1], us[|us| - 1]);
      ShadowDevices(front, d);
      assert forall i :: 0 <= i < |front| ==> us[i] == front[i];
      assert d in u ==> d in us[|us| - 1];
    }
  }

  /** Update `i` is the last to mention device `d`, and reports `v` for it. */
  predicate LastReport(us: seq<Params>, i: nat, d: string, v: Json) {
    i < |us| && d in us[i] && us[i][d] == v && forall j :: i < j < |us| ==> d !in us[j]
  }

  /** It holds a value that is no object exactly when that was its last report. */
  lemma {:induction false} ShadowScalars(us: seq<Params>, d: string, v: Json)
    requires !v.Obj?
    ensures Lookup(Replay(map[], us), d) == Some(v) <==> exists i: nat :: LastReport(us, i, d, v)
  {
    if us != [] {
      var (front, u) := (us[..|us| - 1], us[|us| - 1]);
      ShadowScalars(front, d, v);
      if d in u {
        assert u[d] == v ==> LastReport(us, |us| - 1, d, v);
      } else {
        forall i: nat ensures LastReport(us, i, d, v) <==> LastReport(front, i, d, v) {
          assert forall j :: 0 <= j < |front| ==> us[j] == front[j];
        }
      }
    }
  }

  // ---------- What a run does to one device ----------

  /** The net effect of a run of reports on one device. */
  datatype Effect = Keep | Extend(params: map<string, Json>) | Reset(to: Json)

  function Apply(e: Effect, current: Option<Json>): Option<Json> {
    match e
    case Keep => current
    case Extend(m) => Some(Overlay(current, Obj(m)))
    case Reset(v) => Some(v)
  }

  function After(e: Effect, v: Json): Effect {
    if !v.Obj? then Reset(v)
    else match e
      case Keep => Extend(v.fields)
      case Extend(m) => Extend(m + v.fields)
      case Reset(c) => Reset(Overlay(Some(c), v))
  }

  /** The effect of the reports in `us` on device `d`. */
  function Summary(us: seq<Params>, d: string): Effect {
    if us == [] then Keep
    else
      var (before, u) := (Summary(us[..|us| - 1], d), us[|us| - 1]);
      if d in u then After(before, u[d]) else before
  }

  lemma {:induction false} ReplayAtDevice(shadow: Params, us: seq<Params>, d: string)
    ensures Lookup(Replay(shadow, us), d) == Apply(Summary(us, d), Lookup(shadow, d))
  {
    if us != [] {
      ReplayAtDevice(shadow, us[..|us| - 1], d);
      var u := us[|us| - 1];
      if d in u && u[d].Obj? {
        AfterApplies(Summary(us[..|us| - 1], d), Lookup(shadow, d), u[d]);
      }
    }
  }

  lemma AfterApplies(e: Effect, current: Option<Json>, v: Json)
    ensures Apply(After(e, v), current) == Some(Overlay(Apply(e, current), v))
  {
    if e.Extend? && v.Obj? && current.Some? && current.value.Obj? {
      assert (current.value.fields + e.params) + v.fields == current.value.fields + (e.params + v.fields);
    }
  }

  /** Every report behind an `Extend` was an object, and none of its params is missing from it. */
  lemma {:induction false} SummaryCovers(us: seq<Params>, d: string, u: Params)
    requires u in us && d in u
    ensures Summary(us, d) != Keep
    ensures Summary(us, d).Extend? ==> u[d].Obj? && u[d].fields.Keys <= Summary(us, d).params.Keys
  {
    var last := us[|us| - 1];
    if u in us[..|us| - 1] {
      SummaryCovers(us[..|us| - 1], d, u);
    } else {
      assert u == last;
    }
  }

  /** Replaying any of the updates of `us`, in any order and number, and then all of `us` in order,
      puts device `d` back to where `us` had left it. */
  lemma {:induction false} NoiseLeavesRest(shadow: Params, us: seq<Params>, noise: seq<Params>, d: string)
    requires forall u :: u in noise ==> u in us
    requires Summary(us, d).Extend?
    ensures
      var m := Summary(us, d).params;
      var settled := Lookup(Replay(shadow, us), d);
      var after := Lookup(Replay(Replay(shadow, us), noise), d);
      settled.Some? && settled.value.Obj? && after.Some? && after.value.Obj? &&
      after.value.fields + m == settled.value.fields
  {
    ReplayAtDevice(shadow, us, d);
    var m := Summary(us, d).params;
    var settled := Lookup(Replay(shadow, us), d).value.fields;
    assert settled + m == settled;
    if noise != [] {
      var (front, u) := (noise[..|noise| - 1], noise[|noise| - 1]);
      NoiseLeavesRest(shadow, us, front, d);
      if d in u {
        assert u in noise;
        SummaryCovers(us, d, u);
        var before := Lookup(Replay(Replay(shadow, us), front), d).value.fields;
        assert (before + u[d].fields) + m == before + m;
      }
    }
  }

  /** Redelivery of params updates is harmless, whatever the device values are. */
  lemma RedeliveryRestores(shadow: Params, us: seq<Params>, noise: seq<Params>)
    requires forall u :: u in noise ==> u in us
    ensures Replay(shadow, us + noise + us) == Replay(shadow, us)
  {
    var settled := Replay(shadow, us);
    var disturbed := Replay(settled, noise);
    ReplayAppend(shadow, us + noise, us);
    ReplayAppend(shadow, us, noise);
    forall d ensures Lookup(Replay(disturbed, us), d) == Lookup(settled, d) {
      ReplayAtDevice(shadow, us, d);
      ReplayAtDevice(disturbed, us, d);
      ReplayAtDevice(settled, noise, d);
      match Summary(us, d) {
        case Keep => KeepIsSilence(us, noise, d);
        case Extend(m) => NoiseLeavesRest(shadow, us, noise, d);
        case Reset(v) =>
      }
    }
    SameLookups(Replay(disturbed, us), settled);
  }

  lemma {:induction false} KeepIsSilence(us: seq<Params>, noise: seq<Params>, d: string)
    requires Summary(us, d) == Keep
    requires forall u :: u in noise ==> u in us
    ensures Summary(noise, d) == Keep
  {
    if noise != [] {
      KeepIsSilence(us, noise[..|noise| - 1], d);
      var u := noise[|noise| - 1];
      assert u in noise;
      if d in u {
        SummaryCovers(us, d, u);
      }
    }
  }

  // ---------- The stored row ----------

  /** `upsert_params_shadow` on one node's row. */
  function Upsert(row: Option<Params>, update: Params): Option<Params> {
    Some(if row.None? then update else Merge(row.value, update))
  }

  function UpsertAll(row: Option<Params>, us: seq<Params>): Option<Params> {
    if us == [] then row else Upsert(UpsertAll(row, us[..|us| - 1]), us[|us| - 1])
  }

  /** A missing row behaves as an empty one. */
  lemma {:induction false} UpsertIsReplay(row: Option<Params>, us: seq<Params>)
    ensures UpsertAll(row, us) ==
      if us == [] then row else Some(Replay(if row.None? then map[] else row.value, us))
  {
    if us != [] {
      UpsertIsReplay(row, us[..|us| - 1]);
      assert Merge(map[], us[|us| - 1]) == us[|us| - 1];
    }
  }
}
