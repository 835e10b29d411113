/** MQTT topics: printing and splitting them (app/mqtt/topics.py, app/mqtt/router.py), and the broker's
    authorisation hooks (app/services/vmq_authz.py) read against section 4.7 of MQTT 3.1.1. */
module Topics {
  import opened Prelude

  const CONFIG := "config"
  const PARAMS_LOCAL := "params/local"
  const PARAMS_LOCAL_INIT := "params/local/init"
  const USER_MAPPING := "user/mapping"
  const TSDATA := "tsdata"
  const SIMPLE_TSDATA := "simple_tsdata"

  function NodeTopic(id: string, suffix: string): string {
    "node/" + id + "/" + suffix
  }

  // ---------- Splitting strings ----------

  /** The parts before and after the first `c`. */
  function Cut(s: string, c: char): (r: Option<(string, string)>)
    ensures r.None? <==> c !in s
    ensures r.Some? ==> s == r.value.0 + [c] + r.value.1 && c !in r.value.0
  {
    if s == "" then None
    else if s[0] == c then Some(("", s[1..]))
    else match Cut(s[1..], c)
      case None => None
      case Some((a, b)) => Some(([s[0]] + a, b))
  }

  lemma {:induction false} CutIsFirst(a: string, c: char, b: string)
    requires c !in a
    ensures Cut(a + [c] + b, c) == Some((a, b))
  {
    var s := a + [c] + b;
    assert s[|a|] == c;
    if a == "" {
      assert s[1..] == b;
    } else {
      assert a[0] in a && s[0] == a[0];
      assert s[1..] == a[1..] + [c] + b;
      CutIsFirst(a[1..], c, b);
      assert [a[0]] + a[1..] == a;
    }
  }

  lemma CutIff(s: string, c: char, a: string, b: string)
    ensures Cut(s, c) == Some((a, b)) <==> s == a + [c] + b && c !in a
  {
    if c !in a {
      CutIsFirst(a, c, b);
    }
  }

  /** `s.split(c, max)`. */
  function SplitMax(s: string, c: char, max: nat): (parts: seq<string>)
    ensures 1 <= |parts| <= max + 1
    decreases max
  {
    var cut := Cut(s, c);
    if max == 0 || cut.None? then [s] else [cut.value.0] + SplitMax(cut.value.1, c, max - 1)
  }

  lemma SplitTwice(first: string, c: char, rest: string)
    requires c !in first
    ensures SplitMax(first + [c] + rest, c, 2) ==
      match Cut(rest, c)
      case None => [first, rest]
      case Some((a, b)) => [first, a, b]
  {
    CutIsFirst(first, c, rest);
    assert SplitMax(first + [c] + rest, c, 2) == [first] + SplitMax(rest, c, 1);
    if Cut(rest, c).Some? {
      assert SplitMax(rest, c, 1) == [Cut(rest, c).value.0] + SplitMax(Cut(rest, c).value.1, c, 0);
    }
  }

  /** `_split_topic`. */
  function SplitTopic(topic: string): Option<(string, string)> {
    if !("node/" <= topic) then None
    else
      var parts := SplitMax(topic, '/', 2);
      if |parts| < 3 || parts[1] == "" || parts[2] == "" then None else Some((parts[1], parts[2]))
  }

  lemma AfterNode(rest: string)
    ensures SplitTopic("node/" + rest) ==
      match Cut(rest, '/')
      case None => None
      case Some((id, suffix)) => if id == "" || suffix == "" then None else Some((id, suffix))
  {
    var topic := "node/" + rest;
    assert topic == "node" + ['/'] + rest;
    SplitTwice("node", '/', rest);
  }

  /** The codec, both ways at once: a topic splits into `(id, suffix)` exactly when it is printed from
      them, the id is a non-empty single level and the suffix is not empty. */
  lemma SplitIffPrinted(topic: string, id: string, suffix: string)
    ensures SplitTopic(topic) == Some((id, suffix)) <==>
      topic == NodeTopic(id, suffix) && id != "" && '/' !in id && suffix != ""
  {
    assert NodeTopic(id, suffix) == "node/" + (id + ['/'] + suffix);
    if "node/" <= topic {
      var rest := topic[5..];
      assert topic == "node/" + rest;
      AfterNode(rest);
      CutIff(rest, '/', id, suffix);
      assert topic == NodeTopic(id, suffix) <==> rest == id + ['/'] + suffix;
    }
  }

  // ---------- Publishing ----------

  predicate AllowedTopic(username: string, topic: string) {
    "node/" + username + "/" <= topic
  }

  predicate IsBackend(backend: string, username: Option<string>) {
    username.Some? && username.value != "" && username.value == backend
  }

  predicate PublishOk(backend: string, username: Option<string>, topic: string) {
    topic != "" &&
    (IsBackend(backend, username) ||
     (username.Some? && username.value != "" && AllowedTopic(username.value, topic)))
  }

  /** The backend may publish anywhere, a device exactly under its own name. */
  lemma PublishIff(backend: string, username: Option<string>, topic: string)
    ensures PublishOk(backend, username, topic) <==>
      topic != "" && username.Some? && username.value != "" &&
      (username.value == backend || exists suffix :: topic == "node/" + username.value + "/" + suffix)
  {
    if username.Some? && "node/" + username.value + "/" <= topic {
      var prefix := "node/" + username.value + "/";
      assert topic == prefix + topic[|prefix|..];
    }
  }

  /** Whatever `cn` may publish is dropped by the splitter or attributed to `cn`. */
  ghost predicate AttributedTo(cn: string) {
    forall topic :: AllowedTopic(cn, topic) && SplitTopic(topic).Some? ==> SplitTopic(topic).value.0 == cn
  }

  lemma SlashFreeIsAttributed(cn: string, topic: string)
    requires '/' !in cn && AllowedTopic(cn, topic)
    ensures SplitTopic(topic).Some? ==> SplitTopic(topic).value.0 == cn
  {
    var suffix := topic[|"node/" + cn + "/"|..];
    assert topic == "node/" + (cn + ['/'] + suffix);
    AfterNode(cn + ['/'] + suffix);
    CutIsFirst(cn, '/', suffix);
  }

  lemma LeadingSlashIsDropped(cn: string, topic: string)
    requires cn != "" && cn[0] == '/' && AllowedTopic(cn, topic)
    ensures SplitTopic(topic).None?
  {
    var rest := topic[5..];
    assert topic == "node/" + rest && rest[0] == '/';
    AfterNode(rest);
    assert Cut(rest, '/') == Some(("", rest[1..]));
  }

  /** A name with a slash inside is allowed a topic of the node named by its first level. */
  lemma InnerSlashIsMisread(cn: string)
    requires '/' in cn && cn[0] != '/'
    ensures
      var topic := "node/" + cn + "/" + "x";
      AllowedTopic(cn, topic) && SplitTopic(topic).Some? && SplitTopic(topic).value.0 != cn
  {
    var (a, b) := Cut(cn, '/').value;
    var rest := a + ['/'] + (b + "/x");
    AfterNode(rest);
    CutIsFirst(a, '/', b + "/x");
    assert "node/" + cn + "/" + "x" == "node/" + rest;
  }

  /** Attribution is exact if and only if the name has no slash, or begins with one: then all its topics are dropped. */
  lemma AttributionIff(cn: string)
    ensures AttributedTo(cn) <==> ('/' in cn ==> cn[0] == '/')
  {
    if '/' !in cn {
      forall topic | AllowedTopic(cn, topic) && SplitTopic(topic).Some? ensures SplitTopic(topic).value.0 == cn {
        SlashFreeIsAttributed(cn, topic);
      }
    } else if cn[0] == '/' {
      forall topic | AllowedTopic(cn, topic) ensures SplitTopic(topic).None? {
        LeadingSlashIsDropped(cn, topic);
      }
    } else {
      InnerSlashIsMisread(cn);
    }
  }

  // ---------- Topic filters (section 4.7 of MQTT 3.1.1) ----------

  /** The levels of a topic or filter, separated by `/`; empty levels count. */
  function Levels(s: string): (ls: seq<string>)
    ensures |ls| >= 1
    decreases |s|
  {
    match Cut(s, '/')
    case None => [s]
    case Some((a, b)) => [a] + Levels(b)
  }

  function Joined(ls: seq<string>): string
    requires |ls| >= 1
  {
    if |ls| == 1 then ls[0] else ls[0] + "/" + Joined(ls[1..])
  }

  lemma {:induction false} JoinedLevels(s: string)
    ensures Joined(Levels(s)) == s
    decreases |s|
  {
    var cut := Cut(s, '/');
    if cut.Some? {
      JoinedLevels(cut.value.1);
      assert Levels(s)[1..] == Levels(cut.value.1);
    }
  }

  lemma Regroup(x: string, y: string, b: string)
    ensures x + ['/'] + y == x + "/" + y
    ensures x + "/" + y + "/" + b == x + "/" + (y + "/" + b)
  {
  }

  lemma {:induction false} LevelsAppend(a: string, b: string)
    ensures Levels(a + "/" + b) == Levels(a) + Levels(b)
    decreases |a|
  {
    var cut := Cut(a, '/');
    if cut.None? {
      LevelsCons(a, b);
    } else {
      var (x, y) := cut.value;
      Regroup(x, y, b);
      LevelsCons(x, y);
      LevelsCons(x, y + "/" + b);
      LevelsAppend(y, b);
      AppendAssoc([x], Levels(y), Levels(b));
    }
  }

  lemma LevelsCons(level: string, rest: string)
    requires '/' !in level
    ensures Levels(level) == [level]
    ensures Levels(level + "/" + rest) == [level] + Levels(rest)
  {
    CutIsFirst(level, '/', rest);
  }

  lemma {:induction false} JoinedAppend(xs: seq<string>, ys: seq<string>)
    requires |xs| >= 1 && |ys| >= 1
    ensures Joined(xs + ys) == Joined(xs) + "/" + Joined(ys)
  {
    if |xs| == 1 {
      assert (xs + ys)[1..] == ys;
    } else {
      JoinedAppend(xs[1..], ys);
      assert (xs + ys)[1..] == xs[1..] + ys;
    }
  }

  predicate Literal(level: string) {
    '+' !in level && '#' !in level
  }

  /** `+` and `#` stand alone in their level, and `#` only at the end. */
  predicate ValidFilter(f: seq<string>) {
    forall i :: 0 <= i < |f| ==> Literal(f[i]) || f[i] == "+" || (f[i] == "#" && i == |f| - 1)
  }

  predicate MatchLevels(f: seq<string>, t: seq<string>) {
    if f == [] then t == []
    else if f == ["#"] then true
    else t != [] && (f[0] == "+" || f[0] == t[0]) && MatchLevels(f[1..], t[1..])
  }

  predicate Matches(filter: string, topic: string) {
    filter != "" && topic != "" &&
    ValidFilter(Levels(filter)) && MatchLevels(Levels(filter), Levels(topic)) &&
    (topic[0] == '$' ==> Levels(filter)[0] != "+" && Levels(filter)[0] != "#")
  }

  predicate InNamespace(cn: string, topic: string) {
    topic == "node/" + cn || "node/" + cn + "/" <= topic
  }

  /** Every filter `cn` may subscribe to matches topics of its own namespace only. */
  ghost predicate SubscriptionsConfined(cn: string) {
    forall filter, topic :: AllowedTopic(cn, filter) && Matches(filter, topic) ==> InNamespace(cn, topic)
  }

  /** The name contains a whole level `+`, and no other wildcard that would spoil the filter. */
  predicate ActsAsWildcard(cn: string) {
    "+" in Levels(cn) && forall l :: l in Levels(cn) ==> Literal(l) || l == "+"
  }

  /** A filter's literal levels are found unchanged at the head of every topic it matches. */
  lemma {:induction false} LiteralHead(head: seq<string>, f: seq<string>, t: seq<string>)
    requires forall l :: l in head ==> Literal(l)
    requires MatchLevels(head + f, t)
    ensures head <= t
  {
    if head != [] {
      assert head[0] in head && (head + f)[0] == head[0];
      assert '#' in "#";
      assert (head + f)[1..] == head[1..] + f;
      assert forall l :: l in head[1..] ==> l in head;
      LiteralHead(head[1..], f, t[1..]);
    }
  }

  /** A topic whose levels begin with those of `base` is `base` or lies under it. */
  lemma HeadIsPrefix(base: string, topic: string)
    requires Levels(base) <= Levels(topic)
    ensures topic == base || base + "/" <= topic
  {
    JoinedLevels(base);
    JoinedLevels(topic);
    var (bs, ts) := (Levels(base), Levels(topic));
    var rest := ts[|bs|..];
    if rest == [] {
      assert ts == bs;
    } else {
      assert ts == bs + rest;
      JoinedAppend(bs, rest);
    }
  }

  lemma AllowedFilterLevels(cn: string, filter: string)
    requires AllowedTopic(cn, filter)
    ensures Levels("node/" + cn) == ["node"] + Levels(cn)
    ensures exists f :: |f| >= 1 && Levels(filter) == Levels("node/" + cn) + f
  {
    LevelsAppend("node", cn);
    assert Cut("node", '/').None?;
    assert "node" + "/" + cn == "node/" + cn;
    var rest := filter[|"node/" + cn + "/"|..];
    LevelsAppend("node/" + cn, rest);
    assert filter == ("node/" + cn) + "/" + rest;
    assert Levels(filter) == Levels("node/" + cn) + Levels(rest);
  }

  lemma LiteralNameIsConfined(cn: string, filter: string, topic: string)
    requires forall l :: l in Levels(cn) ==> Literal(l)
    requires AllowedTopic(cn, filter) && Matches(filter, topic)
    ensures InNamespace(cn, topic)
  {
    AllowedFilterLevels(cn, filter);
    var f :| |f| >= 1 && Levels(filter) == Levels("node/" + cn) + f;
    LiteralHead(Levels("node/" + cn), f, Levels(topic));
    HeadIsPrefix("node/" + cn, topic);
  }

  /** Every `+` level filled in with `x`. */
  function Filled(ls: seq<string>): (r: seq<string>)
    ensures |r| == |ls|
    ensures forall i :: 0 <= i < |ls| ==> r[i] == if ls[i] == "+" then "x" else ls[i]
  {
    seq(|ls|, i requires 0 <= i < |ls| => if ls[i] == "+" then "x" else ls[i])
  }

  lemma {:induction false} FilledLength(ls: seq<string>)
    requires |ls| >= 1
    ensures |Joined(Filled(ls))| == |Joined(ls)|
  {
    if |ls| > 1 {
      FilledLength(ls[1..]);
      assert Filled(ls)[1..] == Filled(ls[1..]);
    }
  }

  lemma {:induction false} FilledMatches(ls: seq<string>)
    requires forall l :: l in ls ==> l != "#"
    ensures MatchLevels(ls + ["#"], Filled(ls))
  {
    if ls != [] {
      assert ls[0] in ls && forall l :: l in ls[1..] ==> l in ls;
      assert (ls + ["#"])[0] == ls[0];
      assert (ls + ["#"])[1..] == ls[1..] + ["#"];
      assert Filled(ls)[1..] == Filled(ls[1..]);
      FilledMatches(ls[1..]);
    }
  }

  /** No level of `Levels(s)` holds a slash, so joining and splitting again is the identity on levels. */
  lemma {:induction false} LevelsJoined(ls: seq<string>)
    requires |ls| >= 1 && forall l :: l in ls ==> '/' !in l
    ensures Levels(Joined(ls)) == ls
  {
    assert ls[0] in ls;
    if |ls| > 1 {
      LevelsJoined(ls[1..]);
      assert ls[0] + "/" + Joined(ls[1..]) == ls[0] + ['/'] + Joined(ls[1..]);
      CutIsFirst(ls[0], '/', Joined(ls[1..]));
    }
  }

  lemma {:induction false} LevelsSlashFree(s: string)
    ensures forall l :: l in Levels(s) ==> '/' !in l
    decreases |s|
  {
    var cut := Cut(s, '/');
    if cut.Some? {
      LevelsSlashFree(cut.value.1);
    }
  }

  lemma NamespaceLevels(cn: string)
    ensures Levels("node/" + cn) == ["node"] + Levels(cn)
  {
    LevelsCons("node", cn);
    assert "node/" + cn == "node" + "/" + cn;
  }

  lemma FilledFilterMatches(base: string)
    requires base != "" && Levels(base)[0] != "+" && forall l :: l in Levels(base) ==> Literal(l) || l == "+"
    ensures Levels(Joined(Filled(Levels(base)))) == Filled(Levels(base))
    ensures Matches(base + "/" + "#", Joined(Filled(Levels(base))))
  {
    var ls := Levels(base);
    LevelsAppend(base, "#");
    LevelsCons("#", "");
    FilledMatches(ls);
    LevelsSlashFree(base);
    LevelsJoined(Filled(ls));
    FilledLength(ls);
    JoinedLevels(base);
  }

  lemma FilledEscapes(base: string)
    requires "+" in Levels(base)
    requires Levels(Joined(Filled(Levels(base)))) == Filled(Levels(base))
    ensures
      var topic := Joined(Filled(Levels(base)));
      topic != base && !(base + "/" <= topic)
  {
    var ls := Levels(base);
    FilledLength(ls);
    JoinedLevels(base);
    var k :| 0 <= k < |ls| && ls[k] == "+";
    assert Filled(ls)[k] == "x";
  }

  lemma WildcardNameEscapes(cn: string, base: string)
    requires ActsAsWildcard(cn) && base == "node/" + cn
    ensures !SubscriptionsConfined(cn)
  {
    NamespaceLevels(cn);
    assert forall l :: l in Levels(base) ==> l == "node" || l in Levels(cn);
    assert Literal("node");
    FilledFilterMatches(base);
    FilledEscapes(base);
    EscapeBreaks(cn, base + "/" + "#", Joined(Filled(Levels(base))));
  }

  lemma EscapeBreaks(cn: string, filter: string, topic: string)
    requires AllowedTopic(cn, filter) && Matches(filter, topic) && !InNamespace(cn, topic)
    ensures !SubscriptionsConfined(cn)
  {
  }

  /** The prefix check is sound for filters if and only if the name does not itself act as a wildcard;
      names without `/`, `+` and `#` are the special case the broker relies on. */
  lemma SubscriptionsConfinedIff(cn: string)
    ensures SubscriptionsConfined(cn) <==> !ActsAsWildcard(cn)
  {
    if ActsAsWildcard(cn) {
      WildcardNameEscapes(cn, "node/" + cn);
    } else {
      forall filter, topic | AllowedTopic(cn, filter) && Matches(filter, topic) ensures InNamespace(cn, topic) {
        AllowedFilterLevels(cn, filter);
        var f :| |f| >= 1 && Levels(filter) == Levels("node/" + cn) + f;
        forall l | l in Levels(cn) ensures Literal(l) || l == "+" {
          var i :| 0 <= i < |Levels(cn)| && Levels(cn)[i] == l;
          assert Levels(filter)[i + 1] == l;
        }
        assert "+" !in Levels(cn);
        LiteralNameIsConfined(cn, filter, topic);
      }
    }
  }

  lemma MatchTwoThenAny(a: string, ls: seq<string>)
    requires a != "+" && a != "#"
    ensures MatchLevels([a, "+", "#"], ls) <==> |ls| >= 2 && ls[0] == a
  {
    var f := [a, "+", "#"];
    assert f[1..] == ["+", "#"] && f[1..][1..] == ["#"];
    if |ls| >= 2 && ls[0] == a {
      assert MatchLevels(f[1..][1..], ls[1..][1..]);
      assert MatchLevels(f[1..], ls[1..]);
    }
  }

  lemma ThreeLevels(a: string, b: string, c: string)
    requires '/' !in a && '/' !in b && '/' !in c
    ensures Levels(a + "/" + (b + "/" + c)) == [a, b, c]
  {
    LevelsCons(a, b + "/" + c);
    LevelsCons(b, c);
    LevelsCons(c, "");
  }

  lemma IngestorLevels(filter: string)
    requires filter == "node/+/#"
    ensures Levels(filter) == ["node", "+", "#"]
  {
    ThreeLevels("node", "+", "#");
    assert filter == "node" + "/" + ("+" + "/" + "#");
  }

  lemma IngestorMatches(filter: string, topic: string)
    requires filter == "node/+/#"
    ensures Matches(filter, topic) <==> |Levels(topic)| >= 2 && Levels(topic)[0] == "node"
  {
    IngestorLevels(filter);
    ThreeLevelFilter("node", Levels(filter), Levels(topic));
    JoinedLevels(topic);
  }

  lemma ThreeLevelFilter(first: string, f: seq<string>, ls: seq<string>)
    requires Literal(first) && f == [first, "+", "#"]
    ensures ValidFilter(f) && f[0] != "+" && f[0] != "#"
    ensures MatchLevels(f, ls) <==> |ls| >= 2 && ls[0] == first
  {
    assert '+' in "+" && '#' in "#";
    MatchTwoThenAny(first, ls);
  }

  lemma UnderNode(topic: string)
    ensures "node/" <= topic <==> |Levels(topic)| >= 2 && Levels(topic)[0] == "node"
    ensures "node/" <= topic ==> Levels(topic) == ["node"] + Levels(topic[5..])
  {
    JoinedLevels(topic);
    if "node/" <= topic {
      LevelsCons("node", topic[5..]);
      assert topic == "node" + "/" + topic[5..];
    }
  }

  lemma FilterCovers(filter: string, topic: string)
    requires filter == "node/+/#"
    ensures SplitTopic(topic).Some? <==>
      Matches(filter, topic) && |Levels(topic)| >= 3 && Levels(topic)[1] != "" && Levels(topic)[2..] != [""]
  {
    IngestorMatches(filter, topic);
    UnderNode(topic);
    if "node/" <= topic {
      SplitLevels(topic[5..]);
      AfterNode(topic[5..]);
      assert topic == "node/" + topic[5..];
    }
  }

  /** What the ingestor subscribes to. */
  const INGESTOR_FILTER := "node/+/#"

  /** The ingestor's own subscription covers exactly what it can route, short of empty ids and suffixes. */
  lemma IngestorFilterCovers(topic: string)
    ensures SplitTopic(topic).Some? <==>
      Matches(INGESTOR_FILTER, topic) && |Levels(topic)| >= 3 && Levels(topic)[1] != "" && Levels(topic)[2..] != [""]
  {
    FilterCovers(INGESTOR_FILTER, topic);
  }

  lemma SplitLevels(rest: string)
    ensures |Levels(rest)| >= 2 <==> '/' in rest
    ensures |Levels(rest)| >= 2 ==>
      Levels(rest)[0] == Cut(rest, '/').value.0 && (Levels(rest)[1..] == [""] <==> Cut(rest, '/').value.1 == "")
  {
  }

  /** `authorise_subscribe`: the early-exit loop over the requested filters. */
  method AuthoriseSubscribe(backend: string, username: Option<string>, topics: Option<seq<string>>) returns (ok: bool)
    ensures ok <==>
      username.Some? && username.value != "" &&
      (username.value == backend ||
        (topics.Some? ==> forall t :: t in topics.value ==> "node/" + username.value + "/" <= t))
  {
    if IsBackend(backend, username) { return true; }
    if username.None? || username.value == "" { return false; }
    if topics.None? || topics.value == [] { return true; }
    for i := 0 to |topics.value|
      invariant forall t :: t in topics.value[..i] ==> AllowedTopic(username.value, t)
    {
      if !AllowedTopic(username.value, topics.value[i]) {
        assert topics.value[i] in topics.value;
        return false;
      }
    }
    assert topics.value[..|topics.value|] == topics.value;
    return true;
  }
}
