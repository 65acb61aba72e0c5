/** `RSSScheduler` (bucket/rss_scheduler.py): named schedule configurations
    in an insertion-ordered table, the due test of the scheduler loop, the
    execution of one schedule through the RSS manager, and the dispatch of
    its notifications.  Times are whole seconds and the clock is the `now`
    argument; the callbacks and the HTTP endpoint are parameters that only
    say whether they failed. */
module Scheduler {
  import opened Models
  import opened Seqs
  import opened Store
  import opened Dedup
  import opened Ingest
  import opened Manager
  import opened Dicts

  // ---------------------------------------------------------------------
  // Configurations and their timing

  /** `ScheduleConfig`; `callbackData` values are kept as strings. */
  datatype ScheduleConfig = ScheduleConfig(
    feedId: Option<int>,
    intervalMinutes: int,
    maxArticles: nat,
    enabled: bool,
    lastRun: Option<int>,
    nextRun: Option<int>,
    callbackUrl: Option<string>,
    callbackData: Option<map<string, string>>)

  /** The dataclass defaults: all feeds, hourly, ten articles, enabled. */
  const DefaultConfig := ScheduleConfig(None, 60, 10, true, None, None, None, None)

  /** `_calculate_next_run`: one interval after the last run, or after `now`
      when the schedule has never run (a `datetime` is always truthy). */
  function CalculateNextRun(c: ScheduleConfig, now: int): int {
    (if c.lastRun.Some? then c.lastRun.value else now) + c.intervalMinutes * 60
  }

  /** The test of the scheduler loop: enabled, and a next run that has come. */
  predicate Due(c: ScheduleConfig, now: int) {
    c.enabled && c.nextRun.Some? && now >= c.nextRun.value
  }

  /** The timing update after a successful run at `now`. */
  function Stamped(c: ScheduleConfig, now: int): ScheduleConfig {
    var c1 := c.(lastRun := Some(now));
    c1.(nextRun := Some(CalculateNextRun(c1, now)))
  }

  /** The next run is anchored to the time of the run: a stamped schedule is
      due exactly once a whole interval has passed since it ran, whatever its
      previous `next_run` or `last_run` were. */
  lemma StampedDueIff(c: ScheduleConfig, now: int, t: int)
    ensures Stamped(c, now).lastRun == Some(now)
    ensures Due(Stamped(c, now), t) <==> c.enabled && t >= now + c.intervalMinutes * 60
    ensures forall x, y :: Stamped(c.(nextRun := x, lastRun := y), now) == Stamped(c, now)
  {
  }

  /** With a positive interval, a schedule that has just run is not due
      again at any moment before the interval has elapsed. */
  lemma NotDueBeforeInterval(c: ScheduleConfig, now: int, t: int)
    requires c.intervalMinutes > 0 && t < now + c.intervalMinutes * 60
    ensures !Due(Stamped(c, now), t)
  {
    StampedDueIff(c, now, t);
  }

  /** Every stored configuration has a next run. */
  ghost predicate AllPlanned(t: Dict<ScheduleConfig>) {
    forall k :: k in t.values ==> t.values[k].nextRun.Some?
  }

  // ---------------------------------------------------------------------
  // add_schedule, remove_schedule, update_schedule

  /** `add_schedule(name, config)`: stored under `name`, replacing any entry
      of that name in place, with its next run computed. */
  function AddScheduleOf(t: Dict<ScheduleConfig>, name: string, c: ScheduleConfig, now: int): (r: Dict<ScheduleConfig>)
    requires WellFormed(t)
    ensures WellFormed(r)
  {
    Put(t, name, c.(nextRun := Some(CalculateNextRun(c, now))))
  }

  /** The new entry keeps every field it was given except `next_run`, which
      is the interval after its last run or after now; a replaced name keeps
      its place, a new one goes last, and the other entries are unchanged. */
  lemma AddScheduleSpec(t: Dict<ScheduleConfig>, name: string, c: ScheduleConfig, now: int)
    requires WellFormed(t)
    ensures var r := AddScheduleOf(t, name, c, now);
      Get(r, name).Some? && Get(r, name).value.(nextRun := c.nextRun) == c
      && Get(r, name).value.nextRun == Some(if c.lastRun.Some? then c.lastRun.value + c.intervalMinutes * 60
                                            else now + c.intervalMinutes * 60)
      && (forall j :: j != name ==> Get(r, j) == Get(t, j))
      && r.keys == (if name in t.keys then t.keys else t.keys + [name])
  {
    PutGet(t, name, c.(nextRun := Some(CalculateNextRun(c, now))));
  }

  lemma AddSchedulePlans(t: Dict<ScheduleConfig>, name: string, c: ScheduleConfig, now: int)
    requires WellFormed(t) && AllPlanned(t)
    ensures AllPlanned(AddScheduleOf(t, name, c, now))
  {
  }

  /** `remove_schedule(name)`: the table afterwards and whether the name was
      there. */
  function RemoveScheduleOf(t: Dict<ScheduleConfig>, name: string): (r: (Dict<ScheduleConfig>, bool))
    requires WellFormed(t)
    ensures WellFormed(r.0)
  {
    if name in t.values then (Delete(t, name), true) else (t, false)
  }

  /** True exactly when the name was present; afterwards it is absent, every
      other entry is unchanged and the remaining names keep their order. */
  lemma RemoveScheduleSpec(t: Dict<ScheduleConfig>, name: string)
    requires WellFormed(t)
    ensures var (r, ok) := RemoveScheduleOf(t, name);
      (ok <==> name in t.values) && Get(r, name).None?
      && (forall j :: j != name ==> Get(r, j) == Get(t, j))
      && IsSubseq(r.keys, t.keys)
  {
    DeleteGet(t, name);
    if name !in t.values {
      IsSubseqRefl(t.keys);
    }
  }

  lemma {:induction false} IsSubseqRefl(s: seq<string>)
    ensures IsSubseq(s, s)
    decreases |s|
  {
    if s != [] {
      IsSubseqRefl(s[1..]);
    }
  }

  /** Removing a schedule just added under a new name restores the table. */
  lemma RemoveUndoesAdd(t: Dict<ScheduleConfig>, name: string, c: ScheduleConfig, now: int)
    requires WellFormed(t) && name !in t.values
    ensures RemoveScheduleOf(AddScheduleOf(t, name, c, now), name) == (t, true)
  {
    DeleteAfterPut(t, name, c.(nextRun := Some(CalculateNextRun(c, now))));
  }

  /** One keyword argument of `update_schedule`: one per attribute of the
      configuration, and `Unknown` for a name it does not have, which
      `hasattr` makes the update skip. */
  datatype Setting =
    | SetFeedId(feedId: Option<int>)
    | SetIntervalMinutes(minutes: int)
    | SetMaxArticles(maxArticles: nat)
    | SetEnabled(on: bool)
    | SetLastRun(lastRun: Option<int>)
    | SetNextRun(nextRun: Option<int>)
    | SetCallbackUrl(url: Option<string>)
    | SetCallbackData(data: Option<map<string, string>>)
    | Unknown(key: string)

  /** `setattr(config, key, value)` when `hasattr(config, key)`. */
  function Apply(c: ScheduleConfig, s: Setting): ScheduleConfig {
    match s
    case SetFeedId(v) => c.(feedId := v)
    case SetIntervalMinutes(v) => c.(intervalMinutes := v)
    case SetMaxArticles(v) => c.(maxArticles := v)
    case SetEnabled(v) => c.(enabled := v)
    case SetLastRun(v) => c.(lastRun := v)
    case SetNextRun(v) => c.(nextRun := v)
    case SetCallbackUrl(v) => c.(callbackUrl := v)
    case SetCallbackData(v) => c.(callbackData := v)
    case Unknown(_) => c
  }

  /** The settings applied in order. */
  function ApplyAll(c: ScheduleConfig, ss: seq<Setting>): ScheduleConfig
    decreases |ss|
  {
    if ss == [] then c else Apply(ApplyAll(c, ss[..|ss| - 1]), ss[|ss| - 1])
  }

  /** The target of a schedule (its feed, its article cap, its enabled
      flag) keeps its value unless a setting names it. */
  lemma {:induction false} ApplyAllKeepsTarget(c: ScheduleConfig, ss: seq<Setting>)
    ensures var r := ApplyAll(c, ss);
      ((forall s :: s in ss ==> !s.SetFeedId?) ==> r.feedId == c.feedId)
      && ((forall s :: s in ss ==> !s.SetMaxArticles?) ==> r.maxArticles == c.maxArticles)
      && ((forall s :: s in ss ==> !s.SetEnabled?) ==> r.enabled == c.enabled)
    decreases |ss|
  {
    if ss != [] {
      var init := ss[..|ss| - 1];
      assert forall s :: s in init ==> s in ss;
      assert ss[|ss| - 1] in ss;
      ApplyAllKeepsTarget(c, init);
    }
  }

  /** The timing of a schedule keeps its value unless a setting names it. */
  lemma {:induction false} ApplyAllKeepsTiming(c: ScheduleConfig, ss: seq<Setting>)
    ensures var r := ApplyAll(c, ss);
      ((forall s :: s in ss ==> !s.SetIntervalMinutes?) ==> r.intervalMinutes == c.intervalMinutes)
      && ((forall s :: s in ss ==> !s.SetLastRun?) ==> r.lastRun == c.lastRun)
      && ((forall s :: s in ss ==> !s.SetNextRun?) ==> r.nextRun == c.nextRun)
    decreases |ss|
  {
    if ss != [] {
      var init := ss[..|ss| - 1];
      assert forall s :: s in init ==> s in ss;
      assert ss[|ss| - 1] in ss;
      ApplyAllKeepsTiming(c, init);
    }
  }

  /** The HTTP callback of a schedule keeps its value unless a setting
      names it. */
  lemma {:induction false} ApplyAllKeepsCallback(c: ScheduleConfig, ss: seq<Setting>)
    ensures var r := ApplyAll(c, ss);
      ((forall s :: s in ss ==> !s.SetCallbackUrl?) ==> r.callbackUrl == c.callbackUrl)
      && ((forall s :: s in ss ==> !s.SetCallbackData?) ==> r.callbackData == c.callbackData)
    decreases |ss|
  {
    if ss != [] {
      var init := ss[..|ss| - 1];
      assert forall s :: s in init ==> s in ss;
      assert ss[|ss| - 1] in ss;
      ApplyAllKeepsCallback(c, init);
    }
  }

  /** Names the configuration does not have change nothing. */
  lemma {:induction false} UnknownSettingsIgnored(c: ScheduleConfig, ss: seq<Setting>)
    requires forall s :: s in ss ==> s.Unknown?
    ensures ApplyAll(c, ss) == c
    decreases |ss|
  {
    if ss != [] {
      var init := ss[..|ss| - 1];
      assert forall s :: s in init ==> s in ss;
      assert ss[|ss| - 1] in ss;
      UnknownSettingsIgnored(c, init);
    }
  }

  /** The last setting of an attribute wins. */
  lemma ApplyAllLastWins(c: ScheduleConfig, ss: seq<Setting>, minutes: int)
    ensures ApplyAll(c, ss + [SetIntervalMinutes(minutes)]).intervalMinutes == minutes
  {
    assert (ss + [SetIntervalMinutes(minutes)])[..|ss|] == ss;
  }

  /** `update_schedule(name, **settings)`: the table afterwards and whether
      the name was there. */
  function UpdateScheduleOf(t: Dict<ScheduleConfig>, name: string, ss: seq<Setting>, now: int)
    : (r: (Dict<ScheduleConfig>, bool))
    requires WellFormed(t)
    ensures WellFormed(r.0)
  {
    if name !in t.values then (t, false)
    else
      var c := ApplyAll(t.values[name], ss);
      (Put(t, name, c.(nextRun := Some(CalculateNextRun(c, now)))), true)
  }

  /** A missing name changes nothing and gives false.  Otherwise the entry
      is the old one with the settings applied and its next run recomputed
      from the (possibly new) last run and interval, even when a setting
      named `next_run`; no other entry and no name's place changes. */
  lemma UpdateScheduleSpec(t: Dict<ScheduleConfig>, name: string, ss: seq<Setting>, now: int)
    requires WellFormed(t)
    ensures var (r, ok) := UpdateScheduleOf(t, name, ss, now);
      (ok <==> name in t.values)
      && (!ok ==> r == t)
      && (ok ==> var c := ApplyAll(t.values[name], ss);
            Get(r, name) == Some(c.(nextRun := Some(CalculateNextRun(c, now))))
            && r.keys == t.keys)
      && (forall j :: j != name ==> Get(r, j) == Get(t, j))
  {
    if name in t.values {
      var c := ApplyAll(t.values[name], ss);
      PutGet(t, name, c.(nextRun := Some(CalculateNextRun(c, now))));
    }
  }

  lemma UpdateSchedulePlans(t: Dict<ScheduleConfig>, name: string, ss: seq<Setting>, now: int)
    requires WellFormed(t) && AllPlanned(t)
    ensures AllPlanned(UpdateScheduleOf(t, name, ss, now).0)
  {
  }

  /** The loop of `update_schedule` over its keyword arguments. */
  method ApplySettings(c: ScheduleConfig, ss: seq<Setting>) returns (r: ScheduleConfig)
    ensures r == ApplyAll(c, ss)
  {
    r := c;
    for i := 0 to |ss|
      invariant r == ApplyAll(c, ss[..i])
    {
      assert ss[..i + 1][..i] == ss[..i];
      r := match ss[i]
        case SetFeedId(v) => r.(feedId := v)
        case SetIntervalMinutes(v) => r.(intervalMinutes := v)
        case SetMaxArticles(v) => r.(maxArticles := v)
        case SetEnabled(v) => r.(enabled := v)
        case SetLastRun(v) => r.(lastRun := v)
        case SetNextRun(v) => r.(nextRun := v)
        case SetCallbackUrl(v) => r.(callbackUrl := v)
        case SetCallbackData(v) => r.(callbackData := v)
        case Unknown(_) => r;
    }
    assert ss[..|ss|] == ss;
  }

  // ---------------------------------------------------------------------
  // _execute_schedule

  /** The `update_result` dict: a single-feed refresh or a run over all
      feeds. */
  datatype UpdateResult =
    | FeedUpdated(scheduleName: string, feedId: int, feedName: string, newArticles: nat, articles: seq<Article>)
    | AllUpdated(scheduleName: string, feedsProcessed: nat, newArticles: nat, results: map<string, seq<Article>>)

  /** The sum of the list lengths over the keys `ks` of `m`. */
  ghost function SumOver(m: map<string, seq<Article>>, ks: set<string>): nat
    requires ks <= m.Keys
    decreases ks
  {
    if ks == {} then 0
    else
      var k :| k in ks;
      |m[k]| + SumOver(m, ks - {k})
  }

  /** `sum(len(articles) for articles in results.values())`. */
  ghost function TotalNew(m: map<string, seq<Article>>): nat {
    SumOver(m, m.Keys)
  }

  /** The sum does not depend on which key is taken first. */
  lemma SumOverRemove(m: map<string, seq<Article>>, ks: set<string>, k: string)
    requires ks <= m.Keys && k in ks
    ensures SumOver(m, ks) == |m[k]| + SumOver(m, ks - {k})
    decreases ks
  {
    var j :| j in ks && SumOver(m, ks) == |m[j]| + SumOver(m, ks - {j});
    if j != k {
      SumOverRemove(m, ks - {j}, k);
      SumOverRemove(m, ks - {k}, j);
      assert ks - {j} - {k} == ks - {k} - {j};
    }
  }

  /** A feed with no new articles adds nothing; one new article under a
      fresh name adds one. */
  lemma TotalNewPut(m: map<string, seq<Article>>, k: string, arts: seq<Article>)
    requires k !in m
    ensures TotalNew(m[k := arts]) == TotalNew(m) + |arts|
  {
    var m' := m[k := arts];
    SumOverRemove(m', m'.Keys, k);
    assert m'.Keys - {k} == m.Keys;
    SumOverAgree(m', m, m.Keys);
  }

  lemma SumOverAgree(m: map<string, seq<Article>>, m': map<string, seq<Article>>, ks: set<string>)
    requires ks <= m.Keys && ks <= m'.Keys
    requires forall k :: k in ks ==> m[k] == m'[k]
    ensures SumOver(m, ks) == SumOver(m', ks)
    decreases ks
  {
    if ks != {} {
      var k :| k in ks && SumOver(m, ks) == |m[k]| + SumOver(m, ks - {k});
      SumOverRemove(m', ks, k);
      SumOverAgree(m, m', ks - {k});
    }
  }

  /** The loop of the sum over the dict's values, taken in any order. */
  method SumNewArticles(results: map<string, seq<Article>>) returns (total: nat)
    ensures total == TotalNew(results)
  {
    total := 0;
    var left := results.Keys;
    while left != {}
      invariant left <= results.Keys
      invariant total + SumOver(results, left) == TotalNew(results)
      decreases left
    {
      var k :| k in left;
      SumOverRemove(results, left, k);
      total := total + |results[k]|;
      left := left - {k};
    }
  }

  /** Python truthiness of `feed_id`: present and non-zero. */
  predicate TruthyId(id: Option<int>) {
    id.Some? && id.value != 0
  }

  /** The fetch a single-feed refresh meets: the one that feed's entries
      give at `now` (unused when the feed is missing). */
  function RefreshRun(feeds: seq<Feed>, id: int, runs: (Feed, int) -> FeedRun, now: int): FeedRun {
    var f := FindFeed(feeds, id);
    if f.Some? then runs(f.value, now) else FeedRun(None, NoFaults)
  }

  /** The update part of `_execute_schedule` for the configuration `c`: the
      store afterwards and the `update_result`, or `None` when the refresh
      returned an error. */
  ghost function RunUpdateOf(md5: string -> HexDigest, st: StoreState, name: string, c: ScheduleConfig,
                             now: int, runs: (Feed, int) -> FeedRun): (StoreState, Option<UpdateResult>)
  {
    if TruthyId(c.feedId) then
      var id := c.feedId.value;
      var (st', r) := RefreshOf(md5, st, id, c.maxArticles, RefreshRun(st.feeds, id, runs, now), now);
      if r.RefreshError? then (st', None)
      else (st', Some(FeedUpdated(name, id, r.feed.name, r.newArticles, r.articles)))
    else
      var (st', pairs) := FetchAll(md5, st, ActiveFeeds(st.feeds), c.maxArticles, runs, now);
      var results := DictOf(pairs);
      (st', Some(AllUpdated(name, |results|, TotalNew(results), results)))
  }

  /** A registered callback, called with the schedule name and the result;
      it answers whether it raised. */
  type Notifier = (string, UpdateResult) -> bool

  /** What the endpoint of an HTTP callback did: answered with a status, or
      raised (no `aiohttp`, a connection error). The failure to encode the
      payload, which as written comes before any request, is not an answer
      of the endpoint: `HttpNoticesAsWritten` states it. */
  datatype HttpOutcome = Status(code: int) | Raised

  datatype PayloadValue =
    | Timestamp(t: int)
    | ResultValue(u: UpdateResult)
    | ConfigValue(c: ScheduleConfig)
    | DataValue(v: string)

  type Payload = map<string, PayloadValue>

  /** One notification sent: a callback call, and whether it raised, or an
      HTTP post, and whether it succeeded. */
  datatype Notice =
    | Called(callback: string, schedule: string, result: UpdateResult, raised: bool)
    | Posted(url: string, payload: Payload, ok: bool)

  /** The callbacks named `ks` called in order; one raising does not stop
      the next. */
  function CallbackNotices(cbs: Dict<Notifier>, ks: seq<string>, name: string, u: UpdateResult): (r: seq<Notice>)
    requires forall k :: k in ks ==> k in cbs.values
    decreases |ks|
  {
    if ks == [] then []
    else
      var k := ks[|ks| - 1];
      CallbackNotices(cbs, ks[..|ks| - 1], name, u) + [Called(k, name, u, cbs.values[k](name, u))]
  }

  /** Every callback is called exactly once, in registration order, with the
      schedule name and the result, whether or not an earlier one raised. */
  lemma {:induction false} CallbackNoticesSpec(cbs: Dict<Notifier>, ks: seq<string>, name: string, u: UpdateResult)
    requires forall k :: k in ks ==> k in cbs.values
    ensures var r := CallbackNotices(cbs, ks, name, u);
      |r| == |ks| && forall i :: 0 <= i < |ks| ==> r[i] == Called(ks[i], name, u, cbs.values[ks[i]](name, u))
    decreases |ks|
  {
    if ks != [] {
      var init := ks[..|ks| - 1];
      assert forall k :: k in init ==> k in ks;
      CallbackNoticesSpec(cbs, init, name, u);
    }
  }

  /** The payload of the HTTP callback: `timestamp`, `result` and `config`,
      then the entries of a non-empty `callback_data`, which win over them. */
  function PayloadOf(c: ScheduleConfig, u: UpdateResult, now: int): Payload {
    var base := map["timestamp" := Timestamp(now), "result" := ResultValue(u), "config" := ConfigValue(c)];
    if c.callbackData.Some? && c.callbackData.value != map[] then
      var data := c.callbackData.value;
      base + map k | k in data :: DataValue(data[k])
    else base
  }

  /** Every `callback_data` key carries its own value and every other key
      its fixed one; the three fixed keys are always there. */
  lemma PayloadSpec(c: ScheduleConfig, u: UpdateResult, now: int)
    ensures var p := PayloadOf(c, u, now);
      var data := if c.callbackData.Some? then c.callbackData.value else map[];
      (forall k :: k in data ==> k in p && p[k] == DataValue(data[k]))
      && "timestamp" in p && "result" in p && "config" in p
      && ("timestamp" !in data ==> p["timestamp"] == Timestamp(now))
      && ("result" !in data ==> p["result"] == ResultValue(u))
      && ("config" !in data ==> p["config"] == ConfigValue(c))
      && (forall k :: k in p ==> k in data || k in {"timestamp", "result", "config"})
  {
  }

  /** A status of 400 or more, or an exception, is a failure. */
  predicate PostOk(o: HttpOutcome) {
    o.Status? && o.code < 400
  }

  /** The HTTP callback, when `callback_url` is set, with the payload
      encoded as JSON whatever it holds (the corrected behaviour; see
      `HttpNoticesAsWritten` for the encoding as written). */
  function HttpNotices(c: ScheduleConfig, u: UpdateResult, now: int, post: (string, Payload) -> HttpOutcome)
    : seq<Notice>
  {
    if Truthy(c.callbackUrl) then
      var p := PayloadOf(c, u, now);
      [Posted(c.callbackUrl.value, p, PostOk(post(c.callbackUrl.value, p)))]
    else []
  }

  /** The entries of `callback_data` that reach the payload. */
  function DataOf(c: ScheduleConfig): map<string, string> {
    if c.callbackData.Some? then c.callbackData.value else map[]
  }

  /** The result holds no `Article` object: an empty `articles` list, or
      only empty lists under `results`. */
  predicate NoArticles(u: UpdateResult) {
    match u
    case FeedUpdated(_, _, _, _, articles) => articles == []
    case AllUpdated(_, _, _, results) => forall k :: k in results ==> results[k] == []
  }

  /** Whether the default JSON encoder accepts a payload value. The
      timestamp is an ISO string and `callback_data` values are strings; a
      configuration goes through `asdict`, which keeps `last_run` and
      `next_run` as `datetime` objects; a result carries its `Article`
      objects. Neither of those two is JSON. */
  predicate JsonValue(v: PayloadValue) {
    match v
    case Timestamp(_) => true
    case DataValue(_) => true
    case ConfigValue(c) => c.lastRun.None? && c.nextRun.None?
    case ResultValue(u) => NoArticles(u)
  }

  predicate Serializable(p: Payload) {
    forall k :: k in p ==> JsonValue(p[k])
  }

  /** The HTTP callback as written: `session.post(url, json=payload)`
      encodes the payload before sending anything, and an encoding error
      is caught and logged like a failed post. */
  function HttpNoticesAsWritten(c: ScheduleConfig, u: UpdateResult, now: int, post: (string, Payload) -> HttpOutcome)
    : (r: seq<Notice>)
    ensures forall n :: n in r ==> n.Posted? && (n.ok ==> Serializable(n.payload))
  {
    if Truthy(c.callbackUrl) then
      var p := PayloadOf(c, u, now);
      [Posted(c.callbackUrl.value, p, Serializable(p) && PostOk(post(c.callbackUrl.value, p)))]
    else []
  }

  /** As written, a webhook after a run succeeds only when `callback_data`
      replaces `config`, whose stamped `last_run` is a `datetime`, and
      also replaces `result` unless the run saved no article; otherwise
      the post fails whatever the endpoint would answer. */
  lemma AsWrittenPostNeedsOverride(c: ScheduleConfig, u: UpdateResult, now: int,
                                   post: (string, Payload) -> HttpOutcome)
    requires Truthy(c.callbackUrl)
    ensures var c' := Stamped(c, now);
      var r := HttpNoticesAsWritten(c', u, now, post);
      |r| == 1
      && (r[0].ok <==> "config" in DataOf(c) && ("result" in DataOf(c) || NoArticles(u))
                       && PostOk(post(c.callbackUrl.value, PayloadOf(c', u, now))))
  {
    var c' := Stamped(c, now);
    var p := PayloadOf(c', u, now);
    PayloadSpec(c', u, now);
    assert DataOf(c') == DataOf(c);
    if Serializable(p) {
      assert JsonValue(p["config"]) && JsonValue(p["result"]);
    }
    if "config" in DataOf(c) && ("result" in DataOf(c) || NoArticles(u)) {
      forall k | k in p
        ensures JsonValue(p[k])
      {
        if k in DataOf(c) {
          assert p[k] == DataValue(DataOf(c)[k]);
        } else {
          assert k == "timestamp" || k == "result";
        }
      }
    }
  }

  /** A payload the encoder accepts is posted as the corrected model posts
      it: the two definitions differ only in the encoding failure. */
  lemma AsWrittenAgreesWhenSerializable(c: ScheduleConfig, u: UpdateResult, now: int,
                                        post: (string, Payload) -> HttpOutcome)
    ensures Serializable(PayloadOf(c, u, now))
            ==> HttpNoticesAsWritten(c, u, now, post) == HttpNotices(c, u, now, post)
    ensures Truthy(c.callbackUrl) && !Serializable(PayloadOf(c, u, now))
            ==> HttpNoticesAsWritten(c, u, now, post) == HttpNotices(c, u, now, post)[0 := HttpNotices(c, u, now, post)[0].(ok := false)]
  {
  }

  /** The intended webhook, once the stamped configuration and the saved
      articles are encoded: one post to the URL with the stamped
      configuration under `config` unless `callback_data` replaces it, and
      it succeeds exactly when the endpoint answers a status below 400. */
  lemma HttpNoticesDelivers(c: ScheduleConfig, u: UpdateResult, now: int,
                            post: (string, Payload) -> HttpOutcome)
    requires Truthy(c.callbackUrl)
    ensures var c' := Stamped(c, now);
      var r := HttpNotices(c', u, now, post);
      |r| == 1 && r[0].url == c.callbackUrl.value
      && ("config" !in DataOf(c) ==> r[0].payload["config"] == ConfigValue(c'))
      && ("result" !in DataOf(c) ==> r[0].payload["result"] == ResultValue(u))
      && (r[0].ok <==> post(c.callbackUrl.value, r[0].payload).Status?
                       && post(c.callbackUrl.value, r[0].payload).code < 400)
  {
    PayloadSpec(Stamped(c, now), u, now);
  }

  /** `_execute_schedule(name, config)` at `now`: the store, the table and
      the notifications sent. */
  ghost function ExecuteOf(md5: string -> HexDigest, st: StoreState, t: Dict<ScheduleConfig>, cbs: Dict<Notifier>,
                           name: string, now: int, runs: (Feed, int) -> FeedRun, post: (string, Payload) -> HttpOutcome)
    : (r: (StoreState, Dict<ScheduleConfig>, seq<Notice>))
    requires WellFormed(t) && WellFormed(cbs) && name in t.values
    ensures WellFormed(r.1) && r.1.keys == t.keys && name in r.1.values
    ensures forall k :: k in t.values && k != name ==> k in r.1.values && r.1.values[k] == t.values[k]
  {
    var (st', u) := RunUpdateOf(md5, st, name, t.values[name], now, runs);
    if u.None? then (st', t, [])
    else
      var c' := Stamped(t.values[name], now);
      (st', Put(t, name, c'), CallbackNotices(cbs, cbs.keys, name, u.value) + HttpNotices(c', u.value, now, post))
  }

  /** A refresh that returns an error leaves the configuration as it was,
      so it is still due, and sends nothing; any other run stamps the time,
      calls every callback once in order, and posts exactly when a callback
      URL is set, with the stamped configuration in the payload. */
  lemma ExecuteSpec(md5: string -> HexDigest, st: StoreState, t: Dict<ScheduleConfig>, cbs: Dict<Notifier>,
                    name: string, now: int, runs: (Feed, int) -> FeedRun, post: (string, Payload) -> HttpOutcome)
    requires WellFormed(t) && WellFormed(cbs) && name in t.values
    ensures var c := t.values[name];
      var (st', t', log) := ExecuteOf(md5, st, t, cbs, name, now, runs, post);
      var u := RunUpdateOf(md5, st, name, c, now, runs).1;
      (u.None? ==> t' == t && log == [] && TruthyId(c.feedId))
      && (u.Some? ==>
            t'.values[name] == Stamped(c, now)
            && |log| == |cbs.keys| + (if Truthy(c.callbackUrl) then 1 else 0)
            && (forall i :: 0 <= i < |cbs.keys| ==>
                  log[i] == Called(cbs.keys[i], name, u.value, cbs.values[cbs.keys[i]](name, u.value)))
            && (Truthy(c.callbackUrl) ==>
                  log[|cbs.keys|].Posted? && log[|cbs.keys|].url == c.callbackUrl.value
                  && log[|cbs.keys|].payload == PayloadOf(Stamped(c, now), u.value, now)))
  {
    var u := RunUpdateOf(md5, st, name, t.values[name], now, runs).1;
    if u.Some? {
      CallbackNoticesSpec(cbs, cbs.keys, name, u.value);
    }
  }

  /** A run over all feeds always succeeds; its results are keyed by the
      names of the active feeds, each list within the per-feed cap, and it
      counts their names and articles. */
  lemma AllFeedsRunSucceeds(md5: string -> HexDigest, st: StoreState, name: string, c: ScheduleConfig,
                            now: int, runs: (Feed, int) -> FeedRun)
    requires !TruthyId(c.feedId)
    ensures var u := RunUpdateOf(md5, st, name, c, now, runs).1;
      u.Some? && u.value.AllUpdated?
      && u.value.feedsProcessed == |u.value.results|
      && u.value.newArticles == TotalNew(u.value.results)
      && u.value.results == DictOf(FetchAll(md5, st, ActiveFeeds(st.feeds), c.maxArticles, runs, now).1)
    ensures var u := RunUpdateOf(md5, st, name, c, now, runs).1;
      u.Some? && u.value.AllUpdated?
      && (forall n :: n in u.value.results <==> exists f :: f in ActiveFeeds(st.feeds) && f.name == n)
      && (forall n | n in u.value.results :: |u.value.results[n]| <= c.maxArticles)
  {
    AllFeedsResults(md5, st, name, c, now, runs);
    FetchAllResults(md5, st, ActiveFeeds(st.feeds), c.maxArticles, runs, now);
  }

  lemma AllFeedsResults(md5: string -> HexDigest, st: StoreState, name: string, c: ScheduleConfig,
                        now: int, runs: (Feed, int) -> FeedRun)
    requires !TruthyId(c.feedId)
    ensures var u := RunUpdateOf(md5, st, name, c, now, runs).1;
      u.Some? && u.value.AllUpdated?
      && u.value.results == DictOf(FetchAll(md5, st, ActiveFeeds(st.feeds), c.maxArticles, runs, now).1)
  {
  }

  // ---------------------------------------------------------------------
  // The scheduler loop

  /** The names among `ns` whose configurations are due at `now`. */
  function DueNames(t: Dict<ScheduleConfig>, ns: seq<string>, now: int): seq<string>
    requires forall n :: n in ns ==> n in t.values
    decreases |ns|
  {
    if ns == [] then []
    else (if Due(t.values[ns[0]], now) then [ns[0]] else []) + DueNames(t, ns[1..], now)
  }

  /** One pass of `_scheduler_loop` over the names `ns`: each configuration
      that is due is executed, in order. */
  ghost function TickOf(md5: string -> HexDigest, st: StoreState, t: Dict<ScheduleConfig>, cbs: Dict<Notifier>,
                        ns: seq<string>, now: int, runs: (Feed, int) -> FeedRun, post: (string, Payload) -> HttpOutcome)
    : (r: (StoreState, Dict<ScheduleConfig>, seq<string>, seq<Notice>))
    requires WellFormed(t) && WellFormed(cbs) && forall n :: n in ns ==> n in t.values
    ensures WellFormed(r.1) && r.1.keys == t.keys
    decreases |ns|
  {
    if ns == [] then (st, t, [], [])
    else
      var n := ns[0];
      if Due(t.values[n], now) then
        var e := ExecuteOf(md5, st, t, cbs, n, now, runs, post);
        var rest := TickOf(md5, e.0, e.1, cbs, ns[1..], now, runs, post);
        (rest.0, rest.1, [n] + rest.2, e.2 + rest.3)
      else TickOf(md5, st, t, cbs, ns[1..], now, runs, post)
  }

  /** `DueNames` only looks at the entries of `ns`. */
  lemma {:induction false} DueNamesAgree(t: Dict<ScheduleConfig>, t': Dict<ScheduleConfig>, ns: seq<string>, now: int)
    requires forall n :: n in ns ==> n in t.values && n in t'.values && t.values[n] == t'.values[n]
    ensures DueNames(t, ns, now) == DueNames(t', ns, now)
    decreases |ns|
  {
    if ns != [] {
      assert ns[0] in ns;
      assert forall n :: n in ns[1..] ==> n in ns;
      DueNamesAgree(t, t', ns[1..], now);
    }
  }

  /** A pass executes exactly the due configurations, in table order: a run
      changes only its own entry, so it cannot make another one due. */
  lemma {:induction false} TickExecutesDue(md5: string -> HexDigest, st: StoreState, t: Dict<ScheduleConfig>,
                                           cbs: Dict<Notifier>, ns: seq<string>, now: int,
                                           runs: (Feed, int) -> FeedRun, post: (string, Payload) -> HttpOutcome)
    requires WellFormed(t) && WellFormed(cbs) && Distinct(ns) && forall n :: n in ns ==> n in t.values
    ensures TickOf(md5, st, t, cbs, ns, now, runs, post).2 == DueNames(t, ns, now)
    decreases |ns|
  {
    if ns != [] {
      var n := ns[0];
      var tail := ns[1..];
      assert forall m :: m in tail ==> m in ns;
      DistinctTail(ns);
      if Due(t.values[n], now) {
        var e := ExecuteOf(md5, st, t, cbs, n, now, runs, post);
        assert n !in tail;
        TickExecutesDue(md5, e.0, e.1, cbs, tail, now, runs, post);
        DueNamesAgree(e.1, t, tail, now);
      } else {
        TickExecutesDue(md5, st, t, cbs, tail, now, runs, post);
      }
    }
  }

  lemma DistinctTail(ns: seq<string>)
    requires Distinct(ns) && ns != []
    ensures Distinct(ns[1..]) && ns[0] !in ns[1..]
  {
    DistinctCons(ns[0], ns[1..]);
    assert ns == [ns[0]] + ns[1..];
  }

  /** A configuration that was not due, or is not among `ns`, is left as it
      was by the pass. */
  lemma {:induction false} TickLeavesOthers(md5: string -> HexDigest, st: StoreState, t: Dict<ScheduleConfig>,
                                            cbs: Dict<Notifier>, ns: seq<string>, now: int,
                                            runs: (Feed, int) -> FeedRun, post: (string, Payload) -> HttpOutcome,
                                            k: string)
    requires WellFormed(t) && WellFormed(cbs) && Distinct(ns) && forall n :: n in ns ==> n in t.values
    requires k in t.values && (k !in ns || !Due(t.values[k], now))
    ensures k in TickOf(md5, st, t, cbs, ns, now, runs, post).1.values
    ensures TickOf(md5, st, t, cbs, ns, now, runs, post).1.values[k] == t.values[k]
    decreases |ns|
  {
    if ns != [] {
      var n := ns[0];
      var tail := ns[1..];
      assert forall m :: m in tail ==> m in ns;
      DistinctTail(ns);
      if Due(t.values[n], now) {
        var e := ExecuteOf(md5, st, t, cbs, n, now, runs, post);
        assert k != n;
        assert n !in tail;
        assert forall m :: m in tail ==> m in e.1.values && e.1.values[m] == t.values[m];
        TickLeavesOthers(md5, e.0, e.1, cbs, tail, now, runs, post, k);
      } else {
        assert k !in tail || !Due(t.values[k], now);
        TickLeavesOthers(md5, st, t, cbs, tail, now, runs, post, k);
      }
    }
  }

  /** `all` is what the pass over `ns` from `st` and `t` gives, after the
      names `fired` have run and sent `log`. */
  ghost predicate TickFrom(md5: string -> HexDigest, all: (StoreState, Dict<ScheduleConfig>, seq<string>, seq<Notice>),
                           st: StoreState, t: Dict<ScheduleConfig>, cbs: Dict<Notifier>, ns: seq<string>, now: int,
                           runs: (Feed, int) -> FeedRun, post: (string, Payload) -> HttpOutcome,
                           fired: seq<string>, log: seq<Notice>)
  {
    WellFormed(t) && WellFormed(cbs) && (forall n :: n in ns ==> n in t.values)
    && var r := TickOf(md5, st, t, cbs, ns, now, runs, post);
    all.0 == r.0 && all.1 == r.1 && all.2 == fired + r.2 && all.3 == log + r.3
  }

  /** Before the pass nothing has run. */
  lemma TickFromStart(md5: string -> HexDigest, st: StoreState, t: Dict<ScheduleConfig>, cbs: Dict<Notifier>,
                      ns: seq<string>, now: int, runs: (Feed, int) -> FeedRun, post: (string, Payload) -> HttpOutcome)
    requires WellFormed(t) && WellFormed(cbs) && forall n :: n in ns ==> n in t.values
    ensures TickFrom(md5, TickOf(md5, st, t, cbs, ns, now, runs, post), st, t, cbs, ns, now, runs, post, [], [])
  {
    var r := TickOf(md5, st, t, cbs, ns, now, runs, post);
    assert [] + r.2 == r.2 && [] + r.3 == r.3;
  }

  /** After the last name the pass is complete. */
  lemma TickFromEnd(md5: string -> HexDigest, all: (StoreState, Dict<ScheduleConfig>, seq<string>, seq<Notice>),
                    st: StoreState, t: Dict<ScheduleConfig>, cbs: Dict<Notifier>, now: int,
                    runs: (Feed, int) -> FeedRun, post: (string, Payload) -> HttpOutcome,
                    fired: seq<string>, log: seq<Notice>)
    requires TickFrom(md5, all, st, t, cbs, [], now, runs, post, fired, log)
    ensures all == (st, t, fired, log)
  {
    assert fired + [] == fired && log + [] == log;
  }

  /** A due first name runs. */
  lemma TickStepDue(md5: string -> HexDigest, all: (StoreState, Dict<ScheduleConfig>, seq<string>, seq<Notice>),
                    st: StoreState, t: Dict<ScheduleConfig>, cbs: Dict<Notifier>, ns: seq<string>, now: int,
                    runs: (Feed, int) -> FeedRun, post: (string, Payload) -> HttpOutcome,
                    fired: seq<string>, log: seq<Notice>, e: (StoreState, Dict<ScheduleConfig>, seq<Notice>))
    requires TickFrom(md5, all, st, t, cbs, ns, now, runs, post, fired, log) && ns != []
    requires Due(t.values[ns[0]], now) && e == ExecuteOf(md5, st, t, cbs, ns[0], now, runs, post)
    ensures TickFrom(md5, all, e.0, e.1, cbs, ns[1..], now, runs, post, fired + [ns[0]], log + e.2)
  {
    assert forall n :: n in ns[1..] ==> n in ns;
    var rest := TickOf(md5, e.0, e.1, cbs, ns[1..], now, runs, post);
    AppendAssoc(fired, [ns[0]], rest.2);
    AppendAssoc(log, e.2, rest.3);
  }

  /** A first name that is not due is passed over. */
  lemma TickStepSkip(md5: string -> HexDigest, all: (StoreState, Dict<ScheduleConfig>, seq<string>, seq<Notice>),
                     st: StoreState, t: Dict<ScheduleConfig>, cbs: Dict<Notifier>, ns: seq<string>, now: int,
                     runs: (Feed, int) -> FeedRun, post: (string, Payload) -> HttpOutcome,
                     fired: seq<string>, log: seq<Notice>)
    requires TickFrom(md5, all, st, t, cbs, ns, now, runs, post, fired, log) && ns != []
    requires !Due(t.values[ns[0]], now)
    ensures TickFrom(md5, all, st, t, cbs, ns[1..], now, runs, post, fired, log)
  {
    assert forall n :: n in ns[1..] ==> n in ns;
  }

  // ---------------------------------------------------------------------
  // run_schedule_now and get_status

  /** The dict `run_schedule_now` returns. */
  datatype RunNowResult =
    | RunNowError(error: string)
    | RanNow(message: string, lastRun: Option<int>, nextRun: Option<int>)

  /** `run_schedule_now(name)`: an unknown name is refused; otherwise the
      schedule runs whether or not it is enabled or due. */
  ghost function RunNowOf(md5: string -> HexDigest, st: StoreState, t: Dict<ScheduleConfig>, cbs: Dict<Notifier>,
                          name: string, now: int, runs: (Feed, int) -> FeedRun, post: (string, Payload) -> HttpOutcome)
    : (r: (StoreState, Dict<ScheduleConfig>, RunNowResult, seq<Notice>))
    requires WellFormed(t) && WellFormed(cbs)
    ensures WellFormed(r.1)
  {
    if name !in t.values then (st, t, RunNowError("Schedule not found"), [])
    else
      var e := ExecuteOf(md5, st, t, cbs, name, now, runs, post);
      var c := e.1.values[name];
      (e.0, e.1, RanNow("Schedule '" + name + "' executed successfully", c.lastRun, c.nextRun), e.2)
  }

  /** An unknown name changes nothing.  A known one reports success even
      when its single-feed refresh failed, with the timing it had before. */
  lemma RunNowSpec(md5: string -> HexDigest, st: StoreState, t: Dict<ScheduleConfig>, cbs: Dict<Notifier>,
                   name: string, now: int, runs: (Feed, int) -> FeedRun, post: (string, Payload) -> HttpOutcome)
    requires WellFormed(t) && WellFormed(cbs)
    ensures var (st', t', r, log) := RunNowOf(md5, st, t, cbs, name, now, runs, post);
      (r.RunNowError? <==> name !in t.values)
      && (name !in t.values ==> st' == st && t' == t && log == [] && r.error == "Schedule not found")
      && (name in t.values ==>
            r.message == "Schedule '" + name + "' executed successfully"
            && (RunUpdateOf(md5, st, name, t.values[name], now, runs).1.None? ==>
                  r.lastRun == t.values[name].lastRun && r.nextRun == t.values[name].nextRun)
            && (RunUpdateOf(md5, st, name, t.values[name], now, runs).1.Some? ==>
                  r.lastRun == Some(now) && r.nextRun == Some(now + t.values[name].intervalMinutes * 60)))
  {
    if name in t.values {
      var c := t.values[name];
      var u := RunUpdateOf(md5, st, name, c, now, runs).1;
      var e := ExecuteOf(md5, st, t, cbs, name, now, runs, post);
      if u.Some? {
        assert e.1.values[name] == Stamped(c, now);
      } else {
        assert e.1 == t;
      }
    }
  }

  /** One entry of the `schedules` list of `get_status`. */
  datatype ScheduleRow = ScheduleRow(
    name: string, enabled: bool, intervalMinutes: int, feedId: Option<int>,
    lastRun: Option<int>, nextRun: Option<int>, hasCallback: bool)

  /** The dict `get_status` returns. */
  datatype SchedulerStatus = SchedulerStatus(
    running: bool, totalSchedules: nat, enabledSchedules: nat,
    registeredCallbacks: seq<string>, schedules: seq<ScheduleRow>)

  function RowOf(name: string, c: ScheduleConfig): ScheduleRow {
    ScheduleRow(name, c.enabled, c.intervalMinutes, c.feedId, c.lastRun, c.nextRun, Truthy(c.callbackUrl))
  }

  /** The rows of the names `ks`, in order. */
  function Rows(t: Dict<ScheduleConfig>, ks: seq<string>): seq<ScheduleRow>
    requires forall k :: k in ks ==> k in t.values
    decreases |ks|
  {
    if ks == [] then [] else Rows(t, ks[..|ks| - 1]) + [RowOf(ks[|ks| - 1], t.values[ks[|ks| - 1]])]
  }

  /** How many of the names `ks` have enabled configurations. */
  function EnabledCount(t: Dict<ScheduleConfig>, ks: seq<string>): nat
    requires forall k :: k in ks ==> k in t.values
    decreases |ks|
  {
    if ks == [] then 0
    else EnabledCount(t, ks[..|ks| - 1]) + (if t.values[ks[|ks| - 1]].enabled then 1 else 0)
  }

  function StatusOf(running: bool, t: Dict<ScheduleConfig>, cbs: Dict<Notifier>): SchedulerStatus
    requires WellFormed(t)
  {
    SchedulerStatus(running, |t.keys|, EnabledCount(t, t.keys), cbs.keys, Rows(t, t.keys))
  }

  /** One row per schedule, in table order; the enabled count is at most the
      total, and equal to it exactly when every schedule is enabled. */
  lemma StatusSpec(running: bool, t: Dict<ScheduleConfig>, cbs: Dict<Notifier>)
    requires WellFormed(t)
    ensures var s := StatusOf(running, t, cbs);
      s.totalSchedules == |t.keys| == |s.schedules|
      && (forall i :: 0 <= i < |t.keys| ==> s.schedules[i] == RowOf(t.keys[i], t.values[t.keys[i]]))
      && s.enabledSchedules <= s.totalSchedules
      && (s.enabledSchedules == s.totalSchedules <==> forall k :: k in t.values ==> t.values[k].enabled)
  {
    RowsSpec(t, t.keys);
    EnabledCountSpec(t, t.keys);
  }

  lemma {:induction false} RowsSpec(t: Dict<ScheduleConfig>, ks: seq<string>)
    requires forall k :: k in ks ==> k in t.values
    ensures |Rows(t, ks)| == |ks|
    ensures forall i :: 0 <= i < |ks| ==> Rows(t, ks)[i] == RowOf(ks[i], t.values[ks[i]])
    decreases |ks|
  {
    if ks != [] {
      var init := ks[..|ks| - 1];
      assert forall k :: k in init ==> k in ks;
      RowsSpec(t, init);
    }
  }

  lemma {:induction false} EnabledCountSpec(t: Dict<ScheduleConfig>, ks: seq<string>)
    requires forall k :: k in ks ==> k in t.values
    ensures EnabledCount(t, ks) <= |ks|
    ensures EnabledCount(t, ks) == |ks| <==> forall k :: k in ks ==> t.values[k].enabled
    decreases |ks|
  {
    if ks != [] {
      var init := ks[..|ks| - 1];
      var last := ks[|ks| - 1];
      assert forall k :: k in init ==> k in ks;
      assert ks == init + [last];
      EnabledCountSpec(t, init);
    }
  }

  // ---------------------------------------------------------------------
  // The scheduler

  /** The scheduler over one RSS manager: the schedule table, the registered
      callbacks in registration order, and the running flag. */
  class RSSScheduler {
    const manager: RSSManager
    var schedules: Dict<ScheduleConfig>
    var callbacks: Dict<Notifier>
    var running: bool

    ghost predicate Valid()
      reads this, manager.db
    {
      WellFormed(schedules) && WellFormed(callbacks) && AllPlanned(schedules) && manager.db.Valid()
    }

    constructor (m: RSSManager)
      requires m.db.Valid()
      ensures Valid()
      ensures manager == m && schedules == Empty() && callbacks == Empty() && !running
    {
      manager := m;
      schedules := Empty();
      callbacks := Empty();
      running := false;
    }

    /** `add_schedule(name, config)`. */
    method AddSchedule(name: string, config: ScheduleConfig, now: int) returns (r: string)
      requires Valid()
      modifies this`schedules
      ensures Valid()
      ensures r == name && schedules == AddScheduleOf(old(schedules), name, config, now)
    {
      var c := config.(nextRun := Some(CalculateNextRun(config, now)));
      schedules := Put(schedules, name, c);
      r := name;
    }

    /** `remove_schedule(name)`. */
    method RemoveSchedule(name: string) returns (ok: bool)
      requires Valid()
      modifies this`schedules
      ensures Valid()
      ensures (schedules, ok) == RemoveScheduleOf(old(schedules), name)
    {
      if name in schedules.values {
        schedules := Delete(schedules, name);
        return true;
      }
      return false;
    }

    /** `update_schedule(name, **settings)`. */
    method UpdateSchedule(name: string, settings: seq<Setting>, now: int) returns (ok: bool)
      requires Valid()
      modifies this`schedules
      ensures Valid()
      ensures (schedules, ok) == UpdateScheduleOf(old(schedules), name, settings, now)
    {
      if name !in schedules.values {
        return false;
      }
      var c := ApplySettings(schedules.values[name], settings);
      c := c.(nextRun := Some(CalculateNextRun(c, now)));
      schedules := Put(schedules, name, c);
      ok := true;
    }

    /** `get_schedule(name)`. */
    function GetSchedule(name: string): Option<ScheduleConfig>
      reads this
    {
      Get(schedules, name)
    }

    /** `register_callback(name, callback)`. */
    method RegisterCallback(name: string, callback: Notifier)
      requires Valid()
      modifies this`callbacks
      ensures Valid()
      ensures callbacks == Put(old(callbacks), name, callback)
    {
      callbacks := Put(callbacks, name, callback);
    }

    /** `start()`: a no-op when already running (the loop task is not
        modelled). */
    method Start() returns (started: bool)
      modifies this`running
      ensures running && started == !old(running)
    {
      if running {
        return false;
      }
      running := true;
      started := true;
    }

    /** `stop()`. */
    method Stop()
      modifies this`running
      ensures !running
    {
      running := false;
    }

    /** `_execute_callbacks(name, result)`: the registered callbacks in
        order, then the HTTP callback of the schedule when it has a URL. */
    method ExecuteCallbacks(name: string, u: UpdateResult, now: int, post: (string, Payload) -> HttpOutcome)
      returns (log: seq<Notice>)
      requires Valid() && name in schedules.values
      ensures log == CallbackNotices(callbacks, callbacks.keys, name, u) + HttpNotices(schedules.values[name], u, now, post)
    {
      var config := schedules.values[name];
      var ks := callbacks.keys;
      log := [];
      for i := 0 to |ks|
        invariant log == CallbackNotices(callbacks, ks[..i], name, u)
      {
        assert ks[..i + 1][..i] == ks[..i];
        var raised := callbacks.values[ks[i]](name, u);
        log := log + [Called(ks[i], name, u, raised)];
      }
      assert ks[..|ks|] == ks;
      if Truthy(config.callbackUrl) {
        var n := ExecuteHttpCallback(config.callbackUrl.value, config, u, now, post);
        log := log + [n];
      } else {
        assert log + [] == log;
      }
    }

    /** `_execute_schedule(name, config)` at `now`. */
    method ExecuteSchedule(name: string, now: int, runs: (Feed, int) -> FeedRun, post: (string, Payload) -> HttpOutcome)
      returns (log: seq<Notice>)
      requires Valid() && name in schedules.values
      modifies this`schedules, manager.db
      ensures Valid()
      ensures (manager.db.State(), schedules, log)
           == ExecuteOf(manager.md5, old(manager.db.State()), old(schedules), callbacks, name, now, runs, post)
    {
      var config := schedules.values[name];
      var u: UpdateResult;
      if config.feedId.Some? && config.feedId.value != 0 {
        var id := config.feedId.value;
        var f := FindFeed(manager.db.feeds, id);
        var run := if f.Some? then runs(f.value, now) else FeedRun(None, NoFaults);
        var r := manager.RefreshFeed(id, config.maxArticles, run, now);
        if r.RefreshError? {
          return [];
        }
        u := FeedUpdated(name, id, r.feed.name, r.newArticles, r.articles);
      } else {
        var results := manager.FetchAllFeeds(config.maxArticles, runs, now);
        var total := SumNewArticles(results);
        u := AllUpdated(name, |results|, total, results);
      }
      var c := config.(lastRun := Some(now));
      c := c.(nextRun := Some(CalculateNextRun(c, now)));
      schedules := Put(schedules, name, c);
      log := ExecuteCallbacks(name, u, now, post);
    }

    /** One pass of `_scheduler_loop` at `now`: the names that ran, in
        order, and the notifications sent. */
    method Tick(now: int, runs: (Feed, int) -> FeedRun, post: (string, Payload) -> HttpOutcome)
      returns (fired: seq<string>, log: seq<Notice>)
      requires Valid()
      modifies this`schedules, manager.db
      ensures Valid()
      ensures var r := TickOf(manager.md5, old(manager.db.State()), old(schedules), callbacks, old(schedules.keys),
                              now, runs, post);
        manager.db.State() == r.0 && schedules == r.1 && fired == r.2 && log == r.3
    {
      var names := schedules.keys;
      ghost var all := TickOf(manager.md5, manager.db.State(), schedules, callbacks, names, now, runs, post);
      TickFromStart(manager.md5, manager.db.State(), schedules, callbacks, names, now, runs, post);
      fired, log := [], [];
      for i := 0 to |names|
        invariant Valid() && schedules.keys == names
        invariant TickFrom(manager.md5, all, manager.db.State(), schedules, callbacks, names[i..], now, runs, post, fired, log)
      {
        assert names[i..][1..] == names[i + 1..];
        fired, log := RunIfDue(names[i], now, runs, post, all, names[i..], fired, log);
      }
      assert names[|names|..] == [];
      TickFromEnd(manager.md5, all, manager.db.State(), schedules, callbacks, now, runs, post, fired, log);
    }

    /** The body of the loop of `_scheduler_loop` for the first of the names
        `ns` left in the pass: run it when it is due. */
    method RunIfDue(name: string, now: int, runs: (Feed, int) -> FeedRun, post: (string, Payload) -> HttpOutcome,
                    ghost all: (StoreState, Dict<ScheduleConfig>, seq<string>, seq<Notice>), ghost ns: seq<string>,
                    fired: seq<string>, log: seq<Notice>)
      returns (fired': seq<string>, log': seq<Notice>)
      requires Valid() && ns != [] && ns[0] == name
      requires TickFrom(manager.md5, all, manager.db.State(), schedules, callbacks, ns, now, runs, post, fired, log)
      modifies this`schedules, manager.db
      ensures Valid() && schedules.keys == old(schedules.keys)
      ensures TickFrom(manager.md5, all, manager.db.State(), schedules, callbacks, ns[1..], now, runs, post, fired', log')
    {
      var config := schedules.values[name];
      if config.enabled && config.nextRun.Some? && now >= config.nextRun.value {
        ghost var st, t := manager.db.State(), schedules;
        var l := ExecuteSchedule(name, now, runs, post);
        TickStepDue(manager.md5, all, st, t, callbacks, ns, now, runs, post, fired, log,
                    (manager.db.State(), schedules, l));
        fired', log' := fired + [name], log + l;
      } else {
        TickStepSkip(manager.md5, all, manager.db.State(), schedules, callbacks, ns, now, runs, post, fired, log);
        fired', log' := fired, log;
      }
    }

    /** `run_schedule_now(name)` at `now`. */
    method RunScheduleNow(name: string, now: int, runs: (Feed, int) -> FeedRun, post: (string, Payload) -> HttpOutcome)
      returns (r: RunNowResult, log: seq<Notice>)
      requires Valid()
      modifies this`schedules, manager.db
      ensures Valid()
      ensures (manager.db.State(), schedules, r, log)
           == RunNowOf(manager.md5, old(manager.db.State()), old(schedules), callbacks, name, now, runs, post)
    {
      if name !in schedules.values {
        return RunNowError("Schedule not found"), [];
      }
      log := ExecuteSchedule(name, now, runs, post);
      var config := schedules.values[name];
      r := RanNow("Schedule '" + name + "' executed successfully", config.lastRun, config.nextRun);
    }

    /** `get_status()`. */
    method GetStatus() returns (s: SchedulerStatus)
      requires Valid()
      ensures s == StatusOf(running, schedules, callbacks)
    {
      var ks := schedules.keys;
      var rows := [];
      for i := 0 to |ks|
        invariant rows == Rows(schedules, ks[..i])
      {
        assert ks[..i + 1][..i] == ks[..i];
        rows := rows + [RowOf(ks[i], schedules.values[ks[i]])];
      }
      assert ks[..|ks|] == ks;
      s := SchedulerStatus(running, |ks|, EnabledCount(schedules, ks), callbacks.keys, rows);
    }
  }

  /** `_execute_http_callback(config, result)` for the URL `url`: the
      payload posted and whether the post succeeded, with the payload
      encoded whatever it holds, as `HttpNotices` has it. */
  method ExecuteHttpCallback(url: string, c: ScheduleConfig, u: UpdateResult, now: int,
                             post: (string, Payload) -> HttpOutcome)
    returns (n: Notice)
    ensures n == Posted(url, PayloadOf(c, u, now), PostOk(post(url, PayloadOf(c, u, now))))
  {
    var payload := map["timestamp" := Timestamp(now), "result" := ResultValue(u), "config" := ConfigValue(c)];
    if c.callbackData.Some? && c.callbackData.value != map[] {
      var data := c.callbackData.value;
      payload := payload + map k | k in data :: DataValue(data[k]);
    }
    var response := post(url, payload);
    n := Posted(url, payload, response.Status? && response.code < 400);
  }
}
