/** The supervisor that keeps one worker per ready stream and enabled destination. */
module Supervisors {
  import opened Wrappers
  import opened Json
  import opened Models
  import StopProtocol
  import Urls

  datatype WorkerKey = WorkerKey(streamId: string, destinationId: string)

  // ---------- fingerprints ----------

  function FingerprintText(d: Destination): string {
    d.destinationId + "\0" + d.platform + "\0" + d.ingestUrl + "\0" + d.streamKey
  }

  predicate NoNul(d: Destination) {
    '\0' !in d.destinationId && '\0' !in d.platform && '\0' !in d.ingestUrl && '\0' !in d.streamKey
  }

  /** Two destinations that a worker cannot tell apart: the enabled flag does not count. */
  predicate SameTarget(a: Destination, b: Destination) {
    a == b.(enabled := a.enabled)
  }

  lemma SeparatorSplits(a: string, b: string, x: string, y: string)
    requires '\0' !in a && '\0' !in b
    requires a + "\0" + x == b + "\0" + y
    ensures a == b && x == y
  {
    assert a + "\0" + x == a + ("\0" + x) && b + "\0" + y == b + ("\0" + y);
    Urls.FirstOfAppend(a, "\0" + x, {'\0'});
    Urls.FirstOfAppend(b, "\0" + y, {'\0'});
    var s := a + "\0" + x;
    assert a == s[..|a|] && b == s[..|b|];
    assert x == s[|a| + 1..] && y == s[|b| + 1..];
  }

  /** On destinations that parsing accepts, the joined text tells every difference of target. */
  lemma FingerprintTextIsInjective(a: Destination, b: Destination)
    requires NoNul(a) && NoNul(b)
    ensures FingerprintText(a) == FingerprintText(b) <==> SameTarget(a, b)
  {
    if FingerprintText(a) == FingerprintText(b) {
      var a3, b3 := a.ingestUrl + "\0" + a.streamKey, b.ingestUrl + "\0" + b.streamKey;
      var a2, b2 := a.platform + "\0" + a3, b.platform + "\0" + b3;
      assert FingerprintText(a) == a.destinationId + "\0" + a2;
      assert FingerprintText(b) == b.destinationId + "\0" + b2;
      SeparatorSplits(a.destinationId, b.destinationId, a2, b2);
      SeparatorSplits(a.platform, b.platform, a3, b3);
      SeparatorSplits(a.ingestUrl, b.ingestUrl, a.streamKey, b.streamKey);
    }
  }

  // ---------- what should run ----------

  function ReadyIds(paths: map<string, map<string, Json>>): set<string> {
    set path | path in paths && "live/" <= path && IsReady(paths[path]) :: path[5..]
  }

  /** A stream is ready exactly when the path list has its path as ready. */
  lemma ReadyIdsAreExact(paths: map<string, map<string, Json>>, id: string)
    ensures id in ReadyIds(paths) <==> "live/" + id in paths && IsReady(paths["live/" + id])
  {
    var path := "live/" + id;
    assert path[5..] == id;
    forall p | p in paths && "live/" <= p && p[5..] == id ensures p == path {
      assert p == p[..5] + p[5..];
    }
  }

  /** The enabled destinations of one stream, under their keys. */
  function StreamTargets(streamId: string, ds: seq<Destination>): map<WorkerKey, Destination> {
    if ds == [] then map[]
    else
      var d := ds[|ds| - 1];
      StreamTargets(streamId, ds[..|ds| - 1]) +
      if d.enabled then map[WorkerKey(streamId, d.destinationId) := d] else map[]
  }

  lemma StreamTargetsNone(streamId: string)
    ensures StreamTargets(streamId, []) == map[]
  {
  }

  lemma StreamTargetsSnoc(streamId: string, ds: seq<Destination>, d: Destination)
    ensures StreamTargets(streamId, ds + [d]) ==
            StreamTargets(streamId, ds) + if d.enabled then map[WorkerKey(streamId, d.destinationId) := d] else map[]
  {
    assert (ds + [d])[..|ds|] == ds;
  }

  /** The destinations of every enabled stream that is ready. */
  function Targets(streams: seq<Stream>, ready: set<string>): map<WorkerKey, Destination> {
    if streams == [] then map[]
    else
      var s := streams[|streams| - 1];
      Targets(streams[..|streams| - 1], ready) +
      if s.enabled && s.streamId in ready then StreamTargets(s.streamId, s.destinations) else map[]
  }

  predicate Wanted(streams: seq<Stream>, ready: set<string>, key: WorkerKey, d: Destination) {
    exists i, j ::
      && 0 <= i < |streams| && 0 <= j < |streams[i].destinations|
      && streams[i].enabled && streams[i].streamId in ready && key.streamId == streams[i].streamId
      && d == streams[i].destinations[j] && d.enabled && key.destinationId == d.destinationId
  }

  lemma {:induction false} StreamTargetsAreWanted(streamId: string, ds: seq<Destination>)
    requires Distinct(DestinationIds(ds))
    ensures forall key :: key in StreamTargets(streamId, ds) ==> key.streamId == streamId
    ensures forall key, d ::
              key in StreamTargets(streamId, ds) && StreamTargets(streamId, ds)[key] == d <==>
              key.streamId == streamId && d in ds && d.enabled && key.destinationId == d.destinationId
  {
    if ds != [] {
      var front := ds[..|ds| - 1];
      assert DestinationIds(front) == DestinationIds(ds)[..|ds| - 1];
      StreamTargetsAreWanted(streamId, front);
      forall d | d in front ensures d.destinationId != ds[|ds| - 1].destinationId {
        var i :| 0 <= i < |front| && front[i] == d;
        assert DestinationIds(ds)[i] == d.destinationId;
        assert DestinationIds(ds)[|ds| - 1] == ds[|ds| - 1].destinationId;
      }
    }
  }

  predicate DistinctStreams(streams: seq<Stream>) {
    && Distinct(StreamIds(streams))
    && forall i | 0 <= i < |streams| :: Distinct(DestinationIds(streams[i].destinations))
  }

  lemma FrontIsDistinct(streams: seq<Stream>)
    requires DistinctStreams(streams) && streams != []
    ensures DistinctStreams(streams[..|streams| - 1])
    ensures forall s | s in streams[..|streams| - 1] :: s.streamId != streams[|streams| - 1].streamId
  {
    var n := |streams| - 1;
    assert StreamIds(streams[..n]) == StreamIds(streams)[..n];
    forall s | s in streams[..n] ensures s.streamId != streams[n].streamId {
      var i :| 0 <= i < n && streams[i] == s;
      assert StreamIds(streams)[i] == s.streamId && StreamIds(streams)[n] == streams[n].streamId;
    }
  }

  lemma {:induction false} TargetStreams(streams: seq<Stream>, ready: set<string>, key: WorkerKey)
    requires DistinctStreams(streams) && key in Targets(streams, ready)
    ensures exists s | s in streams :: s.streamId == key.streamId
  {
    var n := |streams| - 1;
    FrontIsDistinct(streams);
    if key in Targets(streams[..n], ready) {
      TargetStreams(streams[..n], ready, key);
      var s :| s in streams[..n] && s.streamId == key.streamId;
      assert s in streams;
    } else {
      StreamTargetsAreWanted(streams[n].streamId, streams[n].destinations);
      assert streams[n] in streams;
    }
  }

  /** The targets are the enabled destinations of enabled, ready streams: all of them and nothing else. */
  lemma {:induction false} TargetsAreWanted(streams: seq<Stream>, ready: set<string>, key: WorkerKey, d: Destination)
    requires DistinctStreams(streams)
    ensures key in Targets(streams, ready) && Targets(streams, ready)[key] == d <==> Wanted(streams, ready, key, d)
  {
    if streams != [] {
      var n := |streams| - 1;
      var front, last := streams[..n], streams[n];
      FrontIsDistinct(streams);
      TargetsAreWanted(front, ready, key, d);
      StreamTargetsAreWanted(last.streamId, last.destinations);
      if key in Targets(front, ready) {
        TargetStreams(front, ready, key);
        assert key.streamId != last.streamId;
      }
      if Wanted(front, ready, key, d) {
        var i, j :| 0 <= i < n && 0 <= j < |front[i].destinations|
          && front[i].enabled && front[i].streamId in ready && key.streamId == front[i].streamId
          && d == front[i].destinations[j] && d.enabled && key.destinationId == d.destinationId;
        assert streams[i] == front[i];
      }
      if Wanted(streams, ready, key, d) {
        WantedInFrontOrLast(streams, ready, key, d);
      }
    }
  }

  lemma WantedInFrontOrLast(streams: seq<Stream>, ready: set<string>, key: WorkerKey, d: Destination)
    requires streams != [] && Wanted(streams, ready, key, d)
    ensures var n := |streams| - 1;
            || Wanted(streams[..n], ready, key, d)
            || (&& streams[n].enabled && streams[n].streamId in ready && key.streamId == streams[n].streamId
                && d in streams[n].destinations && d.enabled && key.destinationId == d.destinationId)
  {
    var n := |streams| - 1;
    var i, j :| 0 <= i < |streams| && 0 <= j < |streams[i].destinations|
      && streams[i].enabled && streams[i].streamId in ready && key.streamId == streams[i].streamId
      && d == streams[i].destinations[j] && d.enabled && key.destinationId == d.destinationId;
    if i < n {
      assert streams[..n][i] == streams[i];
    }
  }

  lemma {:induction false} TargetsWithoutReady(streams: seq<Stream>)
    ensures Targets(streams, {}) == map[]
  {
    if streams != [] {
      TargetsWithoutReady(streams[..|streams| - 1]);
    }
  }

  ghost predicate Entry(m: map<WorkerKey, Destination>, key: WorkerKey, d: Destination) {
    key in m && m[key] == d
  }

  /** A map is determined by its entries. */
  lemma SameEntries(a: map<WorkerKey, Destination>, b: map<WorkerKey, Destination>)
    requires forall key, d :: Entry(a, key, d) <==> Entry(b, key, d)
    ensures a == b
  {
    forall key | key in a ensures key in b && b[key] == a[key] {
      assert Entry(a, key, a[key]);
    }
    forall key | key in b ensures key in a {
      assert Entry(b, key, b[key]);
    }
  }

  /** Disjoint sets of ready streams contribute separately. */
  lemma TargetsUnion(streams: seq<Stream>, a: set<string>, b: set<string>)
    requires DistinctStreams(streams) && a !! b
    ensures Targets(streams, a + b) == Targets(streams, a) + Targets(streams, b)
  {
    var both, left, right := Targets(streams, a + b), Targets(streams, a), Targets(streams, b);
    forall key, d ensures Entry(both, key, d) <==> Entry(left + right, key, d) {
      TargetsAreWanted(streams, a + b, key, d);
      TargetsAreWanted(streams, a, key, d);
      TargetsAreWanted(streams, b, key, d);
      if key in left {
        TargetsAreWanted(streams, a, key, left[key]);
      }
      if key in right {
        TargetsAreWanted(streams, b, key, right[key]);
      }
      WantedUnion(streams, a, b, key, d);
    }
    SameEntries(both, left + right);
  }

  lemma WantedUnion(streams: seq<Stream>, a: set<string>, b: set<string>, key: WorkerKey, d: Destination)
    ensures Wanted(streams, a + b, key, d) <==> Wanted(streams, a, key, d) || Wanted(streams, b, key, d)
  {
  }

  /** What the stream with index i contributes. */
  lemma TargetsOfOne(streams: seq<Stream>, i: nat)
    requires DistinctStreams(streams) && i < |streams|
    ensures var s := streams[i];
            Targets(streams, {s.streamId}) == if s.enabled then StreamTargets(s.streamId, s.destinations) else map[]
  {
    var s := streams[i];
    var some := if s.enabled then StreamTargets(s.streamId, s.destinations) else map[];
    StreamTargetsAreWanted(s.streamId, s.destinations);
    forall key, d ensures Entry(Targets(streams, {s.streamId}), key, d) <==> Entry(some, key, d) {
      TargetsAreWanted(streams, {s.streamId}, key, d);
      WantedFromOne(streams, i, key, d);
    }
    SameEntries(Targets(streams, {s.streamId}), some);
  }

  lemma WantedFromOne(streams: seq<Stream>, i: nat, key: WorkerKey, d: Destination)
    requires DistinctStreams(streams) && i < |streams|
    ensures var s := streams[i];
            Wanted(streams, {s.streamId}, key, d) <==>
            && s.enabled && key.streamId == s.streamId
            && d in s.destinations && d.enabled && key.destinationId == d.destinationId
  {
    var s := streams[i];
    assert StreamIds(streams)[i] == s.streamId;
    assert forall k | 0 <= k < |streams| && streams[k].streamId == s.streamId :: StreamIds(streams)[k] == s.streamId;
  }

  lemma TargetsOfNone(streams: seq<Stream>, id: string)
    requires DistinctStreams(streams) && forall i | 0 <= i < |streams| :: streams[i].streamId != id
    ensures Targets(streams, {id}) == map[]
  {
    var some := Targets(streams, {id});
    if some != map[] {
      var key :| key in some;
      TargetsAreWanted(streams, {id}, key, some[key]);
    }
  }

  // ---------- workers and their history ----------

  class DestinationWorker {
    const key: WorkerKey
    const destination: Destination
    const inputUrl: string
    const fingerprint: string

    constructor (key: WorkerKey, destination: Destination, inputUrl: string, sha: string -> string)
      ensures this.key == key && this.destination == destination && this.inputUrl == inputUrl
      ensures fingerprint == sha(FingerprintText(destination))
    {
      this.key := key;
      this.destination := destination;
      this.inputUrl := inputUrl;
      fingerprint := sha(FingerprintText(destination));
    }
  }

  /** What the supervisor does to workers: start one, or have its stop() return. */
  datatype Action = Started(worker: DestinationWorker) | StopReturned(worker: DestinationWorker)

  /** The workers that were started and whose stop() has not returned. What child processes stop() can leave behind
      when its waits run out is the subject of `StopProtocol.WhatStopLeavesBehind`. */
  ghost function Live(log: seq<Action>): set<DestinationWorker> {
    if log == [] then {}
    else
      var before := Live(log[..|log| - 1]);
      match log[|log| - 1]
      case Started(w) => before + {w}
      case StopReturned(w) => before - {w}
  }

  ghost predicate OnePerKey(live: set<DestinationWorker>) {
    forall v, w | v in live && w in live && v.key == w.key :: v == w
  }

  /** At no moment two live workers have the same key. */
  ghost predicate Orderly(log: seq<Action>) {
    forall n | 0 <= n <= |log| :: OnePerKey(Live(log[..n]))
  }

  lemma {:induction false} OrderlySnoc(log: seq<Action>, a: Action)
    requires Orderly(log)
    requires a.Started? ==> forall w | w in Live(log) :: w.key != a.worker.key
    ensures Orderly(log + [a])
    ensures Live(log + [a]) == match a case Started(w) => Live(log) + {w} case StopReturned(w) => Live(log) - {w}
  {
    var more := log + [a];
    assert more[..|log|] == log;
    assert log[..|log|] == log;
    assert OnePerKey(Live(log));
    forall n | 0 <= n <= |more| ensures OnePerKey(Live(more[..n])) {
      if n <= |log| {
        assert more[..n] == log[..n];
      } else {
        assert more[..n] == more;
      }
    }
  }

  // ---------- child processes of one key ----------

  ghost function StartedIn(log: seq<Action>): set<DestinationWorker> {
    set a | a in log && a.Started? :: a.worker
  }

  /** The two threads of every worker that was started, as far as they are; where the history says so, stop() has
      returned. */
  ghost predicate Threads(log: seq<Action>, at: map<DestinationWorker, StopProtocol.State>) {
    && at.Keys == StartedIn(log)
    && (forall w | w in at :: StopProtocol.IsReachable(at[w]))
    && (forall w | w in at && w !in Live(log) :: at[w].stop.Returned?)
  }

  /** The workers of a key that have a living child process. */
  ghost function Feeding(at: map<DestinationWorker, StopProtocol.State>, key: WorkerKey): set<DestinationWorker> {
    set w | w in at && w.key == key && at[w].alive != {}
  }

  /** The replaced workers of a key whose run thread has not returned, because the join in stop() gave up. */
  ghost function Abandoned(
      log: seq<Action>, at: map<DestinationWorker, StopProtocol.State>, key: WorkerKey): set<DestinationWorker>
  {
    set w | w in at && w.key == key && w !in Live(log) && at[w].run != StopProtocol.Finished
  }

  lemma AtMostOne<T>(s: set<T>)
    requires forall a, b | a in s && b in s :: a == b
    ensures |s| <= 1
  {
    if s != {} {
      var x :| x in s;
      assert s == {x};
    }
  }

  /** Each worker has one child at most, and a key has at most one more child than replaced workers whose join gave
      up. When no join gave up, one key never has more than one child process, whatever was replaced before. */
  lemma ChildrenOfOneKey(log: seq<Action>, at: map<DestinationWorker, StopProtocol.State>, key: WorkerKey)
    requires Orderly(log) && Threads(log, at)
    ensures forall w | w in Feeding(at, key) :: |at[w].alive| == 1
    ensures |Feeding(at, key)| <= 1 + |Abandoned(log, at, key)|
  {
    forall w | w in Feeding(at, key)
      ensures |at[w].alive| == 1 && (w in Live(log) || w in Abandoned(log, at, key))
    {
      StopProtocol.ReachableIsSafe(at[w]);
    }
    var live := set w | w in Feeding(at, key) && w in Live(log);
    assert log[..|log|] == log;
    assert OnePerKey(Live(log));
    AtMostOne(live);
    CardinalityOfSubset(Feeding(at, key), live + Abandoned(log, at, key));
  }

  ghost predicate CollisionFree(sha: string -> string) {
    forall a, b :: sha(a) == sha(b) ==> a == b
  }

  class WorkerSupervisor {
    const sha: string -> string
    const inputBase: string
    var maxActiveModels: int
    var workers: map<WorkerKey, DestinationWorker>
    var overCapacity: bool
    ghost var log: seq<Action>

    constructor (inputBase: string, maxActiveModels: int, sha: string -> string)
      ensures Valid() && workers == map[] && log == []
      ensures this.maxActiveModels == maxActiveModels && this.sha == sha
      ensures this.inputBase == Urls.StripRight(inputBase, '/')
    {
      this.sha := sha;
      this.inputBase := Urls.StripRight(inputBase, '/');
      this.maxActiveModels := maxActiveModels;
      workers := map[];
      overCapacity := false;
      log := [];
    }

    /** Where the worker under a key reads its stream from. */
    function InputUrl(key: WorkerKey): string {
      inputBase + "/" + "live/" + key.streamId
    }

    /** It is the stream's own path below the input base. */
    lemma InputUrlIsThePath(key: WorkerKey)
      ensures InputUrl(key) == inputBase + "/live/" + key.streamId
      ensures forall s: Stream | s.streamId == key.streamId :: InputUrl(key) == inputBase + "/" + s.Path()
    {
      assert "/" + "live/" == "/live/";
      assert inputBase + "/" + "live/" + key.streamId == inputBase + "/live/" + key.streamId;
      assert inputBase + "/" + "live/" + key.streamId == inputBase + "/" + ("live/" + key.streamId);
    }

    ghost predicate WellKeyed(some: map<WorkerKey, DestinationWorker>) {
      forall k | k in some ::
        && some[k].key == k && NoNul(some[k].destination) && some[k].inputUrl == InputUrl(k)
        && some[k].fingerprint == sha(FingerprintText(some[k].destination))
    }

    /** Between two calls, the live workers are those in the map. */
    ghost predicate Valid()
      reads this
    {
      WellKeyed(workers) && Orderly(log) && Live(log) == workers.Values
    }

    method SetMaxServerConnections(value: int) returns (r: Result<()>)
      modifies this`maxActiveModels
      ensures r == if value < 1 then Err(Fault) else Ok(())
      ensures maxActiveModels == if value < 1 then old(maxActiveModels) else value
    {
      if value < 1 {
        return Err(Fault);
      }
      maxActiveModels := value;
      return Ok(());
    }

    method BuildDesired(streams: seq<Stream>, ready: set<string>) returns (desired: map<WorkerKey, Destination>)
      requires DistinctStreams(streams)
      ensures desired == Targets(streams, ready)
    {
      desired := map[];
      TargetsWithoutReady(streams);
      var rest := ready;
      assert ready - rest == {};
      while rest != {}
        invariant rest <= ready
        invariant desired == Targets(streams, ready - rest)
      {
        var id :| id in rest;
        TargetsUnion(streams, ready - rest, {id});
        var i := 0;
        while i < |streams| && streams[i].streamId != id
          invariant 0 <= i <= |streams|
          invariant forall k | 0 <= k < i :: streams[k].streamId != id
        {
          i := i + 1;
        }
        if i < |streams| && streams[i].enabled {
          desired := AddTargets(desired, id, streams[i].destinations);
        }
        if i < |streams| {
          TargetsOfOne(streams, i);
        } else {
          TargetsOfNone(streams, id);
        }
        assert ready - (rest - {id}) == (ready - rest) + {id};
        rest := rest - {id};
      }
      assert ready - rest == ready;
    }

    method AddTargets(some: map<WorkerKey, Destination>, id: string, ds: seq<Destination>)
      returns (desired: map<WorkerKey, Destination>)
      ensures desired == some + StreamTargets(id, ds)
    {
      hide StreamTargets;
      StreamTargetsNone(id);
      desired := some;
      assert ds[..0] == [];
      var j := 0;
      while j < |ds|
        invariant 0 <= j <= |ds|
        invariant desired == some + StreamTargets(id, ds[..j])
      {
        StreamTargetsSnoc(id, ds[..j], ds[j]);
        assert ds[..j + 1] == ds[..j] + [ds[j]];
        if ds[j].enabled {
          desired := desired[WorkerKey(id, ds[j].destinationId) := ds[j]];
        }
        j := j + 1;
      }
      assert ds[..j] == ds;
    }

    /** A running worker stays exactly when it is wanted with the configuration it was started with. */
    ghost predicate Keeps(some: map<WorkerKey, DestinationWorker>, desired: map<WorkerKey, Destination>, key: WorkerKey)
      requires key in some
    {
      key in desired && some[key].fingerprint == sha(FingerprintText(desired[key]))
    }

    ghost function Kept(some: map<WorkerKey, DestinationWorker>, desired: map<WorkerKey, Destination>):
        map<WorkerKey, DestinationWorker>
    {
      map k | k in some && Keeps(some, desired, k) :: some[k]
    }

    /** The given workers are exactly the outdated ones under keys outside `rest`. */
    ghost predicate AreOutdated(
        ws: seq<DestinationWorker>, some: map<WorkerKey, DestinationWorker>, desired: map<WorkerKey, Destination>,
        rest: set<WorkerKey>)
    {
      && (forall w | w in ws :: w.key in some && some[w.key] == w && w.key !in rest && !Keeps(some, desired, w.key))
      && (forall k | k in some && k !in rest && !Keeps(some, desired, k) :: some[k] in ws)
    }

    lemma KeptAreTheRest(
        ws: seq<DestinationWorker>, some: map<WorkerKey, DestinationWorker>, desired: map<WorkerKey, Destination>)
      requires WellKeyed(some) && AreOutdated(ws, some, desired, {})
      ensures some.Values - (set w | w in ws) == Kept(some, desired).Values
      ensures WellKeyed(Kept(some, desired)) && Kept(some, desired).Keys <= desired.Keys
    {
      var kept := Kept(some, desired);
      forall w | w in some.Values ensures w !in ws <==> w in kept.Values {
        var k :| k in some && some[k] == w;
        assert w.key == k;
        if w !in ws {
          assert Keeps(some, desired, k);
          assert k in kept && kept[k] == w;
        }
      }
      forall w | w in kept.Values ensures w in some.Values {
        var k :| k in kept && kept[k] == w;
        assert k in some && some[k] == w;
      }
    }

    lemma ValuesAreOnePerKey(some: map<WorkerKey, DestinationWorker>)
      requires WellKeyed(some)
      ensures OnePerKey(some.Values)
    {
      forall v, w | v in some.Values && w in some.Values && v.key == w.key ensures v == w {
        var k :| k in some && some[k] == v;
        var l :| l in some && some[l] == w;
      }
    }

    lemma CreatedAreTheRest(
        ws: seq<DestinationWorker>, kept: map<WorkerKey, DestinationWorker>, after: map<WorkerKey, DestinationWorker>,
        desired: map<WorkerKey, Destination>)
      requires WellKeyed(kept) && WellKeyed(after) && AreCreated(ws, kept, after, desired)
      ensures after.Values == kept.Values + (set w | w in ws) && kept.Values !! (set w | w in ws)
    {
      forall w | w in after.Values ensures w in kept.Values || w in ws {
        var k :| k in after && after[k] == w;
        if k in kept {
          assert kept[k] == w;
        }
      }
      forall w | w in kept.Values ensures w in after.Values && w !in ws {
        var k :| k in kept && kept[k] == w;
        assert after[k] == w && w.key == k;
      }
      forall w | w in ws ensures w in after.Values {
        assert after[w.key] == w;
      }
    }

    /** The workers that are in the map while the keys in `rest` have not been looked at. */
    ghost function Left(
        some: map<WorkerKey, DestinationWorker>, desired: map<WorkerKey, Destination>, rest: set<WorkerKey>):
        map<WorkerKey, DestinationWorker>
    {
      map k | k in some && (k in rest || Keeps(some, desired, k)) :: some[k]
    }

    lemma LeftStep(
        some: map<WorkerKey, DestinationWorker>, desired: map<WorkerKey, Destination>, rest: set<WorkerKey>,
        key: WorkerKey)
      requires key in rest && key in some
      ensures Left(some, desired, rest - {key}) ==
              if Keeps(some, desired, key) then Left(some, desired, rest) else Left(some, desired, rest) - {key}
    {
    }

    lemma LeftNothing(some: map<WorkerKey, DestinationWorker>, desired: map<WorkerKey, Destination>)
      ensures Left(some, desired, {}) == Kept(some, desired)
      ensures Left(some, desired, some.Keys) == some
    {
    }

    method RemoveOutdated(desired: map<WorkerKey, Destination>) returns (toStop: seq<DestinationWorker>)
      requires WellKeyed(workers)
      modifies this`workers
      ensures workers == Kept(old(workers), desired)
      ensures NoRepeats(toStop)
      ensures AreOutdated(toStop, old(workers), desired, {})
    {
      hide FingerprintText, NoNul;
      toStop := [];
      var rest := workers.Keys;
      ghost var before := workers;
      LeftNothing(before, desired);
      while rest != {}
        invariant rest <= before.Keys
        invariant workers == Left(before, desired, rest)
        invariant NoRepeats(toStop)
        invariant AreOutdated(toStop, before, desired, rest)
      {
        var key :| key in rest;
        var worker := workers[key];
        if key !in desired || worker.fingerprint != sha(FingerprintText(desired[key])) {
          assert worker.key == key && !Keeps(before, desired, key);
          NoRepeatsSnoc(toStop, worker);
          toStop := toStop + [worker];
          workers := workers - {key};
        }
        LeftStep(before, desired, rest, key);
        rest := rest - {key};
      }
      LeftNothing(before, desired);
    }

    method StopWorkers(toStop: seq<DestinationWorker>)
      requires Orderly(log)
      modifies this`log
      ensures Orderly(log) && Live(log) == old(Live(log)) - (set w | w in toStop)
      ensures old(log) <= log
      ensures forall i | |old(log)| <= i < |log| :: log[i].StopReturned? && log[i].worker in toStop
    {
      for i := 0 to |toStop|
        invariant Orderly(log) && Live(log) == old(Live(log)) - (set w | w in toStop[..i])
        invariant old(log) <= log
        invariant forall n | |old(log)| <= n < |log| :: log[n].StopReturned? && log[n].worker in toStop
      {
        OrderlySnoc(log, StopReturned(toStop[i]));
        log := log + [StopReturned(toStop[i])];
      }
      assert toStop[..|toStop|] == toStop;
    }

    /** The given workers are exactly those of `after` that are not in `kept`, and run the wanted targets. */
    ghost predicate AreCreated(
        ws: seq<DestinationWorker>, kept: map<WorkerKey, DestinationWorker>, after: map<WorkerKey, DestinationWorker>,
        desired: map<WorkerKey, Destination>)
    {
      && kept.Keys <= after.Keys <= desired.Keys
      && (forall k | k in kept :: after[k] == kept[k])
      && (forall k | k in after && k !in kept :: after[k].destination == desired[k] && after[k] in ws)
      && (forall w | w in ws :: w.key in after && w.key !in kept && after[w.key] == w)
    }

    lemma AddCreated(
        ws: seq<DestinationWorker>, kept: map<WorkerKey, DestinationWorker>, after: map<WorkerKey, DestinationWorker>,
        desired: map<WorkerKey, Destination>, w: DestinationWorker)
      requires AreCreated(ws, kept, after, desired) && WellKeyed(after)
      requires w.key in desired && w.key !in after && w.destination == desired[w.key] && NoNul(w.destination)
      requires w.fingerprint == sha(FingerprintText(w.destination)) && w.inputUrl == InputUrl(w.key)
      ensures AreCreated(ws + [w], kept, after[w.key := w], desired) && WellKeyed(after[w.key := w])
      ensures w !in ws
    {
    }

    method CreateMissing(desired: map<WorkerKey, Destination>) returns (toStart: seq<DestinationWorker>)
      requires WellKeyed(workers) && workers.Keys <= desired.Keys
      requires forall k | k in desired :: NoNul(desired[k])
      modifies this`workers
      ensures WellKeyed(workers) && workers.Keys == desired.Keys
      ensures AreCreated(toStart, old(workers), workers, desired)
      ensures forall w | w in toStart :: fresh(w)
      ensures NoRepeats(toStart)
    {
      hide FingerprintText, NoNul, InputUrl;
      toStart := [];
      var rest := desired.Keys;
      ghost var kept := workers;
      while rest != {}
        invariant rest <= desired.Keys
        invariant WellKeyed(workers) && workers.Keys == kept.Keys + (desired.Keys - rest)
        invariant AreCreated(toStart, kept, workers, desired)
        invariant forall w | w in toStart :: fresh(w)
        invariant NoRepeats(toStart)
      {
        var key :| key in rest;
        if key !in workers {
          var worker := new DestinationWorker(key, desired[key], InputUrl(key), sha);
          AddCreated(toStart, kept, workers, desired, worker);
          NoRepeatsSnoc(toStart, worker);
          toStart := toStart + [worker];
          workers := workers[key := worker];
        }
        rest := rest - {key};
      }
    }

    method StartWorkers(toStart: seq<DestinationWorker>)
      requires Orderly(log) && NoRepeats(toStart)
      requires Live(log) !! (set w | w in toStart) && OnePerKey(Live(log) + (set w | w in toStart))
      modifies this`log
      ensures Orderly(log) && Live(log) == old(Live(log)) + (set w | w in toStart)
      ensures old(log) <= log
      ensures forall i | |old(log)| <= i < |log| :: log[i].Started? && log[i].worker in toStart
    {
      ghost var before := Live(log);
      for i := 0 to |toStart|
        invariant Orderly(log) && Live(log) == before + (set w | w in toStart[..i])
        invariant old(log) <= log
        invariant forall n | |old(log)| <= n < |log| :: log[n].Started? && log[n].worker in toStart
      {
        forall w | w in Live(log) ensures w.key != toStart[i].key {
          assert w in before + (set w | w in toStart) && toStart[i] in before + (set w | w in toStart);
          assert w != toStart[i];
        }
        OrderlySnoc(log, Started(toStart[i]));
        log := log + [Started(toStart[i])];
      }
      assert toStart[..|toStart|] == toStart;
    }

    /** The workers and the history after a reconcile towards `desired`. */
    twostate predicate Reconciled(desired: map<WorkerKey, Destination>)
      reads this
    {
      var kept := Kept(old(workers), desired);
      && workers.Keys == desired.Keys
      && (forall k | k in desired :: workers[k].fingerprint == sha(FingerprintText(desired[k])))
      && (forall k | k in kept :: workers[k] == kept[k])
      && (forall k | k in desired :: workers[k].inputUrl == InputUrl(k))
      && (forall k | k in desired && k !in kept :: fresh(workers[k]) && workers[k].destination == desired[k])
      && old(log) <= log
      && (forall i | |old(log)| <= i < |log| :: log[i].worker !in kept.Values)
    }

    method ReconcileTo(desired: map<WorkerKey, Destination>)
      requires Valid() && forall k | k in desired :: NoNul(desired[k])
      modifies this`workers, this`log
      ensures Valid() && Reconciled(desired)
    {
      ghost var before := workers;
      var toStop := RemoveOutdated(desired);
      ghost var kept := workers;
      KeptAreTheRest(toStop, before, desired);
      NotKept(toStop, before, desired);
      StopWorkers(toStop);
      var toStart := CreateMissing(desired);
      CreatedAreTheRest(toStart, kept, workers, desired);
      ValuesAreOnePerKey(workers);
      StartWorkers(toStart);
    }

    /** Brings the workers in line with the desired state and the ready paths. The connection cap only sets a
        flag: no clause about the workers mentions it. */
    method Reconcile(state: DesiredState, paths: map<string, map<string, Json>>, ghost lib: Library)
      requires Valid() && GoodState(state, lib)
      modifies this
      ensures Valid() && maxActiveModels == old(maxActiveModels)
      ensures Reconciled(Targets(state.streams, ReadyIds(paths)))
      ensures forall k | k in workers :: workers[k].inputUrl == inputBase + "/live/" + k.streamId
      ensures overCapacity == (|ReadyIds(paths)| > maxActiveModels)
    {
      var ready := ReadyIds(paths);
      var limit := maxActiveModels;
      overCapacity := |ready| > limit;
      StreamsAreDistinct(state, lib);
      var desired := BuildDesired(state.streams, ready);
      TargetsHaveNoNul(state, ready, lib);
      ReconcileTo(desired);
      forall k | k in workers ensures workers[k].inputUrl == inputBase + "/live/" + k.streamId {
        InputUrlIsThePath(k);
      }
    }

    /** With a hash that has no collisions, a worker is kept exactly when it is wanted for the same target. */
    lemma KeptWhenTargetIsTheSame(some: map<WorkerKey, DestinationWorker>, desired: map<WorkerKey, Destination>)
      requires CollisionFree(sha) && WellKeyed(some) && forall k | k in desired :: NoNul(desired[k])
      ensures forall k | k in some ::
                k in Kept(some, desired) <==> k in desired && SameTarget(some[k].destination, desired[k])
    {
      forall k | k in some && k in desired
        ensures k in Kept(some, desired) <==> SameTarget(some[k].destination, desired[k])
      {
        FingerprintTextIsInjective(some[k].destination, desired[k]);
        assert sha(FingerprintText(some[k].destination)) == sha(FingerprintText(desired[k])) <==>
               FingerprintText(some[k].destination) == FingerprintText(desired[k]);
      }
    }

    lemma NotKept(
        ws: seq<DestinationWorker>, some: map<WorkerKey, DestinationWorker>, desired: map<WorkerKey, Destination>)
      requires WellKeyed(some) && AreOutdated(ws, some, desired, {})
      ensures forall w | w in ws :: w !in Kept(some, desired).Values
    {
      KeptAreTheRest(ws, some, desired);
    }

    method StopAll()
      requires Valid()
      modifies this
      ensures Valid() && workers == map[] && Live(log) == {} && old(log) <= log
    {
      var toStop: seq<DestinationWorker> := [];
      var rest := workers.Keys;
      ghost var before := workers;
      while rest != {}
        invariant rest <= before.Keys && workers == before && log == old(log)
        invariant forall w | w in toStop :: w in before.Values
        invariant forall k | k in before && k !in rest :: before[k] in toStop
      {
        var key :| key in rest;
        toStop := toStop + [workers[key]];
        rest := rest - {key};
      }
      workers := map[];
      StopWorkers(toStop);
    }
  }

  ghost predicate NoRepeats(ws: seq<DestinationWorker>) {
    forall i, j | 0 <= i < j < |ws| :: ws[i] != ws[j]
  }

  lemma NoRepeatsSnoc(ws: seq<DestinationWorker>, w: DestinationWorker)
    requires NoRepeats(ws) && w !in ws
    ensures NoRepeats(ws + [w])
  {
  }

  lemma StreamsAreDistinct(state: DesiredState, lib: Library)
    requires GoodState(state, lib)
    ensures DistinctStreams(state.streams)
  {
    assert forall i | 0 <= i < |state.streams| :: GoodStream(state.streams[i], lib);
  }

  lemma TargetsHaveNoNul(state: DesiredState, ready: set<string>, lib: Library)
    requires GoodState(state, lib)
    ensures var desired := Targets(state.streams, ready); forall k | k in desired :: NoNul(desired[k])
  {
    StreamsAreDistinct(state, lib);
    var desired := Targets(state.streams, ready);
    forall k | k in desired ensures NoNul(desired[k]) {
      TargetsAreWanted(state.streams, ready, k, desired[k]);
      var i, j :| 0 <= i < |state.streams| && 0 <= j < |state.streams[i].destinations|
        && desired[k] == state.streams[i].destinations[j];
      assert GoodStream(state.streams[i], lib);
      assert GoodDestination(state.streams[i].destinations[j], lib);
    }
  }
}
