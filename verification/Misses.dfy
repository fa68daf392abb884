/** Exactly what a purge running alone misses, and runs that miss something: no clean counter can be left out. */
module Misses {
  import opened Types
  import opened IndexModel
  import opened Protocol
  import Eviction
  import IndexHistory
  import InsertShape
  import Recording

  // ----- one step at a time -----

  lemma RunStep(w: World, step: Step, rest: seq<Step>, ans: Oracle) returns (v: World)
    requires WellFormed(w.index)
    ensures v == Next(w, step, ans) && WellFormed(v.index)
    ensures Run(w, [step] + rest, ans) == Run(v, rest, ans)
  {
    NextKeepsWellFormed(w, step, ans);
    assert ([step] + rest)[1..] == rest;
    v := Next(w, step, ans);
  }

  lemma RunOne(w: World, step: Step, ans: Oracle) returns (v: World)
    requires WellFormed(w.index)
    ensures v == Next(w, step, ans) == Run(w, [step], ans) && WellFormed(v.index)
  {
    var none: seq<Step> := [];
    assert [step] == [step] + none;
    v := RunStep(w, step, none, ans);
  }

  /** A run that has got to `u` goes on from there. */
  lemma {:induction false} RunOn(w: World, first: seq<Step>, u: World, second: seq<Step>, ans: Oracle)
    requires WellFormed(w.index) && u == Run(w, first, ans)
    ensures WellFormed(u.index)
    ensures Run(w, first + second, ans) == Run(u, second, ans)
    decreases first
  {
    if first == [] {
      assert first + second == second;
    } else {
      assert first == [first[0]] + first[1..] && first + second == [first[0]] + (first[1..] + second);
      var v := RunStep(w, first[0], first[1..], ans);
      var v' := RunStep(w, first[0], first[1..] + second, ans);
      RunOn(v, first[1..], u, second, ans);
    }
  }

  // ----- a purge running alone -----

  function Drain(id: nat, n: nat): seq<Step> {
    if n == 0 then [] else [PurgeKey(id)] + Drain(id, n - 1)
  }

  predicate Done(job: Job) {
    if job.OnKeys? then job.keys == [] else job.files == {}
  }

  /** Every purge of `tag` has run out of keys or files. */
  ghost predicate Idle(w: World, tag: Tag) {
    forall j :: j in w.jobs && w.jobs[j].tag == tag ==> Done(w.jobs[j])
  }

  lemma IdleMeansNothingPending(w: World, tag: Tag)
    ensures Idle(w, tag) <==> forall key :: !Pending(w, tag, key)
  {
    if !Idle(w, tag) {
      var j :| j in w.jobs && w.jobs[j].tag == tag && !Done(w.jobs[j]);
      if w.jobs[j].OnKeys? {
        assert Waiting(w, tag, w.jobs[j].keys[0], EVER);
        assert Pending(w, tag, w.jobs[j].keys[0]);
      } else {
        var key :| key in w.jobs[j].files;
        assert Pending(w, tag, key);
      }
    }
  }

  /** The purge `id` is the only one of its tag still at work. */
  ghost predicate Alone(w: World, id: nat, tag: Tag) {
    && id in w.jobs && w.jobs[id].OnKeys? && w.jobs[id].tag == tag
    && forall j :: j in w.jobs && j != id && w.jobs[j].tag == tag ==> Done(w.jobs[j])
  }

  lemma {:induction false} DrainingRemoves(w: World, id: nat, tag: Tag, key: CacheKey, ans: Oracle) returns (v: World)
    requires WellFormed(w.index) && Alone(w, id, tag)
    ensures v == Run(w, Drain(id, |w.jobs[id].keys|), ans)
    ensures Idle(v, tag)
    ensures key in v.disk <==> key in w.disk && key !in w.jobs[id].keys
    ensures key in v.disk ==> v.disk[key] == w.disk[key]
    decreases |w.jobs[id].keys|
  {
    var keys := w.jobs[id].keys;
    if keys == [] {
      v := w;
    } else {
      var u := RunStep(w, PurgeKey(id), Drain(id, |keys| - 1), ans);
      OneKeyRemoved(w, id, tag, ans);
      assert keys == [keys[0]] + keys[1..];
      v := DrainingRemoves(u, id, tag, key, ans);
    }
  }

  lemma OneKeyRemoved(w: World, id: nat, tag: Tag, ans: Oracle)
    requires WellFormed(w.index) && Alone(w, id, tag) && w.jobs[id].keys != []
    ensures var v := Next(w, PurgeKey(id), ans);
            Alone(v, id, tag) && v.jobs[id].keys == w.jobs[id].keys[1..] && v.disk == w.disk - {w.jobs[id].keys[0]}
  {
    var v := Next(w, PurgeKey(id), ans);
    assert v.jobs == w.jobs[id := w.jobs[id].(keys := w.jobs[id].keys[1..])];
  }

  /** A purge answered from the index, with no other of its tag at work, removes exactly the files it was given. */
  lemma LonePurgeRemovesTheListed(w: World, id: nat, tag: Tag, fallback: bool, key: CacheKey, ans: Oracle)
    requires WellFormed(w.index) && id !in w.jobs && Acceptable(tag) && Holds(w.index.rows, tag) && Idle(w, tag)
    ensures WellFormed(Next(w, StartPurge(id, tag, fallback), ans).index)
    ensures var v := Run(Next(w, StartPurge(id, tag, fallback), ans), Drain(id, |ListOf(w.index, tag)|), ans);
            && Idle(v, tag)
            && (key in v.disk <==> key in w.disk && key !in ListOf(w.index, tag))
            && (key in v.disk ==> v.disk[key] == w.disk[key])
  {
    NextKeepsWellFormed(w, StartPurge(id, tag, fallback), ans);
    StartsAlone(w, id, tag, fallback, ans);
    var v := DrainingRemoves(Next(w, StartPurge(id, tag, fallback), ans), id, tag, key, ans);
  }

  lemma StartsAlone(w: World, id: nat, tag: Tag, fallback: bool, ans: Oracle)
    requires WellFormed(w.index) && id !in w.jobs && Acceptable(tag) && Holds(w.index.rows, tag) && Idle(w, tag)
    ensures var v := Next(w, StartPurge(id, tag, fallback), ans);
            Alone(v, id, tag) && v.jobs[id].keys == ListOf(w.index, tag) && v.disk == w.disk
  {
    var v := Next(w, StartPurge(id, tag, fallback), ans);
    assert v.jobs == w.jobs[id := OnKeys(tag, ListOf(w.index, tag), w.clock)];
  }

  /** With clean counters, such a purge leaves a file carrying its tag exactly if the file had lost the tag. */
  lemma LonePurgeLeavesTheLost(before: seq<Step>, id: nat, tag: Tag, fallback: bool, key: CacheKey, ans: Oracle)
    requires WellFormed(Run(START, before, ans).index)
    requires var w := Run(START, before, ans);
             && Healthy(w) && id !in w.jobs && Acceptable(tag) && Holds(w.index.rows, tag) && Idle(w, tag)
             && key in w.disk && tag in w.disk[key].tags
    ensures var w := Run(START, before, ans);
            && WellFormed(Next(w, StartPurge(id, tag, fallback), ans).index)
            && var v := Run(Next(w, StartPurge(id, tag, fallback), ans), Drain(id, |ListOf(w.index, tag)|), ans);
               key in v.disk <==> tag in w.disk[key].lost
  {
    var w := Run(START, before, ans);
    HealthyRunsAreCovered(START, before, ans);
    assert FileCovered(w, key, tag);
    IdleMeansNothingPending(w, tag);
    assert !Pending(w, tag, key);
    LonePurgeRemovesTheListed(w, id, tag, fallback, key, ans);
  }

  // ----- storing one response -----

  /** A response recorded under one tag and committed with nothing in between. */
  function Store(id: nat, key: CacheKey, tag: Tag): seq<Step> {
    [Record(id, key, [tag]), Commit(id)]
  }

  /** Recording one tag, with nothing in flight, is one insert. */
  lemma RecordOne(w: World, id: nat, key: CacheKey, tag: Tag, ans: Oracle)
    requires WellFormed(w.index) && w.flights == map[] && Acceptable(tag)
    ensures var a, v := Insert(w.index, tag, key, ans, w.asked), Next(w, Record(id, key, [tag]), ans);
            && WellFormed(v.index) && v.clock == w.clock + 1
            && v.index == a.index && v.asked == a.asked && v.jobs == w.jobs
            && v.disk - {key} == w.disk - {key}
            && v.flights == map[id := Flight(key, [tag], w.clock, {})]
            && v.failures == w.failures + if a.ok then 0 else 1
  {
    InsertKeepsWellFormed(w.index, tag, key, ans, w.asked);
    var a := Insert(w.index, tag, key, ans, w.asked);
    var rest: seq<Tag> := [tag][1..];
    assert rest == [];
    assert Recording.InsertAll(a.index, rest, key, ans, a.asked) == Recording.Batch(a.index, a.asked, false, 0);
  }

  lemma StoreIsTwoSteps(w: World, id: nat, key: CacheKey, tag: Tag, ans: Oracle) returns (u: World)
    requires WellFormed(w.index)
    ensures u == Next(w, Record(id, key, [tag]), ans) && WellFormed(u.index)
    ensures Run(w, Store(id, key, tag), ans) == Next(u, Commit(id), ans) && WellFormed(Next(u, Commit(id), ans).index)
  {
    assert Store(id, key, tag) == [Record(id, key, [tag])] + [Commit(id)];
    u := RunStep(w, Record(id, key, [tag]), [Commit(id)], ans);
    var v := RunOne(u, Commit(id), ans);
  }

  lemma OnlyFlightLands(w: World, id: nat, f: Flight, ans: Oracle)
    requires WellFormed(w.index) && w.flights == map[id := f] && f.lost == {}
    ensures var v := Next(w, Commit(id), ans);
            && v.disk == w.disk[f.key := File(f.tags, w.clock, {})] && v.flights == map[]
            && v.index == w.index && v.jobs == w.jobs && v.asked == w.asked && v.failures == w.failures
            && v.clock == w.clock + 1
  {
    assert w.flights[id] == f;
    var v := Next(w, Commit(id), ans);
    var lost := Landed(w.(clock := w.clock + 1), f, w.clock).lost;
    assert lost == {};
  }

  lemma SameElsewhere(a: map<CacheKey, File>, b: map<CacheKey, File>, key: CacheKey, file: File)
    requires a - {key} == b - {key}
    ensures a[key := file] == b[key := file]
  {
    assert forall k :: k != key ==> (k in a <==> k in a - {key}) && (k in b <==> k in b - {key});
    assert forall k :: k in a && k != key ==> a[k] == (a - {key})[k] == b[k];
  }

  /** What storing one response under one tag does, with nothing in flight. */
  function Put(w: World, key: CacheKey, tag: Tag, ans: Oracle): World
    requires WellFormed(w.index)
  {
    var a := Insert(w.index, tag, key, ans, w.asked);
    World(a.index, a.asked, w.disk[key := File([tag], w.clock + 1, {})], map[], w.jobs, w.clock + 2,
          w.failures + if a.ok then 0 else 1)
  }

  lemma StoreIsPut(w: World, id: nat, key: CacheKey, tag: Tag, ans: Oracle) returns (v: World)
    requires WellFormed(w.index) && w.flights == map[] && Acceptable(tag)
    ensures v == Put(w, key, tag, ans) == Run(w, Store(id, key, tag), ans) && WellFormed(v.index)
  {
    var u := StoreIsTwoSteps(w, id, key, tag, ans);
    RecordOne(w, id, key, tag, ans);
    OnlyFlightLands(u, id, Flight(key, [tag], w.clock, {}), ans);
    SameElsewhere(u.disk, w.disk, key, File([tag], w.clock + 1, {}));
    v := Put(w, key, tag, ans);
  }

  lemma PutNew(w: World, key: CacheKey, tag: Tag, ans: Oracle)
    requires WellFormed(w.index) && Acceptable(tag) && !Holds(w.index.rows, tag) && Eviction.Grants(ans, w.asked)
    ensures var v := Put(w, key, tag, ans);
            && v.asked == w.asked + 4 && v.failures == w.failures
            && v.index.evicted == w.index.evicted && v.index.dropped == w.index.dropped
            && v.index.rows == [Row(tag, [key], 1 + ans(w.asked + 2).slack)] + w.index.rows
  {
    Eviction.InsertNew(w.index, tag, key, ans, w.asked);
  }

  lemma PutEvicting(w: World, key: CacheKey, tag: Tag, ans: Oracle)
    requires WellFormed(w.index) && w.index.rows != []
    requires Acceptable(tag) && !Holds(w.index.rows, tag) && ans(w.asked).Refused? && Eviction.Grants(ans, w.asked + 1)
    ensures var v := Put(w, key, tag, ans);
            && v.asked == w.asked + 5 && v.failures == w.failures
            && v.index.evicted == w.index.evicted + 1 && v.index.dropped == w.index.dropped
            && v.index.rows == [Row(tag, [key], 1 + ans(w.asked + 3).slack)] + w.index.rows[..|w.index.rows| - 1]
  {
    Eviction.InsertEvicting(w.index, tag, key, ans, w.asked);
  }

  // ----- runs that miss something -----

  /** The index would answer a purge of `tag`, none is at work, and it would pass over the file `missed` carrying it. */
  ghost predicate Misleading(w: World, tag: Tag, missed: CacheKey) {
    && WellFormed(w.index) && Acceptable(tag)
    && missed in w.disk && tag in w.disk[missed].tags
    && Holds(w.index.rows, tag) && missed !in ListOf(w.index, tag)
    && Idle(w, tag)
  }

  /** An index, perhaps with a past, that holds nothing and has nothing going on around it. */
  ghost predicate Blank(w: World) {
    WellFormed(w.index) && w.index.rows == [] && w.flights == map[] && w.jobs == map[]
  }

  function StoreTwo(id: nat, k1: CacheKey, a: Tag, k2: CacheKey, b: Tag): seq<Step> {
    Store(id, k1, a) + Store(id + 1, k2, b)
  }

  lemma StoreTwoIsPutTwice(w: World, id: nat, k1: CacheKey, a: Tag, k2: CacheKey, b: Tag, ans: Oracle)
    returns (u: World, v: World)
    requires WellFormed(w.index) && w.flights == map[] && Acceptable(a) && Acceptable(b)
    ensures u == Put(w, k1, a, ans) && WellFormed(u.index)
    ensures v == Put(u, k2, b, ans) && WellFormed(v.index)
    ensures v == Run(w, StoreTwo(id, k1, a, k2, b), ans)
  {
    u := StoreIsPut(w, id, k1, a, ans);
    v := StoreIsPut(u, id + 1, k2, b, ans);
    RunOn(w, Store(id, k1, a), u, Store(id + 1, k2, b), ans);
  }

  /**
   `evicted == 0` is needed. A slab with room for two tags: `a` and `b` fill it, `c` is refused and `a`
   goes, `a` is refused and `b` goes. Now `a` is present again, without its first key.
   */
  lemma EvictedThenRecordedAgain(w: World, a: Tag, b: Tag, c: Tag, k1: CacheKey, k2: CacheKey, k3: CacheKey,
                                 k4: CacheKey,
                                 ans: Oracle)
    requires Blank(w) && Acceptable(a) && Acceptable(b) && Acceptable(c) && a != b && b != c && c != a
    requires k1 != k2 && k1 != k3 && k1 != k4
    requires Eviction.Grants(ans, w.asked) && Eviction.Grants(ans, w.asked + 4)
    requires ans(w.asked + 8).Refused? && Eviction.Grants(ans, w.asked + 9)
    requires ans(w.asked + 13).Refused? && Eviction.Grants(ans, w.asked + 14)
    ensures var v := Run(w, StoreTwo(0, k1, a, k2, b) + StoreTwo(2, k3, c, k4, a), ans);
            && Misleading(v, a, k1) && Answered(v.index, a) == Some([k4]) && v.disk[k1].lost == {}
            && v.index.evicted == w.index.evicted + 2 && v.index.dropped == w.index.dropped && v.failures == w.failures
  {
    var w2 := FillTwo(w, a, b, k1, k2, ans);
    var w4 := DisplaceTwo(w2, a, b, c, k3, k4, ans);
    RunOn(w, StoreTwo(0, k1, a, k2, b), w2, StoreTwo(2, k3, c, k4, a), ans);
  }

  lemma FillTwo(w: World, a: Tag, b: Tag, k1: CacheKey, k2: CacheKey, ans: Oracle) returns (v: World)
    requires Blank(w) && Acceptable(a) && Acceptable(b) && a != b
    requires Eviction.Grants(ans, w.asked) && Eviction.Grants(ans, w.asked + 4)
    ensures v == Run(w, StoreTwo(0, k1, a, k2, b), ans) && WellFormed(v.index)
    ensures v.disk == w.disk[k1 := File([a], w.clock + 1, {})][k2 := File([b], w.clock + 3, {})]
    ensures v.flights == map[] && v.jobs == map[] && v.asked == w.asked + 8 && v.failures == w.failures
    ensures v.index.evicted == w.index.evicted && v.index.dropped == w.index.dropped
    ensures |v.index.rows| == 2 && v.index.rows[0].tag == b && v.index.rows[1].tag == a
  {
    var u;
    u, v := StoreTwoIsPutTwice(w, 0, k1, a, k2, b, ans);
    PutNew(w, k1, a, ans);
    PutNew(u, k2, b, ans);
  }

  lemma DisplaceTwo(w: World, a: Tag, b: Tag, c: Tag, k3: CacheKey, k4: CacheKey, ans: Oracle) returns (v: World)
    requires WellFormed(w.index) && w.flights == map[] && Acceptable(a) && Acceptable(c) && b != c && c != a && a != b
    requires |w.index.rows| == 2 && w.index.rows[0].tag == b && w.index.rows[1].tag == a
    requires ans(w.asked).Refused? && Eviction.Grants(ans, w.asked + 1) && ans(w.asked + 5).Refused? && Eviction.Grants(ans, w.asked + 6)
    ensures v == Run(w, StoreTwo(2, k3, c, k4, a), ans) && WellFormed(v.index)
    ensures v.disk == w.disk[k3 := File([c], w.clock + 1, {})][k4 := File([a], w.clock + 3, {})] && v.jobs == w.jobs
    ensures Answered(v.index, a) == Some([k4]) && v.failures == w.failures
    ensures v.index.evicted == w.index.evicted + 2 && v.index.dropped == w.index.dropped
  {
    var u;
    u, v := StoreTwoIsPutTwice(w, 2, k3, c, k4, a, ans);
    PutEvicting(w, k3, c, ans);
    PutEvicting(u, k4, a, ans);
  }

  /**
   `failures == 0` is needed. A slab with room for one entry: a purge of `b` still holds the list it was
   given, so `a` is refused though the index is empty; once the purge is over, `a` is created.
   */
  lemma RefusedWhilePurging(w: World, a: Tag, b: Tag, k0: CacheKey, k1: CacheKey, k2: CacheKey, ans: Oracle)
    requires Blank(w) && Acceptable(a) && Acceptable(b) && k0 != k1 && k1 != k2
    requires Eviction.Grants(ans, w.asked)
    requires ans(w.asked + 4).Granted? && ans(w.asked + 5).Granted? && ans(w.asked + 6).Granted? && ans(w.asked + 7).Refused?
    requires Eviction.Grants(ans, w.asked + 8)
    ensures var v := Run(w, StoreAndTake(b, k0) + StoreAroundPurge(a, k1, k2), ans);
            && Misleading(v, a, k1) && Answered(v.index, a) == Some([k2]) && v.disk[k1].lost == {}
            && v.index.evicted == w.index.evicted && v.index.dropped == w.index.dropped && v.failures == w.failures + 1
  {
    var w2 := TakenAtOnce(w, b, k0, ans);
    var w5 := RefusedThenGranted(w2, a, b, k0, k1, k2, w.clock + 2, ans);
    RunOn(w, StoreAndTake(b, k0), w2, StoreAroundPurge(a, k1, k2), ans);
  }

  function StoreAroundPurge(a: Tag, k1: CacheKey, k2: CacheKey): seq<Step> {
    Store(1, k1, a) + [PurgeKey(0)] + Store(2, k2, a)
  }

  lemma RefusedThenGranted(w: World, a: Tag, b: Tag, k0: CacheKey, k1: CacheKey, k2: CacheKey, taken: nat, ans: Oracle)
    returns (v: World)
    requires WellFormed(w.index) && w.index.rows == [] && w.flights == map[] && Acceptable(a)
    requires w.jobs == map[0 := OnKeys(b, [k0], taken)]
    requires ans(w.asked).Granted? && ans(w.asked + 1).Granted? && ans(w.asked + 2).Granted? && ans(w.asked + 3).Refused?
    requires Eviction.Grants(ans, w.asked + 4)
    ensures v == Run(w, StoreAroundPurge(a, k1, k2), ans) && WellFormed(v.index)
    ensures v.disk == (w.disk[k1 := File([a], w.clock + 1, {})] - {k0})[k2 := File([a], w.clock + 4, {})]
    ensures v.jobs == map[0 := OnKeys(b, [], taken)]
    ensures Answered(v.index, a) == Some([k2]) && v.failures == w.failures + 1
    ensures v.index.evicted == w.index.evicted && v.index.dropped == w.index.dropped
  {
    var w4 := RefusedThenPassed(w, a, b, k0, k1, taken, ans);
    v := StoreIsPut(w4, 2, k2, a, ans);
    PutNew(w4, k2, a, ans);
    RunOn(w, Store(1, k1, a) + [PurgeKey(0)], w4, Store(2, k2, a), ans);
  }

  lemma RefusedThenPassed(w: World, a: Tag, b: Tag, k0: CacheKey, k1: CacheKey, taken: nat,
                          ans: Oracle) returns (v: World)
    requires WellFormed(w.index) && w.index.rows == [] && w.flights == map[] && Acceptable(a)
    requires w.jobs == map[0 := OnKeys(b, [k0], taken)]
    requires ans(w.asked).Granted? && ans(w.asked + 1).Granted? && ans(w.asked + 2).Granted? && ans(w.asked + 3).Refused?
    ensures v == Run(w, Store(1, k1, a) + [PurgeKey(0)], ans) && WellFormed(v.index)
    ensures v.disk == w.disk[k1 := File([a], w.clock + 1, {})] - {k0}
    ensures v.jobs == map[0 := OnKeys(b, [], taken)] && v.flights == map[] && v.clock == w.clock + 3
    ensures v.index.rows == [] && v.asked == w.asked + 4 && v.failures == w.failures + 1
    ensures v.index.evicted == w.index.evicted && v.index.dropped == w.index.dropped
  {
    var w3 := RefusedStore(w, k1, a, ans);
    v := PassTheOnly(w3, b, k0, taken, ans);
    RunOn(w, Store(1, k1, a), w3, [PurgeKey(0)], ans);
  }

  function StoreAndTake(tag: Tag, key: CacheKey): seq<Step> {
    Store(0, key, tag) + [StartPurge(0, tag, true)]
  }

  lemma TakenAtOnce(w: World, tag: Tag, key: CacheKey, ans: Oracle) returns (v: World)
    requires Blank(w) && Acceptable(tag) && Eviction.Grants(ans, w.asked)
    ensures v == Run(w, StoreAndTake(tag, key), ans) && WellFormed(v.index)
    ensures v.index.rows == [] && v.index.evicted == w.index.evicted && v.index.dropped == w.index.dropped
    ensures v.jobs == map[0 := OnKeys(tag, [key], w.clock + 2)] && v.flights == map[]
    ensures v.disk == w.disk[key := File([tag], w.clock + 1, {})] && v.asked == w.asked + 4 && v.failures == w.failures
  {
    PutNew(w, key, tag, ans);
    var u := StoreIsPut(w, 0, key, tag, ans);
    v := TakeTheOnly(u, tag, key, ans);
    RunOn(w, Store(0, key, tag), u, [StartPurge(0, tag, true)], ans);
  }

  /** With nothing to evict, a creation refused its map node fails. */
  lemma RefusedStore(w: World, key: CacheKey, tag: Tag, ans: Oracle) returns (v: World)
    requires WellFormed(w.index) && w.index.rows == [] && w.flights == map[] && Acceptable(tag)
    requires ans(w.asked).Granted? && ans(w.asked + 1).Granted? && ans(w.asked + 2).Granted? && ans(w.asked + 3).Refused?
    ensures v == Put(w, key, tag, ans) == Run(w, Store(1, key, tag), ans) && WellFormed(v.index)
    ensures v.index.rows == [] && v.index.evicted == w.index.evicted && v.index.dropped == w.index.dropped
    ensures v.asked == w.asked + 4 && v.failures == w.failures + 1
  {
    MentionKeepsWellFormed(w.index, tag);
    AttemptsUnfold(Mention(w.index, tag), tag, key, ans, w.asked, EVICT_ATTEMPTS);
    v := StoreIsPut(w, 1, key, tag, ans);
  }

  lemma TakeTheOnly(w: World, tag: Tag, key: CacheKey, ans: Oracle) returns (v: World)
    requires WellFormed(w.index) && Acceptable(tag) && w.jobs == map[]
    requires Answered(w.index, tag) == Some([key]) && |w.index.rows| == 1
    ensures v == Run(w, [StartPurge(0, tag, true)], ans) && WellFormed(v.index)
    ensures v.index.rows == [] && v.index.evicted == w.index.evicted && v.index.dropped == w.index.dropped
    ensures v.jobs == map[0 := OnKeys(tag, [key], w.clock)] && v.clock == w.clock + 1
    ensures v.disk == w.disk && v.flights == w.flights && v.asked == w.asked && v.failures == w.failures
  {
    v := RunOne(w, StartPurge(0, tag, true), ans);
  }

  lemma PassTheOnly(w: World, tag: Tag, key: CacheKey, taken: nat, ans: Oracle) returns (v: World)
    requires WellFormed(w.index) && w.flights == map[] && w.jobs == map[0 := OnKeys(tag, [key], taken)]
    ensures v == Run(w, [PurgeKey(0)], ans) && WellFormed(v.index)
    ensures v.jobs == map[0 := OnKeys(tag, [], taken)] && v.clock == w.clock + 1
    ensures v.disk == w.disk - {key} && v.flights == map[]
    ensures v.index == w.index && v.asked == w.asked && v.failures == w.failures
  {
    v := RunOne(w, PurgeKey(0), ans);
    var none: seq<CacheKey> := [key][1..];
    assert none == [];
  }

  /** `dropped == 0` is needed. Keys stored under one tag, one after the other. */
  function StoreAll(tag: Tag, keys: seq<CacheKey>): seq<Step> {
    if keys == [] then [] else StoreAll(tag, keys[..|keys| - 1]) + Store(0, keys[|keys| - 1], tag)
  }

  /** How many keys a list cannot hold. */
  function Excess(keys: seq<CacheKey>): nat {
    |keys| - |InsertShape.Newest(keys)|
  }

  /** A slab that has stopped refusing. */
  ghost predicate Ample(ans: Oracle, n: nat) {
    forall j :: n <= j ==> ans(j).Granted?
  }

  lemma InsertFreely(s: Index, tag: Tag, key: CacheKey, ans: Oracle, n: nat)
    requires WellFormed(s) && Acceptable(tag) && Ample(ans, n)
    ensures var a := Insert(s, tag, key, ans, n);
            && a.ok && n <= a.asked && a.index.evicted == s.evicted && Holds(a.index.rows, tag)
            && ListOf(a.index, tag) == InsertShape.WithKey(ListOf(s, tag), key)
            && a.index.dropped == s.dropped + if key !in ListOf(s, tag) && |ListOf(s, tag)| == MAX_KEYS_PER_TAG then 1 else 0
  {
    var m, a := Mention(s, tag), Insert(s, tag, key, ans, n);
    MentionKeepsWellFormed(s, tag);
    InsertShape.MentionForemost(s, tag);
    AttemptsUnfold(m, tag, key, ans, n, EVICT_ATTEMPTS);
    InsertShape.InsertHasShape(s, tag, key, ans, n);
    assert m.rows[..|m.rows|] == m.rows;
    InsertShape.RecordedSelf(a.index.rows, m.rows, tag, key);
  }

  lemma NewestAgain(keys: seq<CacheKey>, key: CacheKey)
    requires key !in keys
    ensures InsertShape.WithKey(InsertShape.Newest(keys), key) == InsertShape.Newest(keys + [key])
  {
    if |keys| < MAX_KEYS_PER_TAG {
      InsertShape.NewestOfOneMore(keys, key);
    } else {
      IndexHistory.FullListShifts(keys, key);
      InsertShape.NewestOfOneMore(InsertShape.Newest(keys), key);
    }
  }

  /** `v` is `w` with nothing but `keys` stored, oldest first, under `tag`: the newest are listed, the rest dropped. */
  ghost predicate Filled(w: World, v: World, tag: Tag, keys: seq<CacheKey>) {
    && WellFormed(v.index) && v.flights == map[] && v.jobs == map[] && w.asked <= v.asked
    && ListOf(v.index, tag) == InsertShape.Newest(keys) && (keys != [] ==> Holds(v.index.rows, tag))
    && v.index.evicted == w.index.evicted && v.failures == w.failures
    && v.index.dropped == w.index.dropped + Excess(keys)
    && (forall k :: k in keys ==> k in v.disk && v.disk[k].tags == [tag] && v.disk[k].lost == {})
  }

  lemma PutFills(w: World, u: World, tag: Tag, keys: seq<CacheKey>, key: CacheKey, ans: Oracle)
    requires Filled(w, u, tag, keys) && Acceptable(tag) && Ample(ans, w.asked) && key !in keys
    requires WellFormed(Put(u, key, tag, ans).index)
    ensures Filled(w, Put(u, key, tag, ans), tag, keys + [key])
  {
    PutFreely(u, tag, key, ans);
    NewestAgain(keys, key);
  }

  lemma {:induction false} StoreAllFills(w: World, tag: Tag, keys: seq<CacheKey>, ans: Oracle) returns (v: World)
    requires Blank(w) && Acceptable(tag) && NoDup(keys) && Ample(ans, w.asked)
    ensures v == Run(w, StoreAll(tag, keys), ans)
    ensures Filled(w, v, tag, keys)
    decreases |keys|
  {
    if keys == [] {
      v := w;
    } else {
      var n := |keys| - 1;
      var some, key := keys[..n], keys[n];
      assert keys == some + [key];
      NoDupPrefix(keys, n);
      var u := StoreAllFills(w, tag, some, ans);
      v := StoreIsPut(u, 0, key, tag, ans);
      PutFills(w, u, tag, some, key, ans);
      RunOn(w, StoreAll(tag, some), u, Store(0, key, tag), ans);
    }
  }

  lemma PutFreely(w: World, tag: Tag, key: CacheKey, ans: Oracle)
    requires WellFormed(w.index) && Acceptable(tag) && Ample(ans, w.asked)
    ensures var v := Put(w, key, tag, ans);
            && w.asked <= v.asked && v.failures == w.failures
            && v.index.evicted == w.index.evicted && Holds(v.index.rows, tag)
            && ListOf(v.index, tag) == InsertShape.WithKey(ListOf(w.index, tag), key)
            && v.index.dropped == w.index.dropped +
               if key !in ListOf(w.index, tag) && |ListOf(w.index, tag)| == MAX_KEYS_PER_TAG then 1 else 0
  {
    InsertFreely(w.index, tag, key, ans, w.asked);
  }

  /** Past the cap, the index answers without the oldest keys: exactly those that did not fit. */
  lemma FullTagForgets(w: World, tag: Tag, keys: seq<CacheKey>, i: nat, ans: Oracle)
    requires Blank(w) && Acceptable(tag) && NoDup(keys) && Ample(ans, w.asked) && i < |keys|
    ensures var v := Run(w, StoreAll(tag, keys), ans);
            && (Misleading(v, tag, keys[i]) <==> i + MAX_KEYS_PER_TAG < |keys|)
            && keys[i] in v.disk && v.disk[keys[i]].lost == {} && v.index.evicted == w.index.evicted && v.failures == w.failures
  {
    var v := StoreAllFills(w, tag, keys, ans);
    assert keys[i] in keys;
    NewestLeavesOut(keys, i);
  }

  lemma NewestLeavesOut(keys: seq<CacheKey>, i: nat)
    requires NoDup(keys) && i < |keys|
    ensures keys[i] !in InsertShape.Newest(keys) <==> i + MAX_KEYS_PER_TAG < |keys|
  {
    var list := InsertShape.Newest(keys);
    if i + MAX_KEYS_PER_TAG < |keys| {
      forall j | 0 <= j < |list| ensures list[j] != keys[i] { NoDupAt(keys, i, |keys| - MAX_KEYS_PER_TAG + j); }
    } else {
      assert list[i - (|keys| - |list|)] == keys[i];
    }
  }

  lemma RestartForgets(w: World, ans: Oracle) returns (v: World)
    requires WellFormed(w.index)
    ensures v == Run(w, [Restart], ans) && Blank(v) && v.index == EMPTY && v.asked == w.asked && v.failures == 0
    ensures v.disk.Keys == w.disk.Keys
    ensures forall k :: k in w.disk ==> v.disk[k] == w.disk[k].(lost := AllOf(w.disk[k].tags))
  {
    v := RunOne(w, Restart, ans);
  }

  /** A restart loses every file: served once since, a tag is present but incomplete, and all counters are clean. */
  lemma ServedAfterRestart(w: World, a: Tag, k1: CacheKey, k2: CacheKey, ans: Oracle)
    requires Blank(w) && Acceptable(a) && k1 != k2 && Eviction.Grants(ans, w.asked) && Eviction.Grants(ans, w.asked + 4)
    ensures var v := Run(w, Store(0, k1, a) + [Restart] + Store(1, k2, a), ans);
            Misleading(v, a, k1) && Answered(v.index, a) == Some([k2]) && v.disk[k1].lost == {a} && Healthy(v)
  {
    PutNew(w, k1, a, ans);
    var w1 := StoreIsPut(w, 0, k1, a, ans);
    var w2 := RestartForgets(w1, ans);
    PutNew(w2, k2, a, ans);
    var w3 := StoreIsPut(w2, 1, k2, a, ans);
    assert AllOf([a]) == {a};
    RunOn(w, Store(0, k1, a), w1, [Restart], ans);
    RunOn(w, Store(0, k1, a) + [Restart], w2, Store(1, k2, a), ans);
  }

  /** The purge that gets in between: it takes the one key, and finds no file for it yet. */
  function Overtake(a: Tag): seq<Step> {
    [StartPurge(0, a, true), PurgeKey(0), Commit(0)]
  }

  lemma OvertakeIsThreeSteps(w: World, a: Tag, ans: Oracle) returns (w2: World, w3: World, w4: World)
    requires WellFormed(w.index)
    ensures w2 == Next(w, StartPurge(0, a, true), ans) == Run(w, [StartPurge(0, a, true)], ans) && WellFormed(w2.index)
    ensures w3 == Next(w2, PurgeKey(0), ans) && WellFormed(w3.index)
    ensures w4 == Next(w3, Commit(0), ans) == Run(w, Overtake(a), ans) && WellFormed(w4.index)
  {
    assert Overtake(a) == [StartPurge(0, a, true)] + ([PurgeKey(0)] + [Commit(0)]);
    w2 := RunStep(w, StartPurge(0, a, true), [PurgeKey(0)] + [Commit(0)], ans);
    var same := RunOne(w, StartPurge(0, a, true), ans);
    w3 := RunStep(w2, PurgeKey(0), [Commit(0)], ans);
    w4 := RunOne(w3, Commit(0), ans);
  }

  lemma FlightOvertaken(w: World, a: Tag, k1: CacheKey, since: nat, taken: nat, ans: Oracle)
    requires WellFormed(w.index) && w.index.rows == [] && since < taken
    requires w.jobs == map[0 := OnKeys(a, [k1], taken)] && w.flights == map[0 := Flight(k1, [a], since, {})]
    ensures var v := Next(w, PurgeKey(0), ans);
            && v.jobs == map[0 := OnKeys(a, [], taken)] && v.flights == map[0 := Flight(k1, [a], since, {a})]
            && v.disk == w.disk - {k1} && v.index == w.index && v.clock == w.clock + 1
            && v.asked == w.asked && v.failures == w.failures
  {
    var none: seq<CacheKey> := [k1][1..];
    assert none == [] && a in [a];
    var u := w.(clock := w.clock + 1, disk := w.disk - {k1}, jobs := w.jobs[0 := OnKeys(a, none, taken)]);
    assert !Reachable(u, a, k1, since);
    var lost := {} + {a};
    assert lost == {a};
    var flights := Overtaken(u, k1, a, taken);
    assert flights.Keys == {0} && flights[0] == Flight(k1, [a], since, lost);
  }

  lemma LostFlightLands(w: World, a: Tag, k1: CacheKey, since: nat, taken: nat, ans: Oracle)
    requires WellFormed(w.index) && w.index.rows == []
    requires w.jobs == map[0 := OnKeys(a, [], taken)] && w.flights == map[0 := Flight(k1, [a], since, {a})]
    ensures var v := Next(w, Commit(0), ans);
            && v.disk == w.disk[k1 := File([a], w.clock, {a})] && v.flights == map[]
            && v.index == w.index && v.jobs == w.jobs && v.asked == w.asked && v.failures == w.failures
  {
    var c, f := w.(clock := w.clock + 1), w.flights[0];
    assert !Reachable(c, a, k1, EVER);
    var lost := Landed(c, f, w.clock).lost;
    assert lost == {a};
    assert w.flights - {0} == map[];
  }

  lemma BackAgain(disk: map<CacheKey, File>, key: CacheKey, file: File)
    ensures (disk - {key})[key := file] == disk[key := file]
  {
  }

  lemma PurgeOvertakes(w: World, a: Tag, k1: CacheKey, since: nat, ans: Oracle) returns (v: World)
    requires WellFormed(w.index) && Acceptable(a) && w.jobs == map[] && since < w.clock
    requires w.flights == map[0 := Flight(k1, [a], since, {})]
    requires Answered(w.index, a) == Some([k1]) && |w.index.rows| == 1
    ensures v == Run(w, Overtake(a), ans) && WellFormed(v.index)
    ensures v.index.rows == [] && v.disk == w.disk[k1 := File([a], w.clock + 2, {a})]
    ensures v.flights == map[] && v.jobs == map[0 := OnKeys(a, [], w.clock)]
    ensures v.failures == w.failures && v.asked == w.asked
    ensures v.index.evicted == w.index.evicted && v.index.dropped == w.index.dropped
  {
    var w2, w3;
    w2, w3, v := OvertakeIsThreeSteps(w, a, ans);
    var taken := TakeTheOnly(w, a, k1, ans);
    FlightOvertaken(w2, a, k1, since, w.clock, ans);
    LostFlightLands(w3, a, k1, since, w.clock, ans);
    BackAgain(w.disk, k1, File([a], w.clock + 2, {a}));
  }

  /** Purged between recording and commit: the file appears after its key was taken away. */
  lemma PurgedInFlight(w: World, a: Tag, k1: CacheKey, k2: CacheKey, ans: Oracle)
    requires Blank(w) && Acceptable(a) && k1 != k2 && Eviction.Grants(ans, w.asked) && Eviction.Grants(ans, w.asked + 4)
    ensures var v := Run(w, [Record(0, k1, [a])] + Overtake(a) + Store(1, k2, a), ans);
            && Misleading(v, a, k1) && Answered(v.index, a) == Some([k2]) && v.disk[k1].lost == {a}
            && v.index.evicted == w.index.evicted && v.index.dropped == w.index.dropped && v.failures == w.failures
  {
    var record := [Record(0, k1, [a])];
    var w1 := RecordNew(w, 0, k1, a, ans);
    var w2 := PurgeOvertakes(w1, a, k1, w.clock, ans);
    PutNew(w2, k2, a, ans);
    var w3 := StoreIsPut(w2, 1, k2, a, ans);
    RunOn(w, record, w1, Overtake(a), ans);
    RunOn(w, record + Overtake(a), w2, Store(1, k2, a), ans);
  }

  lemma RecordNew(w: World, id: nat, key: CacheKey, tag: Tag, ans: Oracle) returns (v: World)
    requires Blank(w) && Acceptable(tag) && Eviction.Grants(ans, w.asked)
    ensures v == Run(w, [Record(id, key, [tag])], ans) && WellFormed(v.index)
    ensures v.jobs == map[] && v.failures == w.failures && v.asked == w.asked + 4 && v.clock == w.clock + 1
    ensures v.flights == map[id := Flight(key, [tag], w.clock, {})]
    ensures v.index.evicted == w.index.evicted && v.index.dropped == w.index.dropped
    ensures |v.index.rows| == 1 && Answered(v.index, tag) == Some([key])
  {
    v := RunOne(w, Record(id, key, [tag]), ans);
    Eviction.InsertNew(w.index, tag, key, ans, w.asked);
    RecordOne(w, id, key, tag, ans);
  }
}
