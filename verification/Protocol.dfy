/**
 Recording, purging and scanning interleaved over one cache. Each step is what one lock, or one file
 operation, makes atomic. Times and `lost` are bookkeeping: no step's effect on the index or on which
 files there are depends on them.
 */
module Protocol {
  import opened Types
  import opened IndexModel
  import IndexHistory
  import Recording

  /** A cache file: its tags, when it was committed, and those of its tags no purge would find it by. */
  datatype File = File(tags: seq<Tag>, born: nat, lost: set<Tag>)

  /** A response recorded, at `since`, but not yet committed. */
  datatype Flight = Flight(key: CacheKey, tags: seq<Tag>, since: nat, lost: set<Tag>)

  /** A purge at work: on the keys the index gave it when they were taken, or on files yet to be met by its walk. */
  datatype Job = OnKeys(tag: Tag, keys: seq<CacheKey>, taken: nat) | OnFiles(tag: Tag, files: set<CacheKey>)

  /** `failures` counts the inserts of tags of acceptable length refused since the index was set up. */
  datatype World = World(
    index: Index,
    asked: nat,
    disk: map<CacheKey, File>,
    flights: map<nat, Flight>,
    jobs: map<nat, Job>,
    clock: nat,
    failures: nat)

  const START: World := World(EMPTY, 0, map[], map[], map[], 0, 0)

  /** Earlier than any take. */
  const EVER: int := -1

  datatype Step =
    | Record(id: nat, key: CacheKey, tags: seq<Tag>)   // the header filter
    | Commit(id: nat)                                  // NGINX makes the entry visible
    | Abort(id: nat)                                   // the transfer fails
    | StartPurge(id: nat, tag: Tag, fallback: bool)    // take, under the index's lock
    | PurgeKey(id: nat)                                // one taken key, with the lock released
    | VisitFile(id: nat, key: CacheKey)                // one file met by a walk
    | Forget(key: CacheKey)                            // NGINX drops an entry
    | Restart                                          // shared memory is lost, the disk is not

  /** A purge of `tag`, its keys taken after `since`, has yet to reach `key`. */
  predicate Holding(job: Job, tag: Tag, key: CacheKey, since: int) {
    job.OnKeys? && job.tag == tag && key in job.keys && since < job.taken
  }

  /** `key` waits in a purge of `tag`, taken after `since`, that has not reached it. */
  predicate Waiting(w: World, tag: Tag, key: CacheKey, since: int) {
    exists id :: id in w.jobs && Holding(w.jobs[id], tag, key, since)
  }

  /** A purge of `tag` has, or if started now would be given, `key`. */
  predicate Reachable(w: World, tag: Tag, key: CacheKey, since: int) {
    key in ListOf(w.index, tag) || Waiting(w, tag, key, since)
  }

  function AllOf(tags: seq<Tag>): set<Tag> {
    set t | t in tags
  }

  function StillLost(s: Index, key: CacheKey, lost: set<Tag>): set<Tag> {
    set t | t in lost && key !in ListOf(s, t)
  }

  /** Once `key` is listed under a tag, no file or flight of that key is lost to the tag. */
  function Relisted(w: World, key: CacheKey): World {
    w.(disk := if key !in w.disk then w.disk
               else w.disk[key := w.disk[key].(lost := StillLost(w.index, key, w.disk[key].lost))],
       flights := map id | id in w.flights ::
         var f := w.flights[id];
         if f.key == key then f.(lost := StillLost(w.index, key, f.lost)) else f)
  }

  /** A purge of `tag` has passed `key`: flights recorded before its take are lost to it, unless listed again since. */
  function Overtaken(w: World, key: CacheKey, tag: Tag, taken: nat): map<nat, Flight> {
    map id | id in w.flights ::
      var f := w.flights[id];
      if f.key == key && tag in f.tags && f.since < taken && !Reachable(w, tag, key, f.since)
      then f.(lost := f.lost + {tag}) else f
  }

  function Insertions(w: World, tags: seq<Tag>, key: CacheKey, ans: Oracle): World
    requires WellFormed(w.index)
  {
    var b := Recording.InsertAll(w.index, tags, key, ans, w.asked);
    Relisted(w.(index := b.index, asked := b.asked, failures := w.failures + b.failures), key)
  }

  /** The file a flight becomes. */
  function Landed(w: World, f: Flight, now: nat): File {
    File(f.tags, now, set t | t in f.lost && !Reachable(w, t, f.key, EVER))
  }

  /** One step; a step that is not possible changes nothing but the time. */
  function Next(before: World, step: Step, ans: Oracle): World
    requires WellFormed(before.index)
  {
    var w := before.(clock := before.clock + 1);
    match step
    case Record(id, key, tags) =>
      if id in w.flights then w
      else
        var v := Insertions(w, tags, key, ans);
        v.(flights := v.flights[id := Flight(key, tags, before.clock, {})])
    case Commit(id) =>
      if id !in w.flights then w
      else
        var f := w.flights[id];
        w.(flights := w.flights - {id}, disk := w.disk[f.key := Landed(w, f, before.clock)])
    case Abort(id) => w.(flights := w.flights - {id})
    case StartPurge(id, tag, fallback) =>
      if id in w.jobs || !Acceptable(tag) then w
      else
        var answer := Answered(w.index, tag);
        if answer.Some? then
          w.(index := Take(w.index, tag), jobs := w.jobs[id := OnKeys(tag, answer.value, before.clock)])
        else if fallback then w.(jobs := w.jobs[id := OnFiles(tag, w.disk.Keys)])
        else w
    case PurgeKey(id) =>
      if id !in w.jobs || !w.jobs[id].OnKeys? || w.jobs[id].keys == [] then w
      else
        var job := w.jobs[id];
        var v := w.(disk := w.disk - {job.keys[0]}, jobs := w.jobs[id := job.(keys := job.keys[1..])]);
        v.(flights := Overtaken(v, job.keys[0], job.tag, job.taken))
    case VisitFile(id, key) =>
      if id !in w.jobs || !w.jobs[id].OnFiles? then w
      else
        var job := w.jobs[id];
        var v := w.(jobs := w.jobs[id := OnFiles(job.tag, job.files - {key})]);
        if key !in v.disk then v
        else if job.tag in v.disk[key].tags then v.(disk := v.disk - {key})
        else Insertions(v, v.disk[key].tags, key, ans)
    case Forget(key) => w.(disk := w.disk - {key})
    case Restart =>
      var disk := map key | key in w.disk :: w.disk[key].(lost := AllOf(w.disk[key].tags));
      World(EMPTY, w.asked, disk, map[], map[], w.clock, 0)
  }

  lemma NextKeepsWellFormed(w: World, step: Step, ans: Oracle)
    requires WellFormed(w.index)
    ensures WellFormed(Next(w, step, ans).index)
  {
    match step
    case Record(id, key, tags) => Recording.InsertAllKeepsWellFormed(w.index, tags, key, ans, w.asked);
    case StartPurge(id, tag, fallback) => TakeKeepsWellFormed(w.index, tag);
    case VisitFile(id, key) =>
      if key in w.disk { Recording.InsertAllKeepsWellFormed(w.index, w.disk[key].tags, key, ans, w.asked); }
    case _ =>
  }

  /** The index tracks its history through every step, a restart beginning a new one. */
  lemma NextTracks(w: World, step: Step, ans: Oracle)
    requires IndexHistory.Tracks(w.index)
    ensures IndexHistory.Tracks(Next(w, step, ans).index)
  {
    match step
    case Record(id, key, tags) => Recording.InsertAllTracks(w.index, tags, key, ans, w.asked);
    case StartPurge(id, tag, fallback) => IndexHistory.TakeTracks(w.index, tag);
    case VisitFile(id, key) =>
      if key in w.disk { Recording.InsertAllTracks(w.index, w.disk[key].tags, key, ans, w.asked); }
    case _ =>
  }

  function Run(w: World, steps: seq<Step>, ans: Oracle): World
    requires WellFormed(w.index)
    decreases steps
  {
    if steps == [] then w
    else
      NextKeepsWellFormed(w, steps[0], ans);
      Run(Next(w, steps[0], ans), steps[1..], ans)
  }

  lemma {:induction false} RunTracks(w: World, steps: seq<Step>, ans: Oracle)
    requires IndexHistory.Tracks(w.index)
    ensures IndexHistory.Tracks(Run(w, steps, ans).index)
    decreases steps
  {
    if steps != [] {
      NextTracks(w, steps[0], ans);
      RunTracks(Next(w, steps[0], ans), steps[1..], ans);
    }
  }

  // ----- times -----

  /** Files and flights are older than now. */
  ghost predicate Dated(w: World) {
    && (forall key :: key in w.disk ==> w.disk[key].born < w.clock)
    && (forall id :: id in w.flights ==> w.flights[id].since < w.clock)
  }

  lemma ClockTicks(w: World, step: Step, ans: Oracle)
    requires WellFormed(w.index)
    ensures Next(w, step, ans).clock == w.clock + 1
  {
  }

  /** Where a file or a flight after a step came from. */
  lemma NextFiles(w: World, step: Step, ans: Oracle, key: CacheKey)
    requires WellFormed(w.index)
    ensures var v := Next(w, step, ans);
            key in v.disk ==>
              || v.disk[key].born == w.clock
              || (key in w.disk && v.disk[key].tags == w.disk[key].tags && v.disk[key].born == w.disk[key].born
                  && (!step.Restart? ==> v.disk[key].lost <= w.disk[key].lost))
  {
  }

  lemma NextFlights(w: World, step: Step, ans: Oracle, id: nat)
    requires WellFormed(w.index)
    ensures var v := Next(w, step, ans);
            id in v.flights ==> v.flights[id].since == w.clock || (id in w.flights && v.flights[id].since == w.flights[id].since)
  {
  }

  lemma NextIsDated(w: World, step: Step, ans: Oracle)
    requires WellFormed(w.index) && Dated(w)
    ensures Dated(Next(w, step, ans))
  {
    ClockTicks(w, step, ans);
    forall key | key in Next(w, step, ans).disk ensures Next(w, step, ans).disk[key].born < w.clock + 1 {
      NextFiles(w, step, ans, key);
    }
    forall id | id in Next(w, step, ans).flights ensures Next(w, step, ans).flights[id].since < w.clock + 1 {
      NextFlights(w, step, ans, id);
    }
  }

  // ----- coverage -----

  ghost predicate FileCovered(w: World, key: CacheKey, tag: Tag) {
    key in w.disk && tag in w.disk[key].tags && Acceptable(tag) ==>
      (tag in w.disk[key].lost <==> !Reachable(w, tag, key, EVER))
  }

  ghost predicate FlightCovered(w: World, id: nat, tag: Tag) {
    id in w.flights && tag in w.flights[id].tags && Acceptable(tag) ==>
      (tag in w.flights[id].lost <==> !Reachable(w, tag, w.flights[id].key, w.flights[id].since))
  }

  /** Every file and every flight is reachable through exactly those acceptable tags of it that it has not lost. */
  ghost predicate Covered(w: World) {
    && (forall key, tag :: FileCovered(w, key, tag))
    && (forall id, tag :: FlightCovered(w, id, tag))
  }

  /** No insert of a tag of acceptable length has failed, and the index has discarded nothing. */
  predicate Healthy(w: World) {
    w.index.evicted == 0 && w.index.dropped == 0 && w.failures == 0
  }

  lemma HealthIsNeverRegained(w: World, step: Step, ans: Oracle)
    requires WellFormed(w.index) && !step.Restart? && Healthy(Next(w, step, ans))
    ensures Healthy(w)
  {
    match step
    case Record(id, key, tags) => Recording.InsertAllOnlyAdvances(w.index, tags, key, ans, w.asked);
    case VisitFile(id, key) =>
      if key in w.disk { Recording.InsertAllOnlyAdvances(w.index, w.disk[key].tags, key, ans, w.asked); }
    case _ =>
  }

  /** A healthy batch of inserts makes the key reachable under each of its tags, and nothing else. */
  lemma InsertionsReach(w: World, tags: seq<Tag>, key: CacheKey, ans: Oracle, t: Tag, k: CacheKey, since: int)
    requires WellFormed(w.index) && Healthy(w) && Healthy(Insertions(w, tags, key, ans))
    ensures var v := Insertions(w, tags, key, ans);
            && (k in ListOf(v.index, t) <==> k in ListOf(w.index, t) || (k == key && t in tags && Acceptable(t)))
            && (Waiting(v, t, k, since) <==> Waiting(w, t, k, since))
  {
    Recording.QuietInsertAll(w.index, tags, key, ans, w.asked, t, k);
    assert Insertions(w, tags, key, ans).jobs == w.jobs;
  }

  lemma InsertionsCover(w: World, tags: seq<Tag>, key: CacheKey, ans: Oracle)
    requires WellFormed(w.index) && Covered(w) && Healthy(w) && Healthy(Insertions(w, tags, key, ans))
    ensures Covered(Insertions(w, tags, key, ans))
  {
    var v := Insertions(w, tags, key, ans);
    forall k, t ensures FileCovered(v, k, t) {
      assert FileCovered(w, k, t);
      InsertionsReach(w, tags, key, ans, t, k, EVER);
    }
    forall id, t ensures FlightCovered(v, id, t) {
      assert FlightCovered(w, id, t);
      if id in w.flights { InsertionsReach(w, tags, key, ans, t, w.flights[id].key, w.flights[id].since); }
    }
  }

  lemma SameReach(w: World, v: World)
    requires v.index == w.index && v.jobs == w.jobs
    ensures forall t, k, since :: Reachable(v, t, k, since) <==> Reachable(w, t, k, since)
  {
  }

  /** Changes that leave index and jobs, and each remaining file and flight, alone. */
  lemma LessIsCovered(w: World, v: World)
    requires Covered(w) && v.index == w.index && v.jobs == w.jobs
    requires forall key :: key in v.disk ==> key in w.disk && v.disk[key] == w.disk[key]
    requires forall id :: id in v.flights ==> id in w.flights && v.flights[id] == w.flights[id]
    ensures Covered(v)
  {
    SameReach(w, v);
    forall k, t ensures FileCovered(v, k, t) { assert FileCovered(w, k, t); }
    forall id, t ensures FlightCovered(v, id, t) { assert FlightCovered(w, id, t); }
  }

  lemma RecordCovers(w: World, id: nat, key: CacheKey, tags: seq<Tag>, ans: Oracle)
    requires WellFormed(w.index) && Covered(w) && Healthy(w) && Healthy(Next(w, Record(id, key, tags), ans))
    ensures Covered(Next(w, Record(id, key, tags), ans))
  {
    var v, c := Next(w, Record(id, key, tags), ans), w.(clock := w.clock + 1);
    LessIsCovered(w, c);
    if id !in w.flights {
      InsertionsCover(c, tags, key, ans);
      var i := Insertions(c, tags, key, ans);
      SameReach(i, v);
      forall k, t ensures FileCovered(v, k, t) { assert FileCovered(i, k, t); }
      forall j, t ensures FlightCovered(v, j, t) {
        assert FlightCovered(i, j, t);
        InsertionsReach(c, tags, key, ans, t, key, w.clock);
      }
    }
  }

  lemma CommitCovers(w: World, id: nat, ans: Oracle)
    requires WellFormed(w.index) && Covered(w)
    ensures Covered(Next(w, Commit(id), ans))
  {
    var v, c := Next(w, Commit(id), ans), w.(clock := w.clock + 1);
    SameReach(w, v);
    SameReach(w, c);
    forall k, t ensures FileCovered(v, k, t) {
      assert FileCovered(w, k, t) && FlightCovered(w, id, t);
    }
    forall j, t ensures FlightCovered(v, j, t) { assert FlightCovered(w, j, t); }
  }

  /** Jobs that only grew by one. */
  lemma OneMoreJob(w: World, v: World, id: nat, t: Tag, k: CacheKey, since: int)
    requires id !in w.jobs && id in v.jobs && v.jobs == w.jobs[id := v.jobs[id]]
    ensures Waiting(v, t, k, since) <==>
            || Waiting(w, t, k, since)
            || (Holding(v.jobs[id], t, k, since))
  {
    if Waiting(w, t, k, since) {
      var j :| j in w.jobs && Holding(w.jobs[j], t, k, since);
      assert v.jobs[j] == w.jobs[j];
    }
  }

  lemma TakeLists(s: Index, tag: Tag, t: Tag)
    requires WellFormed(s) && Holds(s.rows, tag)
    ensures ListOf(Take(s, tag), t) == if t == tag then [] else ListOf(s, t)
  {
    FindAfterRemove(s.rows, Find(s.rows, tag), t);
  }

  lemma StartReaches(w: World, id: nat, tag: Tag, fallback: bool, ans: Oracle, t: Tag, k: CacheKey, since: int)
    requires WellFormed(w.index) && since < w.clock
    ensures Reachable(Next(w, StartPurge(id, tag, fallback), ans), t, k, since) <==> Reachable(w, t, k, since)
  {
    var v := Next(w, StartPurge(id, tag, fallback), ans);
    if id !in w.jobs && Acceptable(tag) {
      if Holds(w.index.rows, tag) {
        TakeLists(w.index, tag, t);
        assert v.jobs[id] == OnKeys(tag, ListOf(w.index, tag), w.clock);
        OneMoreJob(w, v, id, t, k, since);
      } else if fallback {
        OneMoreJob(w, v, id, t, k, since);
      }
    }
  }

  lemma StartCovers(w: World, id: nat, tag: Tag, fallback: bool, ans: Oracle)
    requires WellFormed(w.index) && Covered(w) && Dated(w)
    ensures Covered(Next(w, StartPurge(id, tag, fallback), ans))
  {
    var v := Next(w, StartPurge(id, tag, fallback), ans);
    assert v.disk == w.disk && v.flights == w.flights;
    forall k, t ensures FileCovered(v, k, t) {
      assert FileCovered(w, k, t);
      StartReaches(w, id, tag, fallback, ans, t, k, EVER);
    }
    forall j, t ensures FlightCovered(v, j, t) {
      assert FlightCovered(w, j, t);
      if j in w.flights { StartReaches(w, id, tag, fallback, ans, t, w.flights[j].key, w.flights[j].since); }
    }
  }

  /** A purged key stays reachable, if it was, by all but the purge that has now passed it. */
  lemma PurgeKeyReaches(w: World, id: nat, ans: Oracle, t: Tag, k: CacheKey, since: int)
    requires WellFormed(w.index) && id in w.jobs && w.jobs[id].OnKeys? && w.jobs[id].keys != []
    ensures var v, job := Next(w, PurgeKey(id), ans), w.jobs[id];
            && (Reachable(v, t, k, since) ==> Reachable(w, t, k, since))
            && (Reachable(w, t, k, since) && !(k == job.keys[0] && t == job.tag && since < job.taken) ==>
                  Reachable(v, t, k, since))
  {
    var v, job := Next(w, PurgeKey(id), ans), w.jobs[id];
    assert job.keys == [job.keys[0]] + job.keys[1..];
    if Waiting(v, t, k, since) {
      var j :| j in v.jobs && Holding(v.jobs[j], t, k, since);
      assert j in w.jobs && Holding(w.jobs[j], t, k, since);
    }
    if Waiting(w, t, k, since) && !(k == job.keys[0] && t == job.tag && since < job.taken) {
      var j :| j in w.jobs && Holding(w.jobs[j], t, k, since);
      assert j in v.jobs && Holding(v.jobs[j], t, k, since);
    }
  }

  lemma PurgeKeyCovers(w: World, id: nat, ans: Oracle)
    requires WellFormed(w.index) && Covered(w)
    ensures Covered(Next(w, PurgeKey(id), ans))
  {
    var v := Next(w, PurgeKey(id), ans);
    if id in w.jobs && w.jobs[id].OnKeys? && w.jobs[id].keys != [] {
      var job := w.jobs[id];
      var u := w.(clock := w.clock + 1, disk := w.disk - {job.keys[0]}, jobs := w.jobs[id := job.(keys := job.keys[1..])]);
      SameReach(u, v);
      forall k, t ensures FileCovered(v, k, t) {
        assert FileCovered(w, k, t);
        PurgeKeyReaches(w, id, ans, t, k, EVER);
      }
      forall j, t ensures FlightCovered(v, j, t) {
        assert FlightCovered(w, j, t);
        if j in w.flights { PurgeKeyReaches(w, id, ans, t, w.flights[j].key, w.flights[j].since); }
      }
    } else {
      LessIsCovered(w, v);
    }
  }

  lemma VisitCovers(w: World, id: nat, key: CacheKey, ans: Oracle)
    requires WellFormed(w.index) && Covered(w) && Healthy(w) && Healthy(Next(w, VisitFile(id, key), ans))
    ensures Covered(Next(w, VisitFile(id, key), ans))
  {
    var v, c := Next(w, VisitFile(id, key), ans), Walked(w, id, key);
    WalkedCovers(w, id, key);
    if id in w.jobs && w.jobs[id].OnFiles? && key in w.disk && w.jobs[id].tag !in w.disk[key].tags {
      InsertionsCover(c, w.disk[key].tags, key, ans);
    } else {
      LessIsCovered(c, v);
    }
  }

  /** The world in which a walk has crossed `key` off, and done nothing about it yet. */
  function Walked(w: World, id: nat, key: CacheKey): World {
    var c := w.(clock := w.clock + 1);
    if id !in w.jobs || !w.jobs[id].OnFiles? then c
    else c.(jobs := w.jobs[id := OnFiles(w.jobs[id].tag, w.jobs[id].files - {key})])
  }

  lemma WalkedReaches(w: World, id: nat, key: CacheKey, t: Tag, k: CacheKey, since: int)
    ensures Reachable(Walked(w, id, key), t, k, since) <==> Reachable(w, t, k, since)
  {
    var c := Walked(w, id, key);
    assert forall j :: j in w.jobs && w.jobs[j].OnKeys? ==> c.jobs[j] == w.jobs[j];
    assert forall j :: j in c.jobs && c.jobs[j].OnKeys? ==> j in w.jobs && c.jobs[j] == w.jobs[j];
  }

  lemma WalkedCovers(w: World, id: nat, key: CacheKey)
    requires Covered(w)
    ensures Covered(Walked(w, id, key))
  {
    var c := Walked(w, id, key);
    forall k, t ensures FileCovered(c, k, t) {
      assert FileCovered(w, k, t);
      WalkedReaches(w, id, key, t, k, EVER);
    }
    forall j, t ensures FlightCovered(c, j, t) {
      assert FlightCovered(w, j, t);
      if j in w.flights { WalkedReaches(w, id, key, t, w.flights[j].key, w.flights[j].since); }
    }
  }

  /** After a restart nothing is reachable, and everything is lost. */
  lemma RestartCovers(w: World, ans: Oracle)
    requires WellFormed(w.index)
    ensures Covered(Next(w, Restart, ans))
  {
    var v := Next(w, Restart, ans);
    forall t, k, since ensures !Reachable(v, t, k, since) {}
    forall k, t ensures FileCovered(v, k, t) {}
  }

  lemma NextCovers(w: World, step: Step, ans: Oracle)
    requires WellFormed(w.index) && Dated(w)
    requires Healthy(w) ==> Covered(w)
    ensures Healthy(Next(w, step, ans)) ==> Covered(Next(w, step, ans))
  {
    var v := Next(w, step, ans);
    if step.Restart? {
      RestartCovers(w, ans);
    } else if Healthy(v) {
      HealthIsNeverRegained(w, step, ans);
      match step
      case Record(id, key, tags) => RecordCovers(w, id, key, tags, ans);
      case StartPurge(id, tag, fallback) => StartCovers(w, id, tag, fallback, ans);
      case PurgeKey(id) => PurgeKeyCovers(w, id, ans);
      case VisitFile(id, key) => VisitCovers(w, id, key, ans);
      case Commit(id) => CommitCovers(w, id, ans);
      case _ => LessIsCovered(w, v);
    }
  }

  /**
   Coverage over all interleavings. From an empty cache and index, through any steps, as long as the
   counters show nothing evicted, dropped or refused since the index was set up, every file is listed
   under or waiting in a purge of exactly those acceptable tags it has not lost: and a tag is lost only
   by a restart, or by a purge that was taken after the file was recorded and passed before it was
   committed, until the file's key is listed under the tag again.
   */
  lemma {:induction false} HealthyRunsAreCovered(w: World, steps: seq<Step>, ans: Oracle)
    requires WellFormed(w.index) && Dated(w) && (Healthy(w) ==> Covered(w))
    ensures var v := Run(w, steps, ans);
            WellFormed(v.index) && Dated(v) && (Healthy(v) ==> Covered(v))
    decreases steps
  {
    if steps != [] {
      NextKeepsWellFormed(w, steps[0], ans);
      NextIsDated(w, steps[0], ans);
      NextCovers(w, steps[0], ans);
      HealthyRunsAreCovered(Next(w, steps[0], ans), steps[1..], ans);
    }
  }

  /** A file loses a tag only by a restart; it may also be committed with it lost. */
  lemma FileLossHasCause(w: World, step: Step, ans: Oracle, key: CacheKey, t: Tag)
    requires WellFormed(w.index) && key in Next(w, step, ans).disk && t in Next(w, step, ans).disk[key].lost
    ensures || (key in w.disk && t in w.disk[key].lost)
            || step.Restart?
            || (step.Commit? && step.id in w.flights && w.flights[step.id].key == key && t in w.flights[step.id].lost)
  {
  }

  /** A flight loses a tag only when a purge taken since it was recorded passes its key. */
  lemma FlightLossHasCause(w: World, step: Step, ans: Oracle, id: nat, t: Tag)
    requires WellFormed(w.index) && id in Next(w, step, ans).flights && t in Next(w, step, ans).flights[id].lost
    ensures id in w.flights
    ensures || t in w.flights[id].lost
            || (step.PurgeKey? && step.id in w.jobs && w.jobs[step.id].OnKeys? && w.jobs[step.id].tag == t
                && w.jobs[step.id].keys != [] && w.jobs[step.id].keys[0] == w.flights[id].key
                && w.flights[id].since < w.jobs[step.id].taken)
  {
  }

  // ----- what a purge promises -----

  /** Some purge of `tag` has yet to reach `key`. */
  ghost predicate Pending(w: World, tag: Tag, key: CacheKey) {
    || Waiting(w, tag, key, EVER)
    || exists id :: id in w.jobs && w.jobs[id].OnFiles? && w.jobs[id].tag == tag && key in w.jobs[id].files
  }

  /** The file at `key`, if it carries `tag` and is older than `time`, is one some purge of `tag` has yet to reach. */
  ghost predicate Promise(w: World, tag: Tag, key: CacheKey, time: nat) {
    key in w.disk && tag in w.disk[key].tags && w.disk[key].born < time ==> Pending(w, tag, key)
  }

  lemma WaitingStays(w: World, step: Step, ans: Oracle, tag: Tag, key: CacheKey)
    requires WellFormed(w.index) && !step.Restart? && Waiting(w, tag, key, EVER)
    ensures Waiting(Next(w, step, ans), tag, key, EVER) || step.PurgeKey?
    ensures step.PurgeKey? && !Waiting(Next(w, step, ans), tag, key, EVER) ==> key !in Next(w, step, ans).disk
  {
    var v := Next(w, step, ans);
    var j :| j in w.jobs && Holding(w.jobs[j], tag, key, EVER);
    assert w.jobs[j].keys == [w.jobs[j].keys[0]] + w.jobs[j].keys[1..];
    assert j in v.jobs;
    assert v.jobs[j] == if step == PurgeKey(j) then w.jobs[j].(keys := w.jobs[j].keys[1..]) else w.jobs[j];
  }

  lemma PendingStays(w: World, step: Step, ans: Oracle, tag: Tag, key: CacheKey)
    requires WellFormed(w.index) && !step.Restart? && Pending(w, tag, key)
    requires key in w.disk && tag in w.disk[key].tags
    requires key in Next(w, step, ans).disk && Next(w, step, ans).disk[key].born < w.clock
    ensures Pending(Next(w, step, ans), tag, key)
  {
    var v := Next(w, step, ans);
    if Waiting(w, tag, key, EVER) {
      WaitingStays(w, step, ans, tag, key);
    } else {
      var j :| j in w.jobs && w.jobs[j].OnFiles? && w.jobs[j].tag == tag && key in w.jobs[j].files;
      assert j in v.jobs;
      assert v.jobs[j] == if step.VisitFile? && step.id == j then OnFiles(tag, w.jobs[j].files - {step.key}) else w.jobs[j];
    }
  }

  lemma {:induction false} RunKeepsPromise(w: World, steps: seq<Step>, ans: Oracle, tag: Tag, key: CacheKey, time: nat)
    requires WellFormed(w.index) && Restart !in steps && Promise(w, tag, key, time) && time <= w.clock
    ensures Promise(Run(w, steps, ans), tag, key, time)
    decreases steps
  {
    if steps != [] {
      var v := Next(w, steps[0], ans);
      NextKeepsWellFormed(w, steps[0], ans);
      NextFiles(w, steps[0], ans, key);
      if key in v.disk && tag in v.disk[key].tags && v.disk[key].born < time { PendingStays(w, steps[0], ans, tag, key); }
      ClockTicks(w, steps[0], ans);
      RunKeepsPromise(v, steps[1..], ans, tag, key, time);
    }
  }

  /**
   A purge started anywhere, in any interleaving, deals with each single file committed before it that
   is listed under its tag or already pending, and with every such file if a scan answers it: once no
   purge of the tag is left to reach that file, it is gone, or was committed since. What becomes of the
   other files, and of the index, does not matter.
   */
  lemma PurgeKeepsItsPromise(w: World, id: nat, tag: Tag, fallback: bool, key: CacheKey, after: seq<Step>, ans: Oracle)
    requires WellFormed(w.index) && id !in w.jobs && Acceptable(tag) && Restart !in after
    requires (fallback && !Holds(w.index.rows, tag)) || key in ListOf(w.index, tag) || Pending(w, tag, key)
    ensures WellFormed(Next(w, StartPurge(id, tag, fallback), ans).index)
    ensures var v := Run(Next(w, StartPurge(id, tag, fallback), ans), after, ans);
            !Pending(v, tag, key) && key in v.disk && tag in v.disk[key].tags ==> v.disk[key].born >= w.clock
  {
    var s := Next(w, StartPurge(id, tag, fallback), ans);
    NextKeepsWellFormed(w, StartPurge(id, tag, fallback), ans);
    if key in s.disk && tag in s.disk[key].tags && s.disk[key].born < w.clock {
      if Pending(w, tag, key) {
        PendingStays(w, StartPurge(id, tag, fallback), ans, tag, key);
      } else if Holds(w.index.rows, tag) {
        assert s.jobs[id] == OnKeys(tag, ListOf(w.index, tag), w.clock);
      } else {
        assert s.jobs[id] == OnFiles(tag, w.disk.Keys);
      }
    }
    RunKeepsPromise(s, after, ans, tag, key, w.clock);
  }

  /**
   From an empty cache and index, through any steps, restarts included, while the counters are clean: a
   purge leaves of the files stored before it only those that had lost its tag when it began, and none
   at all if a scan answered it. Each file is judged by itself, whatever became of others, and whatever
   happens meanwhile.
   */
  lemma HealthyPurgeMissesOnlyTheLost(before: seq<Step>, id: nat, tag: Tag, fallback: bool, key: CacheKey,
                                      after: seq<Step>, ans: Oracle)
    requires Restart !in after && Acceptable(tag)
    requires Healthy(Run(START, before, ans)) && id !in Run(START, before, ans).jobs
    ensures var w := Run(START, before, ans);
            && WellFormed(w.index) && WellFormed(Next(w, StartPurge(id, tag, fallback), ans).index)
            && var v := Run(Next(w, StartPurge(id, tag, fallback), ans), after, ans);
               !Pending(v, tag, key) && key in v.disk && tag in v.disk[key].tags && v.disk[key].born < w.clock ==>
                 && key in w.disk && tag in w.disk[key].lost
                 && !(fallback && !Holds(w.index.rows, tag))
  {
    HealthyRunsAreCovered(START, before, ans);
    var w := Run(START, before, ans);
    var start := StartPurge(id, tag, fallback);
    NextKeepsWellFormed(w, start, ans);
    assert FileCovered(w, key, tag);
    if (fallback && !Holds(w.index.rows, tag)) || Reachable(w, tag, key, EVER) {
      PurgeKeepsItsPromise(w, id, tag, fallback, key, after, ans);
    } else {
      StillThere(Next(w, start, ans), after, ans, key, w.clock);
    }
  }

  /** A file older than a run's start was there at its start, with the same tags. */
  lemma {:induction false} StillThere(w: World, steps: seq<Step>, ans: Oracle, key: CacheKey, time: nat)
    requires WellFormed(w.index) && time <= w.clock
    ensures var v := Run(w, steps, ans);
            key in v.disk && v.disk[key].born < time ==>
              key in w.disk && v.disk[key].tags == w.disk[key].tags && v.disk[key].born == w.disk[key].born
    decreases steps
  {
    if steps != [] {
      NextKeepsWellFormed(w, steps[0], ans);
      NextFiles(w, steps[0], ans, key);
      ClockTicks(w, steps[0], ans);
      StillThere(Next(w, steps[0], ans), steps[1..], ans, key, time);
    }
  }

  // ----- what a scan restores -----

  /** No file committed before `time` that the walk `id` has left behind has lost an acceptable tag. */
  ghost predicate Restored(w: World, id: nat, time: nat) {
    && id in w.jobs && w.jobs[id].OnFiles?
    && forall key :: key in w.disk && w.disk[key].born < time && key !in w.jobs[id].files ==> Unlost(w.disk[key])
  }

  ghost predicate Unlost(f: File) {
    forall t :: t in f.lost && t in f.tags ==> !Acceptable(t)
  }

  /** A file visited without trouble loses nothing any more. */
  lemma VisitRestores(w: World, id: nat, key: CacheKey, ans: Oracle)
    requires WellFormed(w.index) && Healthy(w) && Healthy(Next(w, VisitFile(id, key), ans))
    requires id in w.jobs && w.jobs[id].OnFiles? && key in w.disk && w.jobs[id].tag !in w.disk[key].tags
    ensures var v := Next(w, VisitFile(id, key), ans); key in v.disk && Unlost(v.disk[key])
  {
    var c := Walked(w, id, key);
    forall t | t in w.disk[key].tags && Acceptable(t)
      ensures key in ListOf(Insertions(c, w.disk[key].tags, key, ans).index, t)
    {
      InsertionsReach(c, w.disk[key].tags, key, ans, t, key, EVER);
    }
  }

  lemma NextKeepsRestored(w: World, step: Step, ans: Oracle, id: nat, time: nat)
    requires WellFormed(w.index) && !step.Restart? && Restored(w, id, time) && time <= w.clock
    requires Healthy(w) && Healthy(Next(w, step, ans))
    ensures Restored(Next(w, step, ans), id, time)
  {
    var v := Next(w, step, ans);
    assert id in v.jobs && v.jobs[id].OnFiles?;
    assert v.jobs[id].files == if step.VisitFile? && step.id == id then w.jobs[id].files - {step.key} else w.jobs[id].files;
    forall key | key in v.disk && v.disk[key].born < time && key !in v.jobs[id].files ensures Unlost(v.disk[key]) {
      NextFiles(w, step, ans, key);
      if key in w.jobs[id].files { VisitRestores(w, id, key, ans); }
    }
  }

  lemma {:induction false} RunKeepsRestored(w: World, steps: seq<Step>, ans: Oracle, id: nat, time: nat)
    requires WellFormed(w.index) && Restart !in steps && time <= w.clock
    requires Restored(w, id, time)
    ensures Healthy(Run(w, steps, ans)) ==> Healthy(w) && Restored(Run(w, steps, ans), id, time)
    decreases steps
  {
    if steps != [] {
      var v := Next(w, steps[0], ans);
      NextKeepsWellFormed(w, steps[0], ans);
      ClockTicks(w, steps[0], ans);
      if Healthy(v) { HealthIsNeverRegained(w, steps[0], ans); }
      if Healthy(v) {
        NextKeepsRestored(w, steps[0], ans, id, time);
        RunKeepsRestored(v, steps[1..], ans, id, time);
      } else {
        NeverHealthyAgain(v, steps[1..], ans);
      }
    }
  }

  lemma {:induction false} NeverHealthyAgain(w: World, steps: seq<Step>, ans: Oracle)
    requires WellFormed(w.index) && Restart !in steps && !Healthy(w)
    ensures !Healthy(Run(w, steps, ans))
    decreases steps
  {
    if steps != [] {
      NextKeepsWellFormed(w, steps[0], ans);
      if Healthy(Next(w, steps[0], ans)) { HealthIsNeverRegained(w, steps[0], ans); }
      NeverHealthyAgain(Next(w, steps[0], ans), steps[1..], ans);
    }
  }

  /**
   One scan restores coverage under any interleaving. From an empty cache and index, through any steps,
   restarts included: once a walk has met all its files and the counters are still clean, every file
   committed before the walk began is reachable through each acceptable tag it carries.
   */
  lemma WalkRestoresCoverage(before: seq<Step>, id: nat, tag: Tag, after: seq<Step>, ans: Oracle)
    requires Restart !in after && Acceptable(tag)
    requires var w := Run(START, before, ans); id !in w.jobs && !Holds(w.index.rows, tag)
    ensures var w := Run(START, before, ans);
            && WellFormed(w.index) && WellFormed(Next(w, StartPurge(id, tag, true), ans).index)
            && var v := Run(Next(w, StartPurge(id, tag, true), ans), after, ans);
               Healthy(v) ==>
                 && id in v.jobs && v.jobs[id].OnFiles?
                 && forall key, t :: key in v.disk && v.disk[key].born < w.clock && key !in v.jobs[id].files ==>
                      t in v.disk[key].tags && Acceptable(t) ==> Reachable(v, t, key, EVER)
  {
    HealthyRunsAreCovered(START, before, ans);
    var w := Run(START, before, ans);
    var s := Next(w, StartPurge(id, tag, true), ans);
    NextKeepsWellFormed(w, StartPurge(id, tag, true), ans);
    NextIsDated(w, StartPurge(id, tag, true), ans);
    NextCovers(w, StartPurge(id, tag, true), ans);
    HealthyRunsAreCovered(s, after, ans);
    RunKeepsRestored(s, after, ans, id, w.clock);
    var v := Run(s, after, ans);
    if Healthy(v) {
      forall key, t | key in v.disk && v.disk[key].born < w.clock && key !in v.jobs[id].files
                      && t in v.disk[key].tags && Acceptable(t)
        ensures Reachable(v, t, key, EVER)
      {
        assert FileCovered(v, key, t);
      }
    }
  }
}
