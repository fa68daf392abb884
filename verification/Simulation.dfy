/**
 The steps of the protocol are what the file-level model does: each visit, take, purge of a key,
 recording and commit of `Scanning`, `Purging` and `Recording` is one step of a world depicting it.
 Here is where the tags recorded and the tags scanned must agree, and so where form feeds matter.
 */
module Simulation {
  import opened Types
  import opened IndexModel
  import opened Protocol
  import Headers
  import Hex
  import Misses
  import Purging
  import Recording
  import Scanning
  import Tags

  /** A world's disk holds, for each file of some path that a scan would recognise, that file's key and tags. */
  ghost predicate Depicts(disk: map<CacheKey, File>, files: Scanning.Files, dirOf: CacheKey -> Bytes, header: Bytes) {
    && Purging.WellNamed(files, dirOf)
    && forall key :: DepictsAt(disk, files, dirOf, header, key)
  }

  ghost predicate DepictsAt(disk: map<CacheKey, File>, files: Scanning.Files, dirOf: CacheKey -> Bytes,
                            header: Bytes, key: CacheKey) {
    var path := Scanning.PathOf(dirOf, key);
    var found := Scanning.Recognise(path, Scanning.ContentOf(files, path), header);
    (key in disk <==> found.Some?) && (found.Some? ==> disk[key].tags == found.value.tags)
  }

  ghost predicate Stands(w: World, g: Scanning.Progress, dirOf: CacheKey -> Bytes, header: Bytes) {
    WellFormed(w.index) && w.index == g.index && w.asked == g.asked && g.stuck == {} && Depicts(w.disk, g.files, dirOf, header)
  }

  /** The same files with `path` gone, and the same disk without its key. */
  lemma OneFileLess(disk: map<CacheKey, File>, files: Scanning.Files, dirOf: CacheKey -> Bytes, header: Bytes,
                    key: CacheKey)
    requires Depicts(disk, files, dirOf, header)
    ensures Depicts(disk - {key}, files - {Scanning.PathOf(dirOf, key)}, dirOf, header)
  {
    var rest := files - {Scanning.PathOf(dirOf, key)};
    forall k ensures DepictsAt(disk - {key}, rest, dirOf, header, k) {
      assert DepictsAt(disk, files, dirOf, header, k);
      Scanning.PathsDiffer(dirOf, k, key);
    }
  }

  /** Bookkeeping aside, the same disk depicts the same files. */
  lemma SameTags(disk: map<CacheKey, File>, other: map<CacheKey, File>, files: Scanning.Files, dirOf: CacheKey -> Bytes,
                 header: Bytes)
    requires Depicts(disk, files, dirOf, header) && other.Keys == disk.Keys
    requires forall key :: key in disk ==> other[key].tags == disk[key].tags
    ensures Depicts(other, files, dirOf, header)
  {
    forall k ensures DepictsAt(other, files, dirOf, header, k) { assert DepictsAt(disk, files, dirOf, header, k); }
  }

  /** What a scan makes of a well-named file, it makes of the file its key's path leads to. */
  lemma FoundWherePlaced(files: Scanning.Files, dirOf: CacheKey -> Bytes, header: Bytes, path: Scanning.Path)
    requires Purging.WellNamed(files, dirOf)
    ensures var found := Scanning.Recognise(path, Scanning.ContentOf(files, path), header);
            found.Some? ==> path in files && path == Scanning.PathOf(dirOf, found.value.key)
  {
  }

  /** Visiting a recognised file is a visit of its key; visiting any other changes nothing that is depicted. */
  lemma VisitIsAStep(w: World, g: Scanning.Progress, id: nat, path: Scanning.Path, dirOf: CacheKey -> Bytes,
                     header: Bytes,
                     tag: Tag, ans: Oracle)
    requires Stands(w, g, dirOf, header) && id in w.jobs && w.jobs[id].OnFiles? && w.jobs[id].tag == tag
    ensures WellFormed(Scanning.VisitFile(g, path, header, tag, ans).index)
    ensures var found := Scanning.Recognise(path, Scanning.ContentOf(g.files, path), header);
            Stands(if found.Some? then Next(w, VisitFile(id, found.value.key), ans) else w,
                   Scanning.VisitFile(g, path, header, tag, ans), dirOf, header)
    ensures forall key :: Next(w, VisitFile(id, key), ans).jobs == w.jobs[id := OnFiles(tag, w.jobs[id].files - {key})]
  {
    var found := Scanning.Recognise(path, Scanning.ContentOf(g.files, path), header);
    if found.Some? {
      var key := found.value.key;
      FoundWherePlaced(g.files, dirOf, header, path);
      assert DepictsAt(w.disk, g.files, dirOf, header, key);
      var v := Next(w, VisitFile(id, key), ans);
      if tag in found.value.tags {
        OneFileLess(w.disk, g.files, dirOf, header, key);
      } else {
        Recording.InsertAllKeepsWellFormed(w.index, found.value.tags, key, ans, w.asked);
        SameTags(w.disk, v.disk, g.files, dirOf, header);
      }
    }
  }

  /** Taking a tag's keys is the start of a purge that works on them. */
  lemma TakeIsAStep(w: World, g: Scanning.Progress, id: nat, tag: Tag, fallback: bool, dirOf: CacheKey -> Bytes,
                    header: Bytes,
                    ans: Oracle)
    requires Stands(w, g, dirOf, header) && id !in w.jobs && Acceptable(tag)
    ensures var v := Next(w, StartPurge(id, tag, fallback), ans);
            && Stands(v, g.(index := Take(g.index, tag)), dirOf, header)
            && (Holds(w.index.rows, tag) ==> id in v.jobs && v.jobs[id] == OnKeys(tag, ListOf(w.index, tag), w.clock))
            && (!Holds(w.index.rows, tag) && fallback ==> id in v.jobs && v.jobs[id] == OnFiles(tag, w.disk.Keys))
  {
    TakeKeepsWellFormed(w.index, tag);
  }

  /** Unlinking the file of the next taken key is one purge of a key. */
  lemma PurgeKeyIsAStep(w: World, g: Scanning.Progress, id: nat, dirOf: CacheKey -> Bytes, header: Bytes, ans: Oracle)
    requires Stands(w, g, dirOf, header) && id in w.jobs && w.jobs[id].OnKeys? && w.jobs[id].keys != []
    ensures var v, job := Next(w, PurgeKey(id), ans), w.jobs[id];
            && Stands(v, g.(files := g.files - {Scanning.PathOf(dirOf, job.keys[0])}), dirOf, header)
            && v.jobs == w.jobs[id := job.(keys := job.keys[1..])]
  {
    OneFileLess(w.disk, g.files, dirOf, header, w.jobs[id].keys[0]);
  }

  /** Recording a response that carries the header is recording the tags of its live value. */
  lemma RecordIsAStep(w: World, g: Scanning.Progress, id: nat, headers: seq<Headers.Header>, key: CacheKey,
                      dirOf: CacheKey -> Bytes, header: Bytes, ans: Oracle)
    requires Stands(w, g, dirOf, header) && id !in w.flights && Headers.LiveValue(headers, header).Some?
    ensures var tags := Tags.SplitTags(Headers.LiveValue(headers, header).value);
            var b, v := Recording.Noted(g.index, headers, header, Some(key), ans, g.asked), Next(w, Record(id, key, tags), ans);
            && Stands(v, g.(index := b.index, asked := b.asked), dirOf, header)
            && id in v.flights && v.flights[id] == Flight(key, tags, w.clock, {}) && v.jobs == w.jobs
  {
    var tags := Tags.SplitTags(Headers.LiveValue(headers, header).value);
    Recording.InsertAllKeepsWellFormed(w.index, tags, key, ans, w.asked);
    SameTags(w.disk, Next(w, Record(id, key, tags), ans).disk, g.files, dirOf, header);
  }

  /** The file a response leaves at the path of its key. */
  function WithFile(files: Scanning.Files, dirOf: CacheKey -> Bytes, key: CacheKey, status: Bytes,
                    headers: seq<Headers.Header>,
                    eol: Bytes): Scanning.Files
  {
    files[Scanning.PathOf(dirOf, key) := Some(Headers.Render(status, headers, eol))]
  }

  ghost predicate Renderable(status: Bytes, headers: seq<Headers.Header>, eol: Bytes, header: Bytes) {
    Headers.IsStatusLine(status) && Headers.WellFormedHeaders(headers) && Headers.IsLineEnd(eol) && Headers.IsFieldName(header)
  }

  /** What a scan reads back from such a file. */
  lemma ReadBack(dirOf: CacheKey -> Bytes, key: CacheKey, status: Bytes, headers: seq<Headers.Header>, eol: Bytes,
                 header: Bytes)
    requires Renderable(status, headers, eol, header)
    ensures var live := Headers.LiveValue(headers, header);
            Scanning.Recognise(Scanning.PathOf(dirOf, key), Some(Headers.Render(status, headers, eol)), header) ==
              if live.None? then None else Some(Scanning.Found(key, Tags.SplitTags(Headers.Trim(live.value))))
  {
    Hex.KeyOfOwnPath(dirOf(key), key);
    Headers.StoredMatchesLive(status, headers, eol, header);
  }

  /** One file replaced, and its key with it: by what a scan recognises, if anything. */
  lemma OneFileReplaced(disk: map<CacheKey, File>, files: Scanning.Files, dirOf: CacheKey -> Bytes, header: Bytes,
                        key: CacheKey,
                        content: Option<Bytes>, after: map<CacheKey, File>)
    requires Depicts(disk, files, dirOf, header) && after - {key} == disk - {key}
    requires DepictsAt(after, files[Scanning.PathOf(dirOf, key) := content], dirOf, header, key)
    ensures Depicts(after, files[Scanning.PathOf(dirOf, key) := content], dirOf, header)
  {
    Hex.KeyOfOwnPath(dirOf(key), key);
    var now := files[Scanning.PathOf(dirOf, key) := content];
    forall k | k != key ensures DepictsAt(after, now, dirOf, header, k) {
      assert DepictsAt(disk, files, dirOf, header, k);
      Scanning.PathsDiffer(dirOf, k, key);
      assert k in after <==> k in after - {key};
      assert k in disk <==> k in disk - {key};
    }
  }

  lemma TaggedFileWritten(disk: map<CacheKey, File>, files: Scanning.Files, dirOf: CacheKey -> Bytes, header: Bytes,
                          key: CacheKey,
                          status: Bytes, headers: seq<Headers.Header>, eol: Bytes, file: File)
    requires Depicts(disk, files, dirOf, header) && Renderable(status, headers, eol, header)
    requires var live := Headers.LiveValue(headers, header); live.Some? && file.tags == Tags.SplitTags(Headers.Trim(live.value))
    ensures Depicts(disk[key := file], WithFile(files, dirOf, key, status, headers, eol), dirOf, header)
  {
    ReadBack(dirOf, key, status, headers, eol, header);
    OneFileReplaced(disk, files, dirOf, header, key, Some(Headers.Render(status, headers, eol)), disk[key := file]);
  }

  lemma UntaggedFileWritten(disk: map<CacheKey, File>, files: Scanning.Files, dirOf: CacheKey -> Bytes, header: Bytes,
                            key: CacheKey, status: Bytes, headers: seq<Headers.Header>, eol: Bytes)
    requires Depicts(disk, files, dirOf, header) && Renderable(status, headers, eol, header)
    requires Headers.LiveValue(headers, header).None?
    ensures Depicts(disk - {key}, WithFile(files, dirOf, key, status, headers, eol), dirOf, header)
  {
    ReadBack(dirOf, key, status, headers, eol, header);
    OneFileReplaced(disk, files, dirOf, header, key, Some(Headers.Render(status, headers, eol)), disk - {key});
  }

  /**
   Writing the file of a recorded response is committing its flight, exactly when no form feed is
   trimmed off the value it was recorded from.
   */
  lemma CommitIsAStep(w: World, g: Scanning.Progress, id: nat, key: CacheKey, status: Bytes,
                      headers: seq<Headers.Header>,
                      eol: Bytes, dirOf: CacheKey -> Bytes, header: Bytes, ans: Oracle)
    requires Stands(w, g, dirOf, header) && Renderable(status, headers, eol, header)
    requires Headers.LiveValue(headers, header).Some? && id in w.flights && w.flights[id].key == key
    requires w.flights[id].tags == Tags.SplitTags(Headers.LiveValue(headers, header).value)
    ensures var value := Headers.LiveValue(headers, header).value;
            Stands(Next(w, Commit(id), ans), g.(files := WithFile(g.files, dirOf, key, status, headers, eol)), dirOf, header) <==>
              Tags.FF !in Headers.TrimmedLeft(value) && Tags.FF !in Headers.TrimmedRight(value)
    ensures Next(w, Commit(id), ans).flights == w.flights - {id} && Next(w, Commit(id), ans).jobs == w.jobs
  {
    var value := Headers.LiveValue(headers, header).value;
    var v, after := Next(w, Commit(id), ans), WithFile(g.files, dirOf, key, status, headers, eol);
    Headers.TrimKeepsTagsIff(value);
    if Tags.SplitTags(Headers.Trim(value)) == Tags.SplitTags(value) {
      TaggedFileWritten(w.disk, g.files, dirOf, header, key, status, headers, eol, v.disk[key]);
    } else {
      ReadBack(dirOf, key, status, headers, eol, header);
      assert !DepictsAt(v.disk, after, dirOf, header, key);
    }
  }

  /** Writing a file without the header, or dropping one, is forgetting its key. */
  lemma ForgetIsAStep(w: World, g: Scanning.Progress, key: CacheKey, status: Bytes, headers: seq<Headers.Header>,
                      eol: Bytes,
                      dirOf: CacheKey -> Bytes, header: Bytes, ans: Oracle)
    requires Stands(w, g, dirOf, header) && Renderable(status, headers, eol, header)
    ensures var v := Next(w, Forget(key), ans);
            && Stands(v, g.(files := g.files - {Scanning.PathOf(dirOf, key)}), dirOf, header)
            && (Headers.LiveValue(headers, header).None? ==>
                  Stands(v, g.(files := WithFile(g.files, dirOf, key, status, headers, eol)), dirOf, header))
  {
    OneFileLess(w.disk, g.files, dirOf, header, key);
    if Headers.LiveValue(headers, header).None? {
      UntaggedFileWritten(w.disk, g.files, dirOf, header, key, status, headers, eol);
    }
  }

  /** An aborted transfer leaves its recording behind, and no file. */
  lemma AbortIsAStep(w: World, g: Scanning.Progress, id: nat, dirOf: CacheKey -> Bytes, header: Bytes, ans: Oracle)
    requires Stands(w, g, dirOf, header)
    ensures var v := Next(w, Abort(id), ans);
            Stands(v, g, dirOf, header) && v.disk == w.disk && v.flights == w.flights - {id} && v.jobs == w.jobs
  {
  }

  lemma RestartIsAStep(w: World, g: Scanning.Progress, dirOf: CacheKey -> Bytes, header: Bytes, ans: Oracle)
    requires Stands(w, g, dirOf, header)
    ensures Stands(Next(w, Restart, ans), g.(index := EMPTY), dirOf, header)
    ensures Next(w, Restart, ans).flights == map[] && Next(w, Restart, ans).jobs == map[]
  {
    SameTags(w.disk, Next(w, Restart, ans).disk, g.files, dirOf, header);
  }

  // ----- whole purges -----

  /** Steps a purge takes after its first. */
  predicate Continues(steps: seq<Step>, id: nat) {
    forall s :: s in steps ==> s == PurgeKey(id) || (s.VisitFile? && s.id == id)
  }

  lemma {:induction false} DrainIsARun(w: World, g: Scanning.Progress, id: nat, dirOf: CacheKey -> Bytes,
                                       header: Bytes, ans: Oracle)
    returns (steps: seq<Step>)
    requires Stands(w, g, dirOf, header) && id in w.jobs && w.jobs[id].OnKeys?
    ensures Continues(steps, id)
    ensures Stands(Run(w, steps, ans), g.(files := Purging.FilesLeft(g.files, g.stuck, dirOf, w.jobs[id].keys)), dirOf, header)
    decreases |w.jobs[id].keys|
  {
    var keys := w.jobs[id].keys;
    steps := [];
    if keys == [] {
      assert Purging.FilesLeft(g.files, {}, dirOf, keys) == g.files;
    } else {
      var path := Scanning.PathOf(dirOf, keys[0]);
      PurgeKeyIsAStep(w, g, id, dirOf, header, ans);
      var v := Next(w, PurgeKey(id), ans);
      var rest := DrainIsARun(v, g.(files := g.files - {path}), id, dirOf, header, ans);
      var same := Misses.RunStep(w, PurgeKey(id), rest, ans);
      OnePathMore(g.files, dirOf, keys);
      steps := [PurgeKey(id)] + rest;
    }
  }

  lemma OnePathMore(files: Scanning.Files, dirOf: CacheKey -> Bytes, keys: seq<CacheKey>)
    requires keys != []
    ensures Purging.FilesLeft(files - {Scanning.PathOf(dirOf, keys[0])}, {}, dirOf, keys[1..]) ==
            Purging.FilesLeft(files, {}, dirOf, keys)
  {
    assert keys == [keys[0]] + keys[1..];
    assert Purging.PathsOf(dirOf, keys) == {Scanning.PathOf(dirOf, keys[0])} + Purging.PathsOf(dirOf, keys[1..]);
  }

  lemma VisitKeepsWalk(w: World, id: nat, key: CacheKey, ans: Oracle)
    requires WellFormed(w.index) && id in w.jobs && w.jobs[id].OnFiles?
    ensures var v := Next(w, VisitFile(id, key), ans); id in v.jobs && v.jobs[id].OnFiles? && v.jobs[id].tag == w.jobs[id].tag
  {
  }

  /** One file of a walk: at most one step, after which the walk goes on. */
  lemma OneVisit(w: World, g: Scanning.Progress, id: nat, path: Scanning.Path, dirOf: CacheKey -> Bytes,
                 header: Bytes, tag: Tag,
                 ans: Oracle)
    returns (steps: seq<Step>, v: World, h: Scanning.Progress)
    requires Stands(w, g, dirOf, header) && id in w.jobs && w.jobs[id].OnFiles? && w.jobs[id].tag == tag
    ensures Continues(steps, id) && v == Run(w, steps, ans)
    ensures h == Scanning.VisitFile(g, path, header, tag, ans) && Stands(v, h, dirOf, header)
    ensures id in v.jobs && v.jobs[id].OnFiles? && v.jobs[id].tag == tag
  {
    var found := Scanning.Recognise(path, Scanning.ContentOf(g.files, path), header);
    VisitIsAStep(w, g, id, path, dirOf, header, tag, ans);
    h := Scanning.VisitFile(g, path, header, tag, ans);
    if found.Some? {
      VisitKeepsWalk(w, id, found.value.key, ans);
      v := Misses.RunOne(w, VisitFile(id, found.value.key), ans);
      steps := [VisitFile(id, found.value.key)];
    } else {
      v, steps := w, [];
    }
  }

  lemma {:induction false} WalkIsARun(w: World, g: Scanning.Progress, id: nat, order: seq<Scanning.Path>,
                                      dirOf: CacheKey -> Bytes,
                                      header: Bytes, tag: Tag, ans: Oracle)
    returns (steps: seq<Step>, v: World, end: Scanning.Progress)
    requires Stands(w, g, dirOf, header) && id in w.jobs && w.jobs[id].OnFiles? && w.jobs[id].tag == tag
    ensures Continues(steps, id) && v == Run(w, steps, ans)
    ensures end == Scanning.VisitFiles(g, order, header, tag, ans) && Stands(v, end, dirOf, header)
    decreases |order|
  {
    if order == [] {
      steps, v, end := [], w, g;
    } else {
      var first, u, h := OneVisit(w, g, id, order[0], dirOf, header, tag, ans);
      var rest;
      rest, v, end := WalkIsARun(u, h, id, order[1..], dirOf, header, tag, ans);
      Misses.RunOn(w, first, u, rest, ans);
      steps := first + rest;
    }
  }

  /** A purge request served with nothing interleaved is a run of the protocol: its start, then its own steps alone. */
  lemma AnswerIsARun(w: World, start: Scanning.Progress, id: nat, tag: Tag, fallback: bool, walk: Purging.Walk,
                     dirOf: CacheKey -> Bytes, header: Bytes, ans: Oracle)
    returns (steps: seq<Step>)
    requires Stands(w, start, dirOf, header) && id !in w.jobs && Acceptable(tag)
    ensures Continues(steps, id)
    ensures var out := Purging.Answer(start, Some(tag), fallback, header, walk, dirOf, ans);
            var v := Run(w, [StartPurge(id, tag, fallback)] + steps, ans);
            v.index == out.index && Depicts(v.disk, out.files, dirOf, header)
  {
    var first := StartPurge(id, tag, fallback);
    TakeIsAStep(w, start, id, tag, fallback, dirOf, header, ans);
    var s := Next(w, first, ans);
    if Holds(w.index.rows, tag) {
      steps := DrainIsARun(s, start.(index := Take(start.index, tag)), id, dirOf, header, ans);
    } else if fallback && walk.Walk? {
      var v, end;
      steps, v, end := WalkIsARun(s, start, id, walk.order, dirOf, header, tag, ans);
    } else {
      steps := [];
    }
    var same := Misses.RunStep(w, first, steps, ans);
  }
}
