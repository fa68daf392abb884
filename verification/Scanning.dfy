/** The cache directory, and the scan that answers a purge from it. */
module Scanning {
  import opened Types
  import opened IndexModel
  import opened Hex
  import Tags
  import opened Headers
  import TagIndexHeap
  import opened Recording
  import opened CacheZone
  import IndexRuns

  type Path = Bytes

  /** Each cache file by path, with its header block if that can be read. */
  type Files = map<Path, Option<Bytes>>

  /** The path NGINX gives the file of a key. */
  function PathOf(dirOf: CacheKey -> Bytes, key: CacheKey): Path {
    dirOf(key) + HexOf(key)
  }

  /** Distinct keys have distinct paths, wherever their directories lie. */
  lemma PathsDiffer(dirOf: CacheKey -> Bytes, a: CacheKey, b: CacheKey)
    ensures PathOf(dirOf, a) == PathOf(dirOf, b) <==> a == b
  {
    KeyOfOwnPath(dirOf(a), a);
    KeyOfOwnPath(dirOf(b), b);
  }

  class Disk {
    /** The directory part of a key's path, down to the levels. */
    const dirOf: CacheKey -> Bytes
    /** Paths the system will not unlink. */
    const stuck: set<Path>
    var files: Files

    constructor (dirOf: CacheKey -> Bytes, stuck: set<Path>, files: Files)
      ensures this.dirOf == dirOf && this.stuck == stuck && this.files == files
    {
      this.dirOf, this.stuck, this.files := dirOf, stuck, files;
    }

    method Unlink(path: Path) returns (ok: bool)
      modifies `files
      ensures ok <==> path in old(files) && path !in stuck
      ensures files == Unlinked(old(files), stuck, path)
    {
      ok := path in files && path !in stuck;
      if ok {
        files := files - {path};
      }
    }

    method ReadBlock(path: Path) returns (block: Option<Bytes>)
      ensures block == ContentOf(files, path)
    {
      block := if path in files then files[path] else None;
    }

    /** Unlinks the file backing `key`, whose name is built from the key's hex. */
    method DeleteFile(key: CacheKey) returns (ok: bool)
      modifies `files
      ensures ok <==> PathOf(dirOf, key) in old(files) && PathOf(dirOf, key) !in stuck
      ensures files == Unlinked(old(files), stuck, PathOf(dirOf, key))
    {
      var hex := new byte[HEX_LEN](_ => 0);
      var written := HexEncode(key, hex);
      assert hex[..] == HexOf(key);
      ok := Unlink(dirOf(key) + hex[..]);
    }
  }

  function Unlinked(files: Files, stuck: set<Path>, path: Path): Files {
    if path in stuck then files else files - {path}
  }

  function ContentOf(files: Files, path: Path): Option<Bytes> {
    if path in files then files[path] else None
  }

  /** What a scan makes of a file: its key and the tags its block carries. */
  datatype Found = Found(key: CacheKey, tags: seq<Tag>)

  function Recognise(path: Path, content: Option<Bytes>, header: Bytes): Option<Found> {
    if KeyOf(path).None? || content.None? then None
    else
      match FindHeader(content.value, header)
      case None => None
      case Some(value) => Some(Found(KeyOf(path).value, Tags.SplitTags(value)))
  }

  predicate Carries(path: Path, content: Option<Bytes>, header: Bytes, tag: Tag) {
    var found := Recognise(path, content, header);
    found.Some? && tag in found.value.tags
  }

  /**
   The file NGINX writes for a response, read back under the path it is given, carries exactly the tags
   recording saw in the live headers, as long as no form feed stands at the ends of their value.
   */
  lemma StoredFileCarries(dirOf: CacheKey -> Bytes, key: CacheKey, status: Bytes, headers: seq<Header>, eol: Bytes,
                          header: Bytes, tag: Tag)
    requires IsStatusLine(status) && WellFormedHeaders(headers) && IsLineEnd(eol) && IsFieldName(header)
    requires var live := LiveValue(headers, header);
             live.Some? ==> Tags.FF !in TrimmedLeft(live.value) && Tags.FF !in TrimmedRight(live.value)
    ensures var block, live := Render(status, headers, eol), LiveValue(headers, header);
            && (Carries(PathOf(dirOf, key), Some(block), header, tag) <==> live.Some? && tag in Tags.SplitTags(live.value))
            && (Carries(PathOf(dirOf, key), Some(block), header, tag) <==> BlockHasTag(block, header, tag))
  {
    KeyOfOwnPath(dirOf(key), key);
    StoredMatchesLive(status, headers, eol, header);
    if LiveValue(headers, header).Some? { TrimKeepsTagsIff(LiveValue(headers, header).value); }
  }

  /** A response recorded quietly is listed under every tag a scan would later find in its file. */
  lemma RecordedBeforeScanned(s: Index, ans: Oracle, n: nat, dirOf: CacheKey -> Bytes, key: CacheKey, status: Bytes,
                              headers: seq<Header>, eol: Bytes, header: Bytes, tag: Tag)
    requires WellFormed(s) && Acceptable(tag)
    requires IsStatusLine(status) && WellFormedHeaders(headers) && IsLineEnd(eol) && IsFieldName(header)
    requires var live := LiveValue(headers, header);
             live.Some? ==> Tags.FF !in TrimmedLeft(live.value) && Tags.FF !in TrimmedRight(live.value)
    requires var b := Noted(s, headers, header, Some(key), ans, n); b.failures == 0 && Quiet(s, b.index)
    ensures Carries(PathOf(dirOf, key), Some(Render(status, headers, eol)), header, tag) ==>
              key in ListOf(Noted(s, headers, header, Some(key), ans, n).index, tag)
  {
    StoredFileCarries(dirOf, key, status, headers, eol, header, tag);
    var live := LiveValue(headers, header);
    if live.Some? { QuietInsertAll(s, Tags.SplitTags(live.value), key, ans, n, tag, key); }
  }

  // ----- what a scan does to the index -----

  /** What visiting one file adds to the index: its tags, unless it is purged. */
  function Visit(s: Index, path: Path, content: Option<Bytes>, header: Bytes, tag: Tag, ans: Oracle, n: nat): Batch
    requires WellFormed(s)
  {
    var found := Recognise(path, content, header);
    if found.None? || tag in found.value.tags then Batch(s, n, false, 0)
    else InsertAll(s, found.value.tags, found.value.key, ans, n)
  }

  datatype Sweep = Sweep(index: Index, asked: nat, indexed: nat, failures: nat)

  /** Visiting files in some order. */
  function SweepAll(s: Index, order: seq<Path>, files: Files, header: Bytes, tag: Tag, ans: Oracle, n: nat): Sweep
    requires WellFormed(s)
    decreases order
  {
    if order == [] then Sweep(s, n, 0, 0)
    else
      VisitKeepsWellFormed(s, order[0], ContentOf(files, order[0]), header, tag, ans, n);
      var b := Visit(s, order[0], ContentOf(files, order[0]), header, tag, ans, n);
      var rest := SweepAll(b.index, order[1..], files, header, tag, ans, b.asked);
      Sweep(rest.index, rest.asked, (if b.wrote then 1 else 0) + rest.indexed, b.failures + rest.failures)
  }

  lemma VisitKeepsWellFormed(s: Index, path: Path, content: Option<Bytes>, header: Bytes, tag: Tag, ans: Oracle, n: nat)
    requires WellFormed(s)
    ensures WellFormed(Visit(s, path, content, header, tag, ans, n).index)
  {
    var found := Recognise(path, content, header);
    if found.Some? { InsertAllKeepsWellFormed(s, found.value.tags, found.value.key, ans, n); }
  }

  lemma VisitOnlyAdvances(s: Index, path: Path, content: Option<Bytes>, header: Bytes, tag: Tag, ans: Oracle, n: nat)
    requires WellFormed(s)
    ensures var b := Visit(s, path, content, header, tag, ans, n).index;
            b.evicted >= s.evicted && b.dropped >= s.dropped
  {
    var found := Recognise(path, content, header);
    if found.Some? { InsertAllOnlyAdvances(s, found.value.tags, found.value.key, ans, n); }
  }

  lemma {:induction false} SweepOnlyAdvances(s: Index, order: seq<Path>, files: Files, header: Bytes, tag: Tag,
                                             ans: Oracle, n: nat)
    requires WellFormed(s)
    ensures var b := SweepAll(s, order, files, header, tag, ans, n).index;
            b.evicted >= s.evicted && b.dropped >= s.dropped
    decreases order
  {
    if order != [] {
      var content := ContentOf(files, order[0]);
      VisitKeepsWellFormed(s, order[0], content, header, tag, ans, n);
      VisitOnlyAdvances(s, order[0], content, header, tag, ans, n);
      var b := Visit(s, order[0], content, header, tag, ans, n);
      SweepOnlyAdvances(b.index, order[1..], files, header, tag, ans, b.asked);
    }
  }

  /** `key` should be listed under `t` because of a surviving file at `path`. */
  predicate Owed(path: Path, files: Files, header: Bytes, tag: Tag, t: Tag, key: CacheKey) {
    var found := Recognise(path, ContentOf(files, path), header);
    found.Some? && tag !in found.value.tags && t in found.value.tags && Acceptable(t) && key == found.value.key
  }

  /**
   One scan restores coverage. Whatever the index held before, if no insert failed and nothing was
   evicted or dropped, then afterwards it holds what it held and, for every surviving file, that file's
   key under every tag the file carries that is not over-long; nothing else.
   */
  lemma {:induction false} ScanRestoresCoverage(
      s: Index, order: seq<Path>, files: Files, header: Bytes, tag: Tag, ans: Oracle, n: nat, t: Tag, key: CacheKey)
    requires WellFormed(s)
    requires var w := SweepAll(s, order, files, header, tag, ans, n); w.failures == 0 && Quiet(s, w.index)
    ensures key in ListOf(SweepAll(s, order, files, header, tag, ans, n).index, t) <==>
            key in ListOf(s, t) || exists p :: p in order && Owed(p, files, header, tag, t, key)
    decreases order
  {
    if order != [] {
      var p, rest := order[0], order[1..];
      var content := ContentOf(files, p);
      VisitKeepsWellFormed(s, p, content, header, tag, ans, n);
      var b := Visit(s, p, content, header, tag, ans, n);
      VisitOnlyAdvances(s, p, content, header, tag, ans, n);
      SweepOnlyAdvances(b.index, rest, files, header, tag, ans, b.asked);
      ScanRestoresCoverage(b.index, rest, files, header, tag, ans, b.asked, t, key);
      var found := Recognise(p, content, header);
      if found.Some? && tag !in found.value.tags {
        QuietInsertAll(s, found.value.tags, found.value.key, ans, n, t, key);
      }
      OwedStep(order, files, header, tag, t, key);
    }
  }

  lemma OwedStep(order: seq<Path>, files: Files, header: Bytes, tag: Tag, t: Tag, key: CacheKey)
    requires order != []
    ensures (exists p :: p in order && Owed(p, files, header, tag, t, key)) <==>
            || Owed(order[0], files, header, tag, t, key)
            || exists p :: p in order[1..] && Owed(p, files, header, tag, t, key)
  {
    assert order == [order[0]] + order[1..];
    assert forall p :: p in order <==> p == order[0] || p in order[1..];
  }

  // ----- a sweep goes on past a refusal -----

  /** A sweep of one more file is the sweep, then a visit of that file. */
  lemma {:induction false} SweepSnoc(s: Index, order: seq<Path>, p: Path, files: Files, header: Bytes, tag: Tag, ans: Oracle, n: nat)
    requires WellFormed(s)
    ensures var w := SweepAll(s, order, files, header, tag, ans, n);
            && WellFormed(w.index)
            && var b := Visit(w.index, p, ContentOf(files, p), header, tag, ans, w.asked);
               SweepAll(s, order + [p], files, header, tag, ans, n) ==
                 Sweep(b.index, b.asked, w.indexed + (if b.wrote then 1 else 0), w.failures + b.failures)
    decreases order
  {
    if order == [] {
      VisitKeepsWellFormed(s, p, ContentOf(files, p), header, tag, ans, n);
      var b := Visit(s, p, ContentOf(files, p), header, tag, ans, n);
      var none: seq<Path> := [p][1..];
      assert none == [] && [] + [p] == [p];
      assert SweepAll(b.index, none, files, header, tag, ans, b.asked) == Sweep(b.index, b.asked, 0, 0);
    } else {
      assert (order + [p])[0] == order[0] && (order + [p])[1..] == order[1..] + [p];
      VisitKeepsWellFormed(s, order[0], ContentOf(files, order[0]), header, tag, ans, n);
      var b := Visit(s, order[0], ContentOf(files, order[0]), header, tag, ans, n);
      SweepSnoc(b.index, order[1..], p, files, header, tag, ans, b.asked);
    }
  }

  /** The tags of 1 to 1024 bytes of a file, if it is recognised and survives. */
  function KeptTags(path: Path, content: Option<Bytes>, header: Bytes, tag: Tag): seq<Tag> {
    var found := Recognise(path, content, header);
    if found.Some? && tag !in found.value.tags then OfLength(found.value.tags) else []
  }

  /** Those of all files, in the order met. */
  function SurvivingTags(order: seq<Path>, files: Files, header: Bytes, tag: Tag): seq<Tag> {
    if order == [] then []
    else KeptTags(order[0], ContentOf(files, order[0]), header, tag) + SurvivingTags(order[1..], files, header, tag)
  }

  lemma VisitNames(s: Index, path: Path, content: Option<Bytes>, header: Bytes, tag: Tag, ans: Oracle, n: nat)
    returns (named: seq<Tag>)
    requires WellFormed(s)
    ensures named == IndexRuns.NamedIn(Visit(s, path, content, header, tag, ans, n).index.log)
    ensures named == IndexRuns.NamedIn(s.log) + KeptTags(path, content, header, tag)
  {
    var found := Recognise(path, content, header);
    named := IndexRuns.NamedIn(Visit(s, path, content, header, tag, ans, n).index.log);
    if found.Some? && tag !in found.value.tags {
      var all := InsertAllNames(s, found.value.tags, found.value.key, ans, n);
    }
  }

  /** A sweep tries each of them, whatever became of those before it. */
  lemma {:induction false} SweepNames(s: Index, order: seq<Path>, files: Files, header: Bytes, tag: Tag, ans: Oracle, n: nat)
    returns (named: seq<Tag>)
    requires WellFormed(s)
    ensures named == IndexRuns.NamedIn(SweepAll(s, order, files, header, tag, ans, n).index.log)
    ensures named == IndexRuns.NamedIn(s.log) + SurvivingTags(order, files, header, tag)
    decreases order
  {
    if order == [] {
      named := IndexRuns.NamedIn(s.log);
      assert named == named + [];
    } else {
      var p, rest := order[0], order[1..];
      var content := ContentOf(files, p);
      VisitKeepsWellFormed(s, p, content, header, tag, ans, n);
      var b := Visit(s, p, content, header, tag, ans, n);
      var first := VisitNames(s, p, content, header, tag, ans, n);
      named := SweepNames(b.index, rest, files, header, tag, ans, b.asked);
      Associates(IndexRuns.NamedIn(s.log), KeptTags(p, content, header, tag), SurvivingTags(rest, files, header, tag));
    }
  }

  /** Some insert of a batch succeeds. */
  ghost predicate SomeSucceeds(s: Index, tags: seq<Tag>, key: CacheKey, ans: Oracle, n: nat)
    requires WellFormed(s)
  {
    exists j :: 0 <= j < |tags| && InsertAt(s, tags, key, ans, n, j).ok
  }

  lemma WroteIff(s: Index, tags: seq<Tag>, key: CacheKey, ans: Oracle, n: nat)
    requires WellFormed(s)
    ensures InsertAll(s, tags, key, ans, n).wrote <==> SomeSucceeds(s, tags, key, ans, n)
  {
    var oks := BatchCounts(s, tags, key, ans, n);
  }

  /** The file met `i`th survives, and an insert of one of its tags succeeds when it is met. */
  ghost predicate WrittenAt(s: Index, order: seq<Path>, files: Files, header: Bytes, tag: Tag, ans: Oracle, n: nat, i: nat)
    requires WellFormed(s) && i < |order|
  {
    var w := SweepAll(s, order[..i], files, header, tag, ans, n);
    var found := Recognise(order[i], ContentOf(files, order[i]), header);
    WellFormed(w.index) && found.Some? && tag !in found.value.tags &&
    SomeSucceeds(w.index, found.value.tags, found.value.key, ans, w.asked)
  }

  ghost function TrueAt(s: seq<bool>): set<int> {
    set i | 0 <= i < |s| && s[i]
  }

  lemma TrueAtSnoc(s: seq<bool>, last: bool)
    ensures |TrueAt(s + [last])| == |TrueAt(s)| + if last then 1 else 0
  {
    assert TrueAt(s + [last]) == if last then TrueAt(s) + {|s|} else TrueAt(s);
  }

  /** `indexed` is the number of survivors met with at least one insert that succeeded. */
  lemma {:induction false} IndexedCounts(s: Index, order: seq<Path>, files: Files, header: Bytes, tag: Tag, ans: Oracle, n: nat)
    returns (written: seq<bool>)
    requires WellFormed(s)
    ensures |written| == |order|
    ensures forall i :: 0 <= i < |order| ==> (written[i] <==> WrittenAt(s, order, files, header, tag, ans, n, i))
    ensures SweepAll(s, order, files, header, tag, ans, n).indexed == |TrueAt(written)|
    decreases |order|
  {
    written := [];
    if order != [] {
      var last := |order| - 1;
      var some, p := order[..last], order[last];
      assert order == some + [p];
      written := IndexedCounts(s, some, files, header, tag, ans, n);
      forall i | 0 <= i < last ensures WrittenAt(s, order, files, header, tag, ans, n, i) <==> written[i] {
        assert order[..i] == some[..i];
      }
      var now := LastWritten(s, some, p, files, header, tag, ans, n);
      TrueAtSnoc(written, now);
      written := written + [now];
    }
  }

  lemma LastWritten(s: Index, some: seq<Path>, p: Path, files: Files, header: Bytes, tag: Tag, ans: Oracle, n: nat)
    returns (now: bool)
    requires WellFormed(s)
    ensures now <==> WrittenAt(s, some + [p], files, header, tag, ans, n, |some|)
    ensures SweepAll(s, some + [p], files, header, tag, ans, n).indexed ==
            SweepAll(s, some, files, header, tag, ans, n).indexed + if now then 1 else 0
  {
    assert (some + [p])[..|some|] == some;
    SweepSnoc(s, some, p, files, header, tag, ans, n);
    var w := SweepAll(s, some, files, header, tag, ans, n);
    var found := Recognise(p, ContentOf(files, p), header);
    now := Visit(w.index, p, ContentOf(files, p), header, tag, ans, w.asked).wrote;
    if found.Some? { WroteIff(w.index, found.value.tags, found.value.key, ans, w.asked); }
  }

  /** The purged tag, absent when the scan started, stays absent: no surviving file carries it. */
  lemma {:induction false} ScanLeavesTagAbsent(s: Index, order: seq<Path>, files: Files, header: Bytes, tag: Tag,
                                               ans: Oracle, n: nat)
    requires WellFormed(s) && !Holds(s.rows, tag)
    ensures !Holds(SweepAll(s, order, files, header, tag, ans, n).index.rows, tag)
    decreases order
  {
    if order != [] {
      var content := ContentOf(files, order[0]);
      VisitKeepsWellFormed(s, order[0], content, header, tag, ans, n);
      var b := Visit(s, order[0], content, header, tag, ans, n);
      var found := Recognise(order[0], content, header);
      if found.Some? && tag !in found.value.tags {
        InsertAllKeepsAbsent(s, found.value.tags, found.value.key, ans, n, tag);
      }
      ScanLeavesTagAbsent(b.index, order[1..], files, header, tag, ans, b.asked);
    }
  }

  // ----- what a scan does to the cache -----

  /** Those of `visited` that carry the tag. */
  ghost function Matches(visited: seq<Path>, files: Files, header: Bytes, tag: Tag): set<Path> {
    set p | p in files && p in visited && Carries(p, files[p], header, tag)
  }

  /** The keys of the visited files that carry the tag, in visiting order. */
  function MatchedKeys(visited: seq<Path>, files: Files, header: Bytes, tag: Tag): seq<CacheKey> {
    if visited == [] then []
    else
      var p := visited[|visited| - 1];
      MatchedKeys(visited[..|visited| - 1], files, header, tag)
      + if p in files && Carries(p, files[p], header, tag) then [KeyOf(p).value] else []
  }

  /** The files left once those of `visited` that carry the tag are gone, but for the stuck ones. */
  ghost function Remaining(visited: seq<Path>, files: Files, stuck: set<Path>, header: Bytes, tag: Tag): Files {
    files - (Matches(visited, files, header, tag) - stuck)
  }

  predicate Hit(path: Path, files: Files, header: Bytes, tag: Tag) {
    path in files && Carries(path, files[path], header, tag)
  }

  /** One more file visited, and what that adds to the matches. */
  lemma OneMoreMatch(visited: seq<Path>, p: Path, files: Files, header: Bytes, tag: Tag)
    ensures Matches(visited + [p], files, header, tag) ==
            Matches(visited, files, header, tag) + if Hit(p, files, header, tag) then {p} else {}
  {
    assert forall q :: q in visited + [p] <==> q in visited || q == p;
  }

  lemma OneMoreMatchedKey(visited: seq<Path>, p: Path, files: Files, header: Bytes, tag: Tag)
    ensures MatchedKeys(visited + [p], files, header, tag) ==
            MatchedKeys(visited, files, header, tag) + if Hit(p, files, header, tag) then [KeyOf(p).value] else []
  {
    assert (visited + [p])[..|visited|] == visited;
  }

  /** A file met for the first time is as the scan's start had it; if it matches it goes, else all stays. */
  lemma OneMoreVisited(visited: seq<Path>, p: Path, files: Files, stuck: set<Path>, header: Bytes, tag: Tag)
    requires p !in visited
    ensures ContentOf(Remaining(visited, files, stuck, header, tag), p) == ContentOf(files, p)
    ensures Remaining(visited + [p], files, stuck, header, tag) ==
            if Hit(p, files, header, tag) then Unlinked(Remaining(visited, files, stuck, header, tag), stuck, p)
            else Remaining(visited, files, stuck, header, tag)
  {
    OneMoreMatch(visited, p, files, header, tag);
    assert p !in Matches(visited, files, header, tag);
  }

  lemma {:induction false} MatchedKeysAre(visited: seq<Path>, files: Files, header: Bytes, tag: Tag, key: CacheKey)
    ensures key in MatchedKeys(visited, files, header, tag) <==>
            exists p :: p in Matches(visited, files, header, tag) && KeyOf(p) == Some(key)
  {
    if visited != [] {
      var n := |visited| - 1;
      var p := visited[n];
      MatchedKeysAre(visited[..n], files, header, tag, key);
      assert visited == visited[..n] + [p];
      OneMoreMatch(visited[..n], p, files, header, tag);
    }
  }

  // ----- a scan as a whole -----

  /** Everything a scan can change, at some moment, and the paths it cannot unlink. */
  datatype Progress = Progress(
    stuck: set<Path>, files: Files, content: seq<CacheEntry>, index: Index, asked: nat,
    scanned: nat, purged: nat, indexed: nat)

  function WithPurged(g: Progress, path: Path, key: CacheKey): Progress {
    g.(files := Unlinked(g.files, g.stuck, path),
       content := Cleared(g.content, key),
       purged := g.purged + if IsLive(g.content, key) || path !in g.stuck then 1 else 0)
  }

  function WithWritten(g: Progress, found: Found, ans: Oracle): Progress
    requires WellFormed(g.index)
  {
    var b := InsertAll(g.index, found.tags, found.key, ans, g.asked);
    g.(index := b.index, asked := b.asked, indexed := g.indexed + if b.wrote then 1 else 0)
  }

  /** One file visited: skipped, purged, or its tags written back. */
  function VisitFile(g: Progress, path: Path, header: Bytes, tag: Tag, ans: Oracle): Progress
    requires WellFormed(g.index)
  {
    var found, counted := Recognise(path, ContentOf(g.files, path), header), g.(scanned := g.scanned + 1);
    if found.None? then counted
    else if tag in found.value.tags then WithPurged(counted, path, found.value.key)
    else WithWritten(counted, found.value, ans)
  }

  function VisitFiles(g: Progress, order: seq<Path>, header: Bytes, tag: Tag, ans: Oracle): Progress
    requires WellFormed(g.index)
    decreases order
  {
    if order == [] then g
    else
      VisitKeepsWellFormed(g.index, order[0], ContentOf(g.files, order[0]), header, tag, ans, g.asked);
      VisitFiles(VisitFile(g, order[0], header, tag, ans), order[1..], header, tag, ans)
  }

  /** No matching file of the same key was met before `p`. */
  ghost predicate FirstOfKey(visited: seq<Path>, p: Path, files: Files, header: Bytes, tag: Tag) {
    forall i, j :: 0 <= i < j < |visited| && visited[j] == p && Hit(visited[i], files, header, tag) ==>
      KeyOf(visited[i]) != KeyOf(p)
  }

  /** The matching files that could be unlinked, or whose node was live and not cleared before. */
  ghost function Effective(start: Progress, visited: seq<Path>, header: Bytes, tag: Tag): set<Path> {
    set p | p in Matches(visited, start.files, header, tag) &&
            (p !in start.stuck ||
             (IsLive(start.content, KeyOf(p).value) && FirstOfKey(visited, p, start.files, header, tag)))
  }

  lemma FirstAmongMore(visited: seq<Path>, p: Path, q: Path, files: Files, header: Bytes, tag: Tag)
    requires p !in visited
    ensures q in visited ==>
              (FirstOfKey(visited + [p], q, files, header, tag) <==> FirstOfKey(visited, q, files, header, tag))
    ensures Hit(p, files, header, tag) ==>
              (FirstOfKey(visited + [p], p, files, header, tag) <==>
                 KeyOf(p).value !in MatchedKeys(visited, files, header, tag))
  {
    var more := visited + [p];
    assert forall i :: 0 <= i < |visited| ==> more[i] == visited[i] && more[i] != p;
    if Hit(p, files, header, tag) {
      MatchedKeysAre(visited, files, header, tag, KeyOf(p).value);
      if KeyOf(p).value in MatchedKeys(visited, files, header, tag) {
        var q :| q in Matches(visited, files, header, tag) && KeyOf(q) == KeyOf(p);
        var i :| 0 <= i < |visited| && visited[i] == q;
        assert Hit(more[i], files, header, tag) && more[|visited|] == p;
      }
    }
  }

  lemma OneMoreEffective(start: Progress, visited: seq<Path>, p: Path, header: Bytes, tag: Tag)
    requires p !in visited
    ensures |Effective(start, visited + [p], header, tag)| == |Effective(start, visited, header, tag)| +
            if Hit(p, start.files, header, tag) &&
               (p !in start.stuck ||
                (IsLive(start.content, KeyOf(p).value) && KeyOf(p).value !in MatchedKeys(visited, start.files, header, tag)))
            then 1 else 0
  {
    var was, now := Effective(start, visited, header, tag), Effective(start, visited + [p], header, tag);
    OneMoreMatch(visited, p, start.files, header, tag);
    forall q | q in visited ensures q in now <==> q in was {
      FirstAmongMore(visited, p, q, start.files, header, tag);
    }
    FirstAmongMore(visited, p, p, start.files, header, tag);
    assert p !in was;
    assert now == if p in now then was + {p} else was;
  }

  lemma {:induction false} SubsetSize<T>(a: set<T>, b: set<T>)
    requires a <= b
    ensures |a| <= |b|
  {
    if a != {} {
      var x :| x in a;
      SubsetSize(a - {x}, b - {x});
    }
  }

  /** What a scan that started at `start` has done to the cache, `visited` being the files it has met. */
  ghost predicate CacheSoFar(start: Progress, g: Progress, visited: seq<Path>, header: Bytes, tag: Tag) {
    && g.stuck == start.stuck
    && g.files == Remaining(visited, start.files, start.stuck, header, tag)
    && g.content == ClearedAll(start.content, MatchedKeys(visited, start.files, header, tag))
    && g.scanned == start.scanned + |visited|
    && g.purged == start.purged + |Effective(start, visited, header, tag)|
  }

  /** The scan that has visited the first `i` files of `order`, having started at `start`, is at `g`. */
  ghost predicate Underway(start: Progress, g: Progress, order: seq<Path>, i: nat, header: Bytes, tag: Tag, ans: Oracle)
    requires i <= |order| && WellFormed(start.index)
  {
    && WellFormed(g.index)
    && CacheSoFar(start, g, order[..i], header, tag)
    && var all := SweepAll(start.index, order, start.files, header, tag, ans, start.asked);
       var rest := SweepAll(g.index, order[i..], start.files, header, tag, ans, g.asked);
       rest.index == all.index && rest.asked == all.asked && g.indexed + rest.indexed == start.indexed + all.indexed
  }

  lemma CacheAdvances(start: Progress, g: Progress, visited: seq<Path>, p: Path, header: Bytes, tag: Tag, ans: Oracle)
    requires WellFormed(g.index) && CacheSoFar(start, g, visited, header, tag) && p !in visited
    ensures ContentOf(g.files, p) == ContentOf(start.files, p)
    ensures CacheSoFar(start, VisitFile(g, p, header, tag, ans), visited + [p], header, tag)
  {
    OneMoreVisited(visited, p, start.files, start.stuck, header, tag);
    OneMoreEffective(start, visited, p, header, tag);
    OneMoreMatchedKey(visited, p, start.files, header, tag);
    var keys := MatchedKeys(visited, start.files, header, tag);
    if Hit(p, start.files, header, tag) {
      ClearedAllSnoc(start.content, keys, KeyOf(p).value);
      ClearedAllLives(start.content, keys, KeyOf(p).value);
    } else {
      assert keys + [] == keys;
    }
  }

  lemma VisitAdvances(start: Progress, g: Progress, order: seq<Path>, i: nat, header: Bytes, tag: Tag, ans: Oracle)
    requires i < |order| && NoDup(order) && WellFormed(start.index) && Underway(start, g, order, i, header, tag, ans)
    ensures Underway(start, VisitFile(g, order[i], header, tag, ans), order, i + 1, header, tag, ans)
  {
    var p := order[i];
    assert order[..i + 1] == order[..i] + [p];
    NoDupPrefix(order, i);
    CacheAdvances(start, g, order[..i], p, header, tag, ans);
    assert order[i..][1..] == order[i + 1..];
    VisitKeepsWellFormed(g.index, p, ContentOf(start.files, p), header, tag, ans, g.asked);
  }

  class Scan {
    const tag: Tag
    const header: Bytes
    const cache: Cache
    const disk: Disk
    const index: TagIndexHeap.TagIndex
    const alloc: TagIndexHeap.Slab
    var scanned: nat
    var purged: nat
    var indexed: nat

    constructor (tag: Tag, header: Bytes, cache: Cache, disk: Disk, index: TagIndexHeap.TagIndex, alloc: TagIndexHeap.Slab)
      ensures this.tag == tag && this.header == header && this.cache == cache && this.disk == disk
      ensures this.index == index && this.alloc == alloc
      ensures scanned == purged == indexed == 0
    {
      this.tag, this.header, this.cache, this.disk, this.index, this.alloc := tag, header, cache, disk, index, alloc;
      scanned, purged, indexed := 0, 0, 0;
    }

    ghost predicate Valid()
      reads cache, cache.nodes, index, index.nodes
    {
      cache.Valid() && index.Valid()
    }

    ghost function Now(): Progress
      reads this, cache, disk, index, alloc
    {
      Progress(disk.stuck, disk.files, cache.content, index.value, alloc.asked, scanned, purged, indexed)
    }

    /** The key and tags of a file, if it is one that can be recognised. */
    method Read(path: Path) returns (found: Option<Found>)
      requires Valid()
      ensures Valid()
      ensures found == Recognise(path, ContentOf(disk.files, path), header)
    {
      var key := KeyFromPath(path);
      if key.None? {
        return None;
      }
      var block := disk.ReadBlock(path);
      if block.None? {
        return None;
      }
      var value := FindHeader(block.value, header);
      found := if value.None? then None else Some(Found(key.value, Tags.SplitTags(value.value)));
    }

    /** Clears the node and unlinks the file; either counts as one purge. */
    method PurgeFile(path: Path, key: CacheKey)
      requires Valid() && path in disk.files
      modifies `purged, cache`size, cache`content, cache.nodes`present, cache.nodes`fsSize, disk`files
      ensures Valid()
      ensures Now() == WithPurged(old(Now()), path, key)
    {
      var cleared := cache.Invalidate(key);
      var unlinked := disk.Unlink(path);
      assert Valid();
      if cleared || unlinked {
        purged := purged + 1;
      }
    }

    /** Writes a surviving file's tags back. */
    method WriteBack(found: Found)
      requires index.Valid()
      modifies `indexed, index, index.nodes, alloc
      ensures index.Valid() && fresh(index.nodes - old(index.nodes))
      ensures Now() == WithWritten(old(Now()), found, alloc.answers)
    {
      var wrote := InsertEach(index, alloc, found.tags, found.key);
      if wrote {
        indexed := indexed + 1;
      }
    }

    /** Writes the tags back under the index's lock; the cache is not touched. */
    method Restore(found: Found)
      requires Valid()
      modifies `indexed, index, index.nodes, alloc
      ensures Valid() && fresh(index.nodes - old(index.nodes))
      ensures Now() == WithWritten(old(Now()), found, alloc.answers)
    {
      WriteBack(found);
    }

    /** Purges a recognised file that carries the tag, writes back the tags of one that does not. */
    method Act(path: Path, found: Found)
      requires Valid() && path in disk.files
      modifies `purged, `indexed, cache`size, cache`content, cache.nodes`present, cache.nodes`fsSize
      modifies disk`files, alloc, index, index.nodes
      ensures Valid() && fresh(index.nodes - old(index.nodes))
      ensures tag in found.tags ==> Now() == WithPurged(old(Now()), path, found.key)
      ensures tag !in found.tags ==> Now() == WithWritten(old(Now()), found, alloc.answers)
    {
      if tag in found.tags {
        PurgeFile(path, found.key);
      } else {
        Restore(found);
      }
    }

    /** Visits one file. */
    method OnFile(path: Path)
      requires Valid()
      modifies this, cache`size, cache`content, cache.nodes`present, cache.nodes`fsSize
      modifies disk`files, alloc, index, index.nodes
      ensures Valid() && fresh(index.nodes - old(index.nodes))
      ensures Now() == VisitFile(old(Now()), path, header, tag, alloc.answers)
    {
      ghost var start := Now();
      var found := Read(path);
      scanned := scanned + 1;
      assert Now() == start.(scanned := start.scanned + 1);
      if found.Some? {
        Act(path, found.value);
      }
    }

    /** Walks the directory, which may end early: `complete` is what the walk itself reports. */
    method Run(order: seq<Path>, complete: bool) returns (ok: bool)
      requires Valid()
      modifies this, cache`size, cache`content, cache.nodes`present, cache.nodes`fsSize
      modifies disk`files, alloc, index, index.nodes
      ensures Valid() && fresh(index.nodes - old(index.nodes))
      ensures Now() == VisitFiles(old(Now()), order, header, tag, alloc.answers)
      ensures ok == complete
    {
      ghost var goal := VisitFiles(Now(), order, header, tag, alloc.answers);
      for i := 0 to |order|
        invariant Valid() && fresh(index.nodes - old(index.nodes))
        invariant VisitFiles(Now(), order[i..], header, tag, alloc.answers) == goal
      {
        assert order[i..][1..] == order[i + 1..];
        OnFile(order[i]);
      }
      ok := complete;
    }
  }

  lemma {:induction false} VisitsGetThere(start: Progress, g: Progress, order: seq<Path>, i: nat, header: Bytes,
                                          tag: Tag, ans: Oracle)
    requires i <= |order| && NoDup(order) && WellFormed(start.index) && Underway(start, g, order, i, header, tag, ans)
    ensures Underway(start, VisitFiles(g, order[i..], header, tag, ans), order, |order|, header, tag, ans)
    decreases |order| - i
  {
    if i < |order| {
      VisitAdvances(start, g, order, i, header, tag, ans);
      assert order[i..][1..] == order[i + 1..];
      VisitsGetThere(start, VisitFile(g, order[i], header, tag, ans), order, i + 1, header, tag, ans);
    }
  }

  /**
   A scan, in whatever order, leaves exactly the files that it does not meet, that do not carry the tag
   or that cannot be unlinked; it has counted the files it met, and as purged exactly those carrying the
   tag that it removed or whose node it cleared: no fewer than it removed, no more than carry the tag. It
   leaves dead exactly the keys of the latter. The index is the one reached by sweeping the files in that
   order.
   */
  lemma ScanOutcome(start: Progress, order: seq<Path>, header: Bytes, tag: Tag, ans: Oracle)
    requires WellFormed(start.index) && NoDup(order)
    ensures var g := VisitFiles(start, order, header, tag, ans);
            && (forall p :: p in g.files <==>
                  p in start.files && !(p in order && Carries(p, start.files[p], header, tag) && p !in start.stuck))
            && (forall p :: p in g.files ==> g.files[p] == start.files[p])
            && g.scanned == start.scanned + |order|
            && g.purged - start.purged == |Effective(start, order, header, tag)|
            && |start.files| - |g.files| <= g.purged - start.purged <= |Matches(order, start.files, header, tag)|
            && (forall k :: IsLive(g.content, k) <==>
                  IsLive(start.content, k) && !exists p :: p in Matches(order, start.files, header, tag) && KeyOf(p) == Some(k))
    ensures var g := VisitFiles(start, order, header, tag, ans);
            var w := SweepAll(start.index, order, start.files, header, tag, ans, start.asked);
            g.index == w.index && g.asked == w.asked && g.indexed == start.indexed + w.indexed
  {
    assert order[..0] == [] && order[0..] == order && order[..|order|] == order && order[|order|..] == [];
    assert Remaining([], start.files, start.stuck, header, tag) == start.files;
    VisitsGetThere(start, start, order, 0, header, tag, ans);
    Arrived(start, VisitFiles(start, order, header, tag, ans), order, header, tag, ans);
  }

  lemma Arrived(start: Progress, g: Progress, order: seq<Path>, header: Bytes, tag: Tag, ans: Oracle)
    requires WellFormed(start.index) && NoDup(order)
    requires Underway(start, g, order, |order|, header, tag, ans)
    ensures forall p :: p in g.files <==>
              p in start.files && !(p in order && Carries(p, start.files[p], header, tag) && p !in start.stuck)
    ensures forall p :: p in g.files ==> g.files[p] == start.files[p]
    ensures g.scanned == start.scanned + |order|
    ensures g.purged - start.purged == |Effective(start, order, header, tag)|
    ensures |start.files| - |g.files| <= g.purged - start.purged <= |Matches(order, start.files, header, tag)|
    ensures forall k :: IsLive(g.content, k) <==>
              IsLive(start.content, k) && !exists p :: p in Matches(order, start.files, header, tag) && KeyOf(p) == Some(k)
  {
    assert order[..|order|] == order;
    var all := Matches(order, start.files, header, tag);
    FilesGone(start.files, all - start.stuck);
    SubsetSize(all - start.stuck, Effective(start, order, header, tag));
    SubsetSize(Effective(start, order, header, tag), all);
    forall k
      ensures IsLive(g.content, k) <==>
              IsLive(start.content, k) && !exists p :: p in Matches(order, start.files, header, tag) && KeyOf(p) == Some(k)
    {
      ClearedAllLives(start.content, MatchedKeys(order, start.files, header, tag), k);
      MatchedKeysAre(order, start.files, header, tag, k);
    }
  }

  lemma FilesGone(files: Files, gone: set<Path>)
    requires gone <= files.Keys
    ensures |files - gone| == |files| - |gone|
  {
    assert (files - gone).Keys == files.Keys - gone;
  }

  /**
   A complete scan in which every unlink succeeds leaves exactly the files that do not carry the tag,
   and counts exactly the files there were and those it removed.
   */
  lemma FullScanOutcome(start: Progress, order: seq<Path>, header: Bytes, tag: Tag, ans: Oracle)
    requires WellFormed(start.index) && NoDup(order) && start.stuck == {}
    requires forall p :: p in order <==> p in start.files
    ensures var g := VisitFiles(start, order, header, tag, ans);
            && (forall p :: p in g.files <==> p in start.files && !Carries(p, start.files[p], header, tag))
            && g.scanned == start.scanned + |start.files|
            && g.purged + |g.files| == start.purged + |start.files|
  {
    ScanOutcome(start, order, header, tag, ans);
    SameCount(order, start.files.Keys);
    var g, gone := VisitFiles(start, order, header, tag, ans), Matches(order, start.files, header, tag);
    assert g.files.Keys == start.files.Keys - gone;
  }

  lemma {:induction false} SameCount(order: seq<Path>, all: set<Path>)
    requires NoDup(order) && forall p :: p in order <==> p in all
    ensures |order| == |all|
  {
    if order != [] {
      var n := |order| - 1;
      assert order == order[..n] + [order[n]];
      NoDupPrefix(order, n);
      assert forall p :: p in order[..n] <==> p in all - {order[n]};
      SameCount(order[..n], all - {order[n]});
    } else {
      assert all == {};
    }
  }
}
