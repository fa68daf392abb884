/** Answering a purge: from the index if it has the tag, from the cache directory if it has not. */
module Purging {
  import opened Types
  import opened IndexModel
  import opened CacheZone
  import opened Scanning
  import Hex
  import IndexHistory
  import TagIndexHeap

  const NO_CONTENT: nat := 204
  const NOT_FOUND: nat := 404

  datatype Source = FromIndex | FromScan

  /** What the index has had to discard. */
  datatype Pressure = Pressure(evicted: nat, dropped: nat)

  datatype Reply =
    | BadRequest
    | Missing  // not in the index, and no scan allowed
    | ServerError  // no buffer, or a walk that failed
    | Report(status: nat, source: Source, purged: nat, scanned: Option<(nat, nat)>, pressure: Pressure)

  // ----- purging the keys the index answered with -----

  /** A key that is live in the zone or has a file that can be unlinked. */
  ghost predicate Cached(content: seq<CacheEntry>, files: Files, stuck: set<Path>, dirOf: CacheKey -> Bytes,
                         key: CacheKey) {
    IsLive(content, key) || (PathOf(dirOf, key) in files && PathOf(dirOf, key) !in stuck)
  }

  ghost function Struck(content: seq<CacheEntry>, files: Files, stuck: set<Path>, dirOf: CacheKey -> Bytes,
                        keys: seq<CacheKey>)
    : set<CacheKey>
  {
    set k | k in keys && Cached(content, files, stuck, dirOf, k)
  }

  ghost function PathsOf(dirOf: CacheKey -> Bytes, keys: seq<CacheKey>): set<Path> {
    set k | k in keys :: PathOf(dirOf, k)
  }

  /** The files left once those of `keys` are gone, but for the stuck ones. */
  ghost function FilesLeft(files: Files, stuck: set<Path>, dirOf: CacheKey -> Bytes, keys: seq<CacheKey>): Files {
    files - (PathsOf(dirOf, keys) - stuck)
  }

  /** With no key listed twice, each key meets the cache as the purge found it. */
  lemma OneMoreKey(content: seq<CacheEntry>, files: Files, stuck: set<Path>, dirOf: CacheKey -> Bytes,
                   keys: seq<CacheKey>, i: nat)
    requires NoDup(keys) && i < |keys|
    ensures IsLive(ClearedAll(content, keys[..i]), keys[i]) <==> IsLive(content, keys[i])
    ensures ClearedAll(content, keys[..i + 1]) == Cleared(ClearedAll(content, keys[..i]), keys[i])
    ensures PathOf(dirOf, keys[i]) in FilesLeft(files, stuck, dirOf, keys[..i]) <==> PathOf(dirOf, keys[i]) in files
    ensures FilesLeft(files, stuck, dirOf, keys[..i + 1]) ==
            Unlinked(FilesLeft(files, stuck, dirOf, keys[..i]), stuck, PathOf(dirOf, keys[i]))
  {
    var key, done := keys[i], keys[..i];
    NoDupPrefix(keys, i);
    assert keys[..i + 1] == done + [key];
    ClearedAllLives(content, done, key);
    ClearedAllSnoc(content, done, key);
    forall k | k in done ensures PathOf(dirOf, k) != PathOf(dirOf, key) { PathsDiffer(dirOf, k, key); }
    assert PathsOf(dirOf, done + [key]) == PathsOf(dirOf, done) + {PathOf(dirOf, key)};
  }

  lemma OneMoreStruck(content: seq<CacheEntry>, files: Files, stuck: set<Path>, dirOf: CacheKey -> Bytes,
                      keys: seq<CacheKey>,
                      i: nat)
    requires NoDup(keys) && i < |keys|
    ensures |Struck(content, files, stuck, dirOf, keys[..i + 1])| == |Struck(content, files, stuck, dirOf, keys[..i])|
            + if Cached(content, files, stuck, dirOf, keys[i]) then 1 else 0
  {
    var key, done := keys[i], keys[..i];
    NoDupPrefix(keys, i);
    assert keys[..i + 1] == done + [key];
    var was, now := Struck(content, files, stuck, dirOf, done), Struck(content, files, stuck, dirOf, done + [key]);
    assert forall k :: k in done + [key] <==> k in done || k == key;
    assert now == if Cached(content, files, stuck, dirOf, key) then was + {key} else was;
  }

  /** Every key is cleared in the zone and its file unlinked; the count is of keys that met either. */
  method PurgeKeys(cache: Cache, disk: Disk, keys: seq<CacheKey>) returns (purged: nat)
    requires cache.Valid() && NoDup(keys)
    modifies cache`size, cache`content, cache.nodes`present, cache.nodes`fsSize, disk`files
    ensures cache.Valid()
    ensures cache.content == ClearedAll(old(cache.content), keys)
    ensures disk.files == FilesLeft(old(disk.files), disk.stuck, disk.dirOf, keys)
    ensures purged == |Struck(old(cache.content), old(disk.files), disk.stuck, disk.dirOf, keys)|
  {
    purged := 0;
    for i := 0 to |keys|
      invariant cache.Valid()
      invariant cache.content == ClearedAll(old(cache.content), keys[..i])
      invariant disk.files == FilesLeft(old(disk.files), disk.stuck, disk.dirOf, keys[..i])
      invariant purged == |Struck(old(cache.content), old(disk.files), disk.stuck, disk.dirOf, keys[..i])|
    {
      OneMoreKey(old(cache.content), old(disk.files), disk.stuck, disk.dirOf, keys, i);
      OneMoreStruck(old(cache.content), old(disk.files), disk.stuck, disk.dirOf, keys, i);
      var cleared := cache.Invalidate(keys[i]);
      var unlinked := disk.DeleteFile(keys[i]);
      if cleared || unlinked {
        purged := purged + 1;
      }
    }
    assert keys[..|keys|] == keys;
  }

  // ----- the handler -----

  /** What a scan has to work with: a buffer or none, the files its walk meets, and whether the walk ends well. */
  datatype Walk = NoBuffer | Walk(order: seq<Path>, complete: bool)

  /** What a purge leaves behind and what it tells its caller. */
  datatype Outcome = Outcome(files: Files, content: seq<CacheEntry>, index: Index, reply: Reply)

  /** The index has the tag: its keys are purged and the answer is 204 even if they were all gone. */
  ghost function FromList(start: Progress, tag: Tag, keys: seq<CacheKey>, dirOf: CacheKey -> Bytes): Outcome
    requires WellFormed(start.index)
  {
    Outcome(FilesLeft(start.files, start.stuck, dirOf, keys),
            ClearedAll(start.content, keys),
            Take(start.index, tag),
            Report(NO_CONTENT, FromIndex, |Struck(start.content, start.files, start.stuck, dirOf, keys)|, None,
                   Pressure(start.index.evicted, start.index.dropped)))
  }

  /** The index does not have the tag: the directory is walked, if that is allowed. */
  ghost function FromDirectory(start: Progress, tag: Tag, fallback: bool, header: Bytes, walk: Walk,
                               ans: Oracle): Outcome
    requires WellFormed(start.index)
  {
    if !fallback then Outcome(start.files, start.content, start.index, Missing)
    else if walk.NoBuffer? then Outcome(start.files, start.content, start.index, ServerError)
    else
      var g := VisitFiles(start, walk.order, header, tag, ans);
      Outcome(g.files, g.content, g.index,
              if !walk.complete then ServerError
              else Report(if g.purged == 0 then NOT_FOUND else NO_CONTENT, FromScan, g.purged, Some((g.scanned, g.indexed)),
                          Pressure(g.index.evicted, g.index.dropped)))
  }

  ghost function Answer(start: Progress, request: Option<Bytes>, fallback: bool, header: Bytes, walk: Walk,
                        dirOf: CacheKey -> Bytes, ans: Oracle): Outcome
    requires WellFormed(start.index)
  {
    if request.None? || |request.value| > MAX_TAG_LEN then
      Outcome(start.files, start.content, start.index, BadRequest)
    else
      match Answered(start.index, request.value)
      case Some(keys) => FromList(start, request.value, keys, dirOf)
      case None => FromDirectory(start, request.value, fallback, header, walk, ans)
  }

  lemma AnswerHasNoDup(s: Index, tag: Tag)
    requires WellFormed(s) && Holds(s.rows, tag)
    ensures NoDup(Answered(s, tag).value)
  {
    assert RowOk(s.rows[Find(s.rows, tag)]);
  }

  /** A scan that has not visited anything yet. */
  ghost function Before(cache: Cache, disk: Disk, index: TagIndexHeap.TagIndex, alloc: TagIndexHeap.Slab): Progress
    reads cache, disk, index, alloc
  {
    Progress(disk.stuck, disk.files, cache.content, index.value, alloc.asked, 0, 0, 0)
  }

  /** Takes the tag's keys under the index's lock; the cache is not touched. */
  method TakeKeys(tag: Tag, cache: Cache, index: TagIndexHeap.TagIndex) returns (keys: Option<seq<CacheKey>>,
                  pressure: Pressure)
    requires cache.Valid() && index.Valid()
    modifies index, index.nodes
    ensures cache.Valid() && index.Valid() && index.nodes == old(index.nodes)
    ensures keys == Answered(old(index.value), tag) && index.value == Take(old(index.value), tag)
    ensures keys.Some? ==> NoDup(keys.value)
    ensures pressure == Pressure(old(index.value).evicted, old(index.value).dropped)
  {
    if Holds(index.value.rows, tag) { AnswerHasNoDup(index.value, tag); }
    keys := index.Take(tag);
    pressure := Pressure(index.evicted, index.dropped);
  }

  /** Purges keys with the index's lock released; the index is not touched. */
  method PurgeTaken(keys: seq<CacheKey>, cache: Cache, disk: Disk, index: TagIndexHeap.TagIndex) returns (purged: nat)
    requires cache.Valid() && index.Valid() && NoDup(keys)
    modifies cache`size, cache`content, cache.nodes`present, cache.nodes`fsSize, disk`files
    ensures cache.Valid() && index.Valid()
    ensures cache.content == ClearedAll(old(cache.content), keys)
    ensures disk.files == FilesLeft(old(disk.files), disk.stuck, disk.dirOf, keys)
    ensures purged == |Struck(old(cache.content), old(disk.files), disk.stuck, disk.dirOf, keys)|
  {
    purged := PurgeKeys(cache, disk, keys);
  }

  /** Answers one purge request; `walk` is how a scan would go. */
  method Handle(request: Option<Bytes>, fallback: bool, header: Bytes, walk: Walk,
                cache: Cache, disk: Disk, index: TagIndexHeap.TagIndex, alloc: TagIndexHeap.Slab) returns (reply: Reply)
    requires cache.Valid() && index.Valid()
    modifies cache`size, cache`content, cache.nodes`present, cache.nodes`fsSize, disk`files, index, index.nodes, alloc
    ensures cache.Valid() && index.Valid()
    ensures Outcome(disk.files, cache.content, index.value, reply)
         == Answer(old(Before(cache, disk, index, alloc)), request, fallback, header, walk, disk.dirOf, alloc.answers)
  {
    if request.None? || |request.value| > MAX_TAG_LEN {
      return BadRequest;
    }
    var tag := request.value;
    var keys, pressure := TakeKeys(tag, cache, index);
    if keys.None? {
      reply := FallBack(tag, fallback, header, walk, cache, disk, index, alloc);
    } else {
      var purged := PurgeTaken(keys.value, cache, disk, index);
      reply := Report(NO_CONTENT, FromIndex, purged, None, pressure);
    }
  }

  method FallBack(tag: Tag, fallback: bool, header: Bytes, walk: Walk,
                  cache: Cache, disk: Disk, index: TagIndexHeap.TagIndex, alloc: TagIndexHeap.Slab) returns (reply: Reply)
    requires cache.Valid() && index.Valid()
    modifies cache`size, cache`content, cache.nodes`present, cache.nodes`fsSize, disk`files, index, index.nodes, alloc
    ensures cache.Valid() && index.Valid()
    ensures Outcome(disk.files, cache.content, index.value, reply)
         == FromDirectory(old(Before(cache, disk, index, alloc)), tag, fallback, header, walk, alloc.answers)
  {
    if !fallback {
      return Missing;
    }
    if walk.NoBuffer? {
      return ServerError;
    }
    var scan := new Scan(tag, header, cache, disk, index, alloc);
    ghost var start := scan.Now();
    var ok := scan.Run(walk.order, walk.complete);
    assert scan.Now() == VisitFiles(start, walk.order, header, tag, alloc.answers);
    if !ok {
      return ServerError;
    }
    var status := if scan.purged == 0 then NOT_FOUND else NO_CONTENT;
    reply := Report(status, FromScan, scan.purged, Some((scan.scanned, scan.indexed)), Pressure(index.evicted, index.dropped));
  }

  // ----- when an index answer is complete -----

  /** Every file that names a key lies where NGINX puts that key's file. */
  ghost predicate WellNamed(files: Files, dirOf: CacheKey -> Bytes) {
    forall p :: p in files && Hex.KeyOf(p).Some? ==> p == PathOf(dirOf, Hex.KeyOf(p).value)
  }

  /** No file carrying the tag is left. */
  ghost predicate Clean(files: Files, header: Bytes, tag: Tag) {
    forall p :: p in files ==> !Carries(p, files[p], header, tag)
  }

  /**
   A purge answered from the index leaves no file carrying the tag exactly when, for each file that
   carries it, the file can be unlinked and the history shows its key added to the tag and not lost
   since: neither dropped from the list nor evicted or taken with it.
   */
  lemma IndexAnswerExact(s: Index, tag: Tag, files: Files, stuck: set<Path>, dirOf: CacheKey -> Bytes, header: Bytes)
    requires IndexHistory.Tracks(s) && Holds(s.rows, tag) && WellNamed(files, dirOf)
    ensures Clean(FilesLeft(files, stuck, dirOf, Answered(s, tag).value), header, tag) <==>
            forall p :: p in files && Carries(p, files[p], header, tag) ==>
              p !in stuck && IndexHistory.Survives(s.log, tag, Hex.KeyOf(p).value)
  {
    var keys := Answered(s, tag).value;
    var left := FilesLeft(files, stuck, dirOf, keys);
    assert IndexHistory.KeysAt(s, tag);
    forall p | p in files && Carries(p, files[p], header, tag)
      ensures p in PathsOf(dirOf, keys) <==> IndexHistory.Survives(s.log, tag, Hex.KeyOf(p).value)
    {
      var key := Hex.KeyOf(p).value;
      forall k | k in keys && PathOf(dirOf, k) == p ensures k == key { PathsDiffer(dirOf, k, key); }
    }
    assert forall p :: p in left <==> p in files && !(p in PathsOf(dirOf, keys) && p !in stuck);
    assert forall p :: p in left ==> left[p] == files[p];
  }

  /**
   A purge of an acceptable length, run alone, leaves no file carrying its tag exactly when there was
   none, or each of them can be unlinked and: the index holds the tag and has lost none of their keys;
   or it does not hold the tag, a scan is allowed and made, and its walk meets them all. Whatever it
   removes carried the tag or was listed under it.
   */
  lemma PurgeCompleteIff(start: Progress, tag: Tag, fallback: bool, header: Bytes, walk: Walk,
                         dirOf: CacheKey -> Bytes, ans: Oracle)
    requires IndexHistory.Tracks(start.index) && WellNamed(start.files, dirOf) && |tag| <= MAX_TAG_LEN
    requires walk.Walk? ==> NoDup(walk.order)
    ensures var out := Answer(start, Some(tag), fallback, header, walk, dirOf, ans);
            && (Clean(out.files, header, tag) <==>
                  forall p :: p in start.files && Carries(p, start.files[p], header, tag) ==>
                    && p !in start.stuck
                    && if Holds(start.index.rows, tag) then IndexHistory.Survives(start.index.log, tag, Hex.KeyOf(p).value)
                       else fallback && walk.Walk? && p in walk.order)
            && (forall p :: p in out.files ==> p in start.files && out.files[p] == start.files[p])
            && (forall p :: p in start.files && p !in out.files ==>
                  Carries(p, start.files[p], header, tag) || p in PathsOf(dirOf, ListOf(start.index, tag)))
  {
    if Holds(start.index.rows, tag) {
      IndexAnswerExact(start.index, tag, start.files, start.stuck, dirOf, header);
    } else if fallback && walk.Walk? {
      ScanOutcome(start, walk.order, header, tag, ans);
    }
  }

  // ----- what a purge says -----

  /** Exactly a missing tag, or one of more than 1024 bytes, is refused, and then nothing happens. */
  lemma BadRequestIff(start: Progress, request: Option<Bytes>, fallback: bool, header: Bytes, walk: Walk,
                      dirOf: CacheKey -> Bytes, ans: Oracle)
    requires WellFormed(start.index)
    ensures var out := Answer(start, request, fallback, header, walk, dirOf, ans);
            && (out.reply.BadRequest? <==> request.None? || |request.value| > 1024)
            && (out.reply.BadRequest? ==> out == Outcome(start.files, start.content, start.index, out.reply))
  {
  }

  /**
   A tag that is held is answered with 204 from the index: the count is of the listed keys that were live
   or had a file that could be unlinked, and the pressure is as the take found it. Exactly the listed keys
   are dead and exactly their files gone, but for those that cannot be unlinked, and the tag is held no more.
   */
  lemma HeldTagReply(start: Progress, tag: Tag, fallback: bool, header: Bytes, walk: Walk, dirOf: CacheKey -> Bytes, ans: Oracle)
    requires WellFormed(start.index) && |tag| <= 1024 && Holds(start.index.rows, tag)
    ensures var out, list := Answer(start, Some(tag), fallback, header, walk, dirOf, ans), ListOf(start.index, tag);
            var met := set k | k in list &&
                         (IsLive(start.content, k) || (PathOf(dirOf, k) in start.files && PathOf(dirOf, k) !in start.stuck));
            && out.reply == Report(204, FromIndex, |met|, None, Pressure(start.index.evicted, start.index.dropped))
            && (forall k :: IsLive(out.content, k) <==> IsLive(start.content, k) && k !in list)
            && (forall p :: p in out.files <==>
                  p in start.files && (p in start.stuck || forall k :: k in list ==> p != PathOf(dirOf, k)))
            && !Holds(out.index.rows, tag)
  {
    var out, list := Answer(start, Some(tag), fallback, header, walk, dirOf, ans), ListOf(start.index, tag);
    var met := set k | k in list &&
                 (IsLive(start.content, k) || (PathOf(dirOf, k) in start.files && PathOf(dirOf, k) !in start.stuck));
    assert met == Struck(start.content, start.files, start.stuck, dirOf, list);
    forall k ensures IsLive(out.content, k) <==> IsLive(start.content, k) && k !in list {
      ClearedAllLives(start.content, list, k);
    }
    FindAfterRemove(start.index.rows, Find(start.index.rows, tag), tag);
  }

  /** A tag that is not held is missing if no scan is allowed; without a buffer, or if the walk fails, that is an error. */
  lemma NoScanReply(start: Progress, tag: Tag, fallback: bool, header: Bytes, walk: Walk, dirOf: CacheKey -> Bytes, ans: Oracle)
    requires WellFormed(start.index) && |tag| <= 1024 && !Holds(start.index.rows, tag)
    ensures var out := Answer(start, Some(tag), fallback, header, walk, dirOf, ans);
            && (out.reply.Missing? <==> !fallback)
            && (out.reply.ServerError? <==> fallback && (walk.NoBuffer? || !walk.complete))
            && (!fallback || walk.NoBuffer? ==> out == Outcome(start.files, start.content, start.index, out.reply))
  {
  }

  /**
   A scan that ends well is answered with 404 if it purged nothing and 204 otherwise, with how many files
   it purged, met and wrote back, and with what the index has discarded by then.
   */
  lemma ScanReply(start: Progress, tag: Tag, header: Bytes, walk: Walk, dirOf: CacheKey -> Bytes, ans: Oracle)
    returns (written: seq<bool>)
    requires WellFormed(start.index) && |tag| <= 1024 && !Holds(start.index.rows, tag)
    requires walk.Walk? && walk.complete && NoDup(walk.order)
    requires start.scanned == start.purged == start.indexed == 0
    ensures |written| == |walk.order|
    ensures forall i :: 0 <= i < |written| ==>
              (written[i] <==> WrittenAt(start.index, walk.order, start.files, header, tag, ans, start.asked, i))
    ensures var out, purged := Answer(start, Some(tag), true, header, walk, dirOf, ans), |Effective(start, walk.order, header, tag)|;
            && out.reply == Report(if purged == 0 then 404 else 204, FromScan, purged,
                                   Some((|walk.order|, |TrueAt(written)|)), Pressure(out.index.evicted, out.index.dropped))
            && (forall k :: IsLive(out.content, k) <==>
                  IsLive(start.content, k) &&
                  !exists p :: p in Matches(walk.order, start.files, header, tag) && Hex.KeyOf(p) == Some(k))
  {
    ScanOutcome(start, walk.order, header, tag, ans);
    written := IndexedCounts(start.index, walk.order, start.files, header, tag, ans, start.asked);
  }

  /** With nothing stuck, the count is of the files removed, and 404 says that none was. */
  lemma FreeScanReply(start: Progress, tag: Tag, header: Bytes, walk: Walk, dirOf: CacheKey -> Bytes, ans: Oracle)
    requires WellFormed(start.index) && |tag| <= 1024 && !Holds(start.index.rows, tag)
    requires walk.Walk? && walk.complete && NoDup(walk.order) && start.stuck == {}
    requires start.scanned == start.purged == start.indexed == 0
    ensures var out := Answer(start, Some(tag), true, header, walk, dirOf, ans);
            && out.reply.Report? && out.reply.source == FromScan && out.reply.purged == |start.files| - |out.files|
            && out.reply.scanned.Some? && out.reply.scanned.value.0 == |walk.order|
            && out.reply.status == (if out.files == start.files then 404 else 204)
            && out.reply.pressure == Pressure(out.index.evicted, out.index.dropped)
  {
    ScanOutcome(start, walk.order, header, tag, ans);
    var out := Answer(start, Some(tag), true, header, walk, dirOf, ans);
    var gone := Matches(walk.order, start.files, header, tag);
    assert Effective(start, walk.order, header, tag) == gone;
    assert out.files == start.files - gone;
    FilesGone(start.files, gone);
    if gone == {} {
      assert out.files == start.files;
    } else {
      var p :| p in gone;
      assert p in start.files && p !in out.files;
    }
  }
}
