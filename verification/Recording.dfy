/** Recording a response: every tag of its first matching header, under one write lock. */
module Recording {
  import opened Types
  import opened IndexModel
  import Headers
  import IndexHistory
  import IndexRuns
  import InsertShape
  import TagIndexHeap
  import Tags

  /** Outcome of inserting several tags; `failures` counts refused inserts of tags that are not over-long. */
  datatype Batch = Batch(index: Index, asked: nat, wrote: bool, failures: nat)

  function InsertAll(s: Index, tags: seq<Tag>, key: CacheKey, ans: Oracle, n: nat): Batch
    requires WellFormed(s)
    decreases tags
  {
    if tags == [] then Batch(s, n, false, 0)
    else
      InsertKeepsWellFormed(s, tags[0], key, ans, n);
      var a := Insert(s, tags[0], key, ans, n);
      var b := InsertAll(a.index, tags[1..], key, ans, a.asked);
      var failed := if !a.ok && Acceptable(tags[0]) then 1 else 0;
      Batch(b.index, b.asked, a.ok || b.wrote, failed + b.failures)
  }

  lemma {:induction false} InsertAllKeepsWellFormed(s: Index, tags: seq<Tag>, key: CacheKey, ans: Oracle, n: nat)
    requires WellFormed(s)
    ensures WellFormed(InsertAll(s, tags, key, ans, n).index)
    decreases tags
  {
    if tags != [] {
      InsertKeepsWellFormed(s, tags[0], key, ans, n);
      var a := Insert(s, tags[0], key, ans, n);
      InsertAllKeepsWellFormed(a.index, tags[1..], key, ans, a.asked);
    }
  }

  lemma {:induction false} InsertAllTracks(s: Index, tags: seq<Tag>, key: CacheKey, ans: Oracle, n: nat)
    requires IndexHistory.Tracks(s)
    ensures IndexHistory.Tracks(InsertAll(s, tags, key, ans, n).index)
    decreases tags
  {
    if tags != [] {
      IndexRuns.InsertTracks(s, tags[0], key, ans, n);
      var a := Insert(s, tags[0], key, ans, n);
      InsertAllTracks(a.index, tags[1..], key, ans, a.asked);
    }
  }

  lemma InsertOnlyAdvances(s: Index, tag: Tag, key: CacheKey, ans: Oracle, n: nat)
    requires WellFormed(s)
    ensures var a := Insert(s, tag, key, ans, n).index; a.evicted >= s.evicted && a.dropped >= s.dropped
  {
    if Acceptable(tag) { InsertShape.InsertHasShape(s, tag, key, ans, n); }
  }

  lemma {:induction false} InsertAllOnlyAdvances(s: Index, tags: seq<Tag>, key: CacheKey, ans: Oracle, n: nat)
    requires WellFormed(s)
    ensures var b := InsertAll(s, tags, key, ans, n).index; b.evicted >= s.evicted && b.dropped >= s.dropped
    decreases tags
  {
    if tags != [] {
      InsertKeepsWellFormed(s, tags[0], key, ans, n);
      InsertOnlyAdvances(s, tags[0], key, ans, n);
      var a := Insert(s, tags[0], key, ans, n);
      InsertAllOnlyAdvances(a.index, tags[1..], key, ans, a.asked);
    }
  }

  /** Nothing was evicted or dropped between two states of the index. */
  predicate Quiet(before: Index, after: Index) {
    after.evicted == before.evicted && after.dropped == before.dropped
  }

  /** A batch that failed, evicted and dropped nothing added the key to each acceptable tag and nothing else. */
  lemma {:induction false} QuietInsertAll(s: Index, tags: seq<Tag>, key: CacheKey, ans: Oracle, n: nat, t: Tag,
                                          k: CacheKey)
    requires WellFormed(s)
    requires var b := InsertAll(s, tags, key, ans, n); b.failures == 0 && Quiet(s, b.index)
    ensures k in ListOf(InsertAll(s, tags, key, ans, n).index, t) <==>
            k in ListOf(s, t) || (k == key && t in tags && Acceptable(t))
    decreases tags
  {
    if tags != [] {
      var tag := tags[0];
      InsertKeepsWellFormed(s, tag, key, ans, n);
      var a := Insert(s, tag, key, ans, n);
      InsertOnlyAdvances(s, tag, key, ans, n);
      InsertAllOnlyAdvances(a.index, tags[1..], key, ans, a.asked);
      QuietInsertAll(a.index, tags[1..], key, ans, a.asked, t, k);
      if Acceptable(tag) { InsertShape.QuietInsert(s, tag, key, ans, n, t); }
      assert tags == [tag] + tags[1..];
    }
  }

  /** A tag that is not held, and not among those inserted, is still not held. */
  lemma InsertKeepsAbsent(s: Index, tag: Tag, key: CacheKey, ans: Oracle, n: nat, t: Tag)
    requires WellFormed(s) && t != tag && !Holds(s.rows, t)
    ensures !Holds(Insert(s, tag, key, ans, n).index.rows, t)
  {
    if Acceptable(tag) {
      InsertShape.InsertHasShape(s, tag, key, ans, n);
      InsertShape.MentionKeepsLists(s, tag, t);
      var m, a := Mention(s, tag).rows, Insert(s, tag, key, ans, n);
      var kept := m[..|m| - (a.index.evicted - s.evicted)];
      AbsentFromPrefix(m, |kept|, t);
      if a.ok { AbsentFromRecorded(a.index.rows, kept, tag, key, t); }
    }
  }

  lemma AbsentFromRecorded(rows: seq<Row>, kept: seq<Row>, tag: Tag, key: CacheKey, t: Tag)
    requires InsertShape.Recorded(rows, kept, tag, key) && t != tag && !Holds(kept, t)
    ensures !Holds(rows, t)
  {
    assert forall i :: 0 <= i < |kept| ==> kept[i].tag != t;
    assert forall i :: 0 < i < |rows| ==> rows[i] == rows[1..][i - 1];
  }

  lemma {:induction false} InsertAllKeepsAbsent(s: Index, tags: seq<Tag>, key: CacheKey, ans: Oracle, n: nat, t: Tag)
    requires WellFormed(s) && t !in tags && !Holds(s.rows, t)
    ensures !Holds(InsertAll(s, tags, key, ans, n).index.rows, t)
    decreases tags
  {
    if tags != [] {
      InsertKeepsWellFormed(s, tags[0], key, ans, n);
      InsertKeepsAbsent(s, tags[0], key, ans, n, t);
      var a := Insert(s, tags[0], key, ans, n);
      InsertAllKeepsAbsent(a.index, tags[1..], key, ans, a.asked, t);
    }
  }

  /** What one response leaves in the index: nothing unless it is cached and carries the header. */
  function Noted(s: Index, headers: seq<Headers.Header>, name: Bytes, key: Option<CacheKey>, ans: Oracle, n: nat): Batch
    requires WellFormed(s)
  {
    var value := Headers.LiveValue(headers, name);
    if key.None? || value.None? then Batch(s, n, false, 0)
    else InsertAll(s, Tags.SplitTags(value.value), key.value, ans, n)
  }

  lemma {:induction false} LiveValueSkips(headers: seq<Headers.Header>, name: Bytes, i: nat)
    requires i <= |headers|
    requires forall j :: 0 <= j < i ==> !EqIgnoreCase(headers[j].name, name)
    ensures Headers.LiveValue(headers, name) == Headers.LiveValue(headers[i..], name)
  {
    if i > 0 {
      assert headers[1..][i - 1..] == headers[i..];
      LiveValueSkips(headers[1..], name, i - 1);
    }
  }

  /** Reads the tag header off the live response. */
  method CollectTags(headers: seq<Headers.Header>, name: Bytes) returns (tags: Option<Bytes>)
    ensures tags == Headers.LiveValue(headers, name)
  {
    tags := None;
    for i := 0 to |headers|
      invariant tags == None
      invariant forall j :: 0 <= j < i ==> !EqIgnoreCase(headers[j].name, name)
    {
      if EqIgnoreCase(headers[i].name, name) {
        LiveValueSkips(headers, name, i);
        return Some(headers[i].value);
      }
    }
    LiveValueSkips(headers, name, |headers|);
  }

  /** Records one response on its way into the cache. */
  method Record(index: TagIndexHeap.TagIndex, alloc: TagIndexHeap.Slab, headers: seq<Headers.Header>, name: Bytes,
                key: Option<CacheKey>)
    requires index.Valid()
    modifies index, index.nodes, alloc
    ensures index.Valid() && fresh(index.nodes - old(index.nodes))
    ensures var b := Noted(old(index.value), headers, name, key, alloc.answers, old(alloc.asked));
            index.value == b.index && alloc.asked == b.asked
  {
    if key.None? {
      return;
    }
    var tags := CollectTags(headers, name);
    if tags.None? {
      return;
    }
    var wrote := InsertEach(index, alloc, Tags.SplitTags(tags.value), key.value);
  }

  /** The insert loop shared by recording and scanning; one refused tag does not stop the others. */
  method InsertEach(index: TagIndexHeap.TagIndex, alloc: TagIndexHeap.Slab, tags: seq<Tag>,
                    key: CacheKey) returns (wrote: bool)
    requires index.Valid()
    modifies index, index.nodes, alloc
    ensures index.Valid() && fresh(index.nodes - old(index.nodes))
    ensures var b := InsertAll(old(index.value), tags, key, alloc.answers, old(alloc.asked));
            index.value == b.index && alloc.asked == b.asked && wrote == b.wrote
  {
    wrote := false;
    ghost var goal := InsertAll(index.value, tags, key, alloc.answers, alloc.asked);
    for i := 0 to |tags|
      invariant index.Valid() && fresh(index.nodes - old(index.nodes))
      invariant var b := InsertAll(index.value, tags[i..], key, alloc.answers, alloc.asked);
                b.index == goal.index && b.asked == goal.asked && (wrote || b.wrote) == goal.wrote
    {
      assert tags[i..][1..] == tags[i + 1..];
      InsertKeepsWellFormed(index.value, tags[i], key, alloc.answers, alloc.asked);
      var ok := index.Insert(alloc, tags[i], key);
      wrote := wrote || ok;
    }
  }

  // ----- a batch goes on past a refusal -----

  /** A batch of `x + y` is `x`, then `y` from where `x` ended. */
  lemma {:induction false} InsertAllConcat(s: Index, x: seq<Tag>, y: seq<Tag>, key: CacheKey, ans: Oracle, n: nat)
    requires WellFormed(s)
    ensures var a := InsertAll(s, x, key, ans, n);
            && WellFormed(a.index)
            && var b := InsertAll(a.index, y, key, ans, a.asked);
               InsertAll(s, x + y, key, ans, n) == Batch(b.index, b.asked, a.wrote || b.wrote, a.failures + b.failures)
    decreases x
  {
    if x == [] {
      assert x + y == y;
    } else {
      assert (x + y)[0] == x[0] && (x + y)[1..] == x[1..] + y;
      InsertKeepsWellFormed(s, x[0], key, ans, n);
      var i := Insert(s, x[0], key, ans, n);
      InsertAllConcat(i.index, x[1..], y, key, ans, i.asked);
    }
  }

  /** A batch of one tag is one insert; it fails if the tag has 1 to 1024 bytes and is refused. */
  lemma InsertAllOne(s: Index, tag: Tag, key: CacheKey, ans: Oracle, n: nat)
    requires WellFormed(s)
    ensures var a := Insert(s, tag, key, ans, n);
            InsertAll(s, [tag], key, ans, n) ==
              Batch(a.index, a.asked, a.ok, if !a.ok && 1 <= |tag| <= 1024 then 1 else 0)
  {
    InsertKeepsWellFormed(s, tag, key, ans, n);
    var a := Insert(s, tag, key, ans, n);
    var rest: seq<Tag> := [tag][1..];
    assert rest == [] && InsertAll(a.index, rest, key, ans, a.asked) == Batch(a.index, a.asked, false, 0);
  }

  lemma InsertAllSnoc(s: Index, tags: seq<Tag>, tag: Tag, key: CacheKey, ans: Oracle, n: nat)
    requires WellFormed(s)
    ensures var b := InsertAll(s, tags, key, ans, n);
            && WellFormed(b.index)
            && var a := Insert(b.index, tag, key, ans, b.asked);
               InsertAll(s, tags + [tag], key, ans, n) ==
                 Batch(a.index, a.asked, b.wrote || a.ok, b.failures + if !a.ok && 1 <= |tag| <= 1024 then 1 else 0)
  {
    InsertAllConcat(s, tags, [tag], key, ans, n);
    var b := InsertAll(s, tags, key, ans, n);
    InsertAllOne(b.index, tag, key, ans, b.asked);
  }

  /** The tags of 1 to 1024 bytes, in order. */
  function OfLength(tags: seq<Tag>): seq<Tag> {
    if tags == [] then [] else (if 1 <= |tags[0]| <= 1024 then [tags[0]] else []) + OfLength(tags[1..])
  }

  lemma OfLengthOne(tag: Tag)
    ensures OfLength([tag]) == if 1 <= |tag| <= 1024 then [tag] else []
  {
    var rest: seq<Tag> := [tag][1..];
    assert rest == [];
  }

  lemma InsertNames(s: Index, tag: Tag, key: CacheKey, ans: Oracle, n: nat)
    requires WellFormed(s)
    ensures IndexRuns.NamedIn(Insert(s, tag, key, ans, n).index.log) == IndexRuns.NamedIn(s.log) + OfLength([tag])
  {
    OfLengthOne(tag);
    if Acceptable(tag) {
      var left := InsertRetries(s, tag, key, ans, n);
      IndexRuns.AttemptsNameNothing(Mention(s, tag), tag, key, ans, n, left);
    }
  }

  lemma Associates(a: seq<Tag>, b: seq<Tag>, c: seq<Tag>)
    ensures a + b + c == a + (b + c)
  {
  }

  /** Every tag of acceptable length is tried, in order, whatever became of those before it. */
  lemma {:induction false} InsertAllNames(s: Index, tags: seq<Tag>, key: CacheKey, ans: Oracle, n: nat)
    returns (named: seq<Tag>)
    requires WellFormed(s)
    ensures named == IndexRuns.NamedIn(InsertAll(s, tags, key, ans, n).index.log)
    ensures named == IndexRuns.NamedIn(s.log) + OfLength(tags)
    decreases tags
  {
    if tags == [] {
      named := IndexRuns.NamedIn(s.log);
      assert named == named + [];
    } else {
      InsertKeepsWellFormed(s, tags[0], key, ans, n);
      InsertNames(s, tags[0], key, ans, n);
      var a := Insert(s, tags[0], key, ans, n);
      named := InsertAllNames(a.index, tags[1..], key, ans, a.asked);
      OfLengthOne(tags[0]);
      Associates(IndexRuns.NamedIn(s.log), OfLength([tags[0]]), OfLength(tags[1..]));
    }
  }

  /** The insert of the `j`th tag of a batch. */
  function InsertAt(s: Index, tags: seq<Tag>, key: CacheKey, ans: Oracle, n: nat, j: nat): Attempt
    requires WellFormed(s) && j < |tags|
  {
    InsertAllKeepsWellFormed(s, tags[..j], key, ans, n);
    var b := InsertAll(s, tags[..j], key, ans, n);
    Insert(b.index, tags[j], key, ans, b.asked)
  }

  lemma InsertAtPrefix(s: Index, tags: seq<Tag>, tag: Tag, key: CacheKey, ans: Oracle, n: nat, j: nat)
    requires WellFormed(s) && j < |tags|
    ensures InsertAt(s, tags + [tag], key, ans, n, j) == InsertAt(s, tags, key, ans, n, j)
  {
    assert (tags + [tag])[..j] == tags[..j];
  }

  lemma InsertAtLast(s: Index, tags: seq<Tag>, tag: Tag, key: CacheKey, ans: Oracle, n: nat)
    requires WellFormed(s)
    ensures var b, c := InsertAll(s, tags, key, ans, n), InsertAll(s, tags + [tag], key, ans, n);
            var ok := InsertAt(s, tags + [tag], key, ans, n, |tags|).ok;
            && (c.wrote <==> b.wrote || ok)
            && c.failures == b.failures + if !ok && 1 <= |tag| <= 1024 then 1 else 0
  {
    assert (tags + [tag])[..|tags|] == tags;
    InsertAllSnoc(s, tags, tag, key, ans, n);
  }

  /** The places of the tags of 1 to 1024 bytes whose insert did not succeed. */
  ghost function Refusals(tags: seq<Tag>, oks: seq<bool>): set<int>
    requires |oks| == |tags|
  {
    set j | 0 <= j < |tags| && !oks[j] && 1 <= |tags[j]| <= 1024
  }

  lemma OneMoreOutcome(tags: seq<Tag>, oks: seq<bool>, tag: Tag, ok: bool)
    requires |oks| == |tags|
    ensures |Refusals(tags + [tag], oks + [ok])| == |Refusals(tags, oks)| + if !ok && 1 <= |tag| <= 1024 then 1 else 0
    ensures true in oks + [ok] <==> true in oks || ok
  {
    var was, now := Refusals(tags, oks), Refusals(tags + [tag], oks + [ok]);
    assert now == if !ok && 1 <= |tag| <= 1024 then was + {|tags|} else was;
    assert ok ==> (oks + [ok])[|oks|] == true;
  }

  /** A batch wrote if some insert of it succeeded; its failures are the inserts of acceptable length that did not. */
  lemma {:induction false} BatchCounts(s: Index, tags: seq<Tag>, key: CacheKey, ans: Oracle, n: nat) returns (oks: seq<bool>)
    requires WellFormed(s)
    ensures |oks| == |tags| && forall j :: 0 <= j < |tags| ==> oks[j] == InsertAt(s, tags, key, ans, n, j).ok
    ensures InsertAll(s, tags, key, ans, n).wrote <==> true in oks
    ensures InsertAll(s, tags, key, ans, n).failures == |Refusals(tags, oks)|
    decreases |tags|
  {
    oks := [];
    if tags != [] {
      var last := |tags| - 1;
      var some, tag := tags[..last], tags[last];
      assert tags == some + [tag];
      oks := BatchCounts(s, some, key, ans, n);
      InsertAtLast(s, some, tag, key, ans, n);
      forall j | 0 <= j < last ensures InsertAt(s, tags, key, ans, n, j).ok == oks[j] {
        InsertAtPrefix(s, some, tag, key, ans, n, j);
      }
      var ok := InsertAt(s, tags, key, ans, n, last).ok;
      OneMoreOutcome(some, oks, tag, ok);
      oks := oks + [ok];
    }
  }
}
