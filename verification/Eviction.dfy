/** Inserts into an index short of memory: what they evict, and what is left of a tag whose insert failed. */
module Eviction {
  import opened Types
  import opened IndexModel
  import InsertShape
  import IndexRuns

  ghost predicate Grants(ans: Oracle, n: nat) {
    ans(n).Granted? && ans(n + 1).Granted? && ans(n + 2).Granted? && ans(n + 3).Granted?
  }

  /** With memory to spare, a tag not held is created at the front. */
  lemma InsertNew(s: Index, tag: Tag, key: CacheKey, ans: Oracle, n: nat)
    requires WellFormed(s) && Acceptable(tag) && !Holds(s.rows, tag) && Grants(ans, n)
    ensures var a := Insert(s, tag, key, ans, n);
            && a.ok && a.asked == n + 4
            && a.index == PushRow(Mention(s, tag), tag, key, 1 + ans(n + 2).slack)
  {
    MentionKeepsWellFormed(s, tag);
    AttemptsUnfold(Mention(s, tag), tag, key, ans, n, EVICT_ATTEMPTS);
  }

  /** Refused once, creating evicts the coldest tag and takes its place. */
  lemma InsertEvicting(s: Index, tag: Tag, key: CacheKey, ans: Oracle, n: nat)
    requires WellFormed(s) && Acceptable(tag) && !Holds(s.rows, tag) && s.rows != []
    requires ans(n).Refused? && Grants(ans, n + 1)
    ensures var a := Insert(s, tag, key, ans, n);
            && a.ok && a.asked == n + 5 && a.index.evicted == s.evicted + 1 && a.index.dropped == s.dropped
            && a.index.rows == [Row(tag, [key], 1 + ans(n + 3).slack)] + s.rows[..|s.rows| - 1]
  {
    MentionKeepsWellFormed(s, tag);
    var m := Mention(s, tag);
    AttemptsUnfold(m, tag, key, ans, n, EVICT_ATTEMPTS);
    AbsentFromPrefix(s.rows, |s.rows| - 1, tag);
    AttemptsUnfold(Evict(m), tag, key, ans, n + 1, EVICT_ATTEMPTS - 1);
  }

  /** A list that must ask the slab to grow before it can take `key`. */
  predicate Stuck(r: Row, key: CacheKey) {
    key !in r.keys && |r.keys| < MAX_KEYS_PER_TAG && |r.keys| >= r.cap
  }

  predicate RefusedThroughout(ans: Oracle, n: nat, times: nat) {
    forall j :: n <= j < n + times ==> ans(j).Refused?
  }

  lemma RefusedOnceMore(ans: Oracle, n: nat, times: nat)
    ensures RefusedThroughout(ans, n, times + 1) <==> ans(n).Refused? && RefusedThroughout(ans, n + 1, times)
  {
    assert RefusedThroughout(ans, n, times + 1) ==> ans(n).Refused?;
  }

  /** An empty index has nothing to evict: a creation is granted at once or not at all. */
  lemma AttemptsOnEmpty(s: Index, tag: Tag, key: CacheKey, ans: Oracle, n: nat, left: nat)
    requires WellFormed(s) && Acceptable(tag) && s.rows == []
    ensures var a := Attempts(s, tag, key, ans, n, left);
            a.index.evicted == s.evicted && (a.ok <==> 0 < left && AskAll(ans, n).ok)
  {
    if left > 0 { AttemptsUnfold(s, tag, key, ans, n, left); }
  }

  lemma {:induction false} AttemptsEvictAllIff(s: Index, tag: Tag, key: CacheKey, ans: Oracle, n: nat, left: nat)
    requires WellFormed(s) && Acceptable(tag) && Holds(s.rows, tag) && s.rows[0].tag == tag
    ensures var a, rows := Attempts(s, tag, key, ans, n, left), |s.rows|;
            && (a.index.evicted == s.evicted + rows <==>
                  Stuck(s.rows[0], key) && rows <= left && RefusedThroughout(ans, n, rows))
            && (a.index.evicted == s.evicted + rows ==> (a.ok <==> rows < left && AskAll(ans, n + rows).ok))
    decreases left
  {
    if left > 0 {
      AttemptsUnfold(s, tag, key, ans, n, left);
      assert Find(s.rows, tag) == 0;
      RefusedOnceMore(ans, n, |s.rows| - 1);
      if Stuck(s.rows[0], key) && ans(n).Refused? {
        var e := Evict(s);
        if |s.rows| == 1 {
          AttemptsOnEmpty(e, tag, key, ans, n + 1, left - 1);
        } else {
          assert e.rows[0] == s.rows[0];
          AttemptsEvictAllIff(e, tag, key, ans, n + 1, left - 1);
        }
      }
    }
  }

  /**
   A held tag is evicted by its own insert, and then after every other tag, exactly when its list must
   ask for memory to take the key, at most `EVICT_ATTEMPTS` tags are held, and the slab refuses once
   for each of them. The call then succeeds exactly if it has an attempt left and a new entry is granted.
   */
  lemma HeldTagEvictedIff(s: Index, tag: Tag, key: CacheKey, ans: Oracle, n: nat)
    requires WellFormed(s) && Holds(s.rows, tag)
    ensures var a, rows := Insert(s, tag, key, ans, n), |s.rows|;
            && (a.index.evicted == s.evicted + rows <==>
                  && Stuck(s.rows[Find(s.rows, tag)], key)
                  && rows <= EVICT_ATTEMPTS
                  && RefusedThroughout(ans, n, rows))
            && (a.index.evicted == s.evicted + rows ==> (a.ok <==> rows < EVICT_ATTEMPTS && AskAll(ans, n + rows).ok))
  {
    assert RowOk(s.rows[Find(s.rows, tag)]);
    MentionKeepsWellFormed(s, tag);
    InsertShape.MentionForemost(s, tag);
    var left := InsertRetries(s, tag, key, ans, n);
    AttemptsEvictAllIff(Mention(s, tag), tag, key, ans, n, left);
  }

  /** A tag alone in the index, its list full to capacity, evicts itself to grow, and holds the new key alone. */
  lemma LoneTagEvictsItself(s: Index, tag: Tag, key: CacheKey, ans: Oracle, n: nat)
    requires WellFormed(s) && |s.rows| == 1 && s.rows[0].tag == tag && Stuck(s.rows[0], key)
    requires ans(n).Refused? && Grants(ans, n + 1)
    ensures var a := Insert(s, tag, key, ans, n);
            a.ok && a.index.evicted == s.evicted + 1 && Answered(a.index, tag) == Some([key])
  {
    assert Find(s.rows, tag) == 0;
    HeldTagEvictedIff(s, tag, key, ans, n);
    InsertShape.HeldTagGoesLast(s, tag, key, ans, n);
  }

  function CallTwice(tag: Tag, k1: CacheKey, k2: CacheKey): seq<IndexRuns.Call> {
    [IndexRuns.InsertCall(tag, k1), IndexRuns.InsertCall(tag, k2)]
  }

  lemma CallTwiceRuns(tag: Tag, k1: CacheKey, k2: CacheKey, ans: Oracle)
    ensures var a := Insert(EMPTY, tag, k1, ans, 0);
            && WellFormed(a.index)
            && IndexRuns.RunCalls(CallTwice(tag, k1, k2), ans).0 == Insert(a.index, tag, k2, ans, a.asked).index
  {
    var c1, c2 := IndexRuns.InsertCall(tag, k1), IndexRuns.InsertCall(tag, k2);
    var none: seq<IndexRuns.Call> := [];
    assert [c1][..0] == none && [c1, c2][..1] == [c1];
    InsertKeepsWellFormed(EMPTY, tag, k1, ans, 0);
    assert IndexRuns.RunCalls(none, ans) == (EMPTY, 0);
    var a := Insert(EMPTY, tag, k1, ans, 0);
    assert IndexRuns.RunCalls([c1], ans) == (a.index, a.asked);
  }

  /** Such an index is two calls away: the second of them evicts the tag it grows. */
  lemma GrownTagEvictsItself(tag: Tag, k1: CacheKey, k2: CacheKey, ans: Oracle)
    requires Acceptable(tag) && k1 != k2
    requires Grants(ans, 0) && ans(2).slack == 0 && ans(4).Refused? && Grants(ans, 5)
    ensures var s := IndexRuns.RunCalls(CallTwice(tag, k1, k2), ans).0;
            s.evicted == 1 && Answered(s, tag) == Some([k2])
  {
    CallTwiceRuns(tag, k1, k2, ans);
    InsertNew(EMPTY, tag, k1, ans, 0);
    LoneTagEvictsItself(Insert(EMPTY, tag, k1, ans, 0).index, tag, k2, ans, 4);
  }

  /**
   After an insert fails, the tag does not list the key; and a purge of it scans, rather than answer
   without the key, exactly if the tag was not held or at most `EVICT_ATTEMPTS` tags were.
   */
  lemma FailedInsertScansIff(s: Index, tag: Tag, key: CacheKey, ans: Oracle, n: nat)
    requires WellFormed(s) && Acceptable(tag)
    ensures var a := Insert(s, tag, key, ans, n);
            !a.ok ==>
              && key !in ListOf(a.index, tag)
              && (Answered(a.index, tag).None? <==> !Holds(s.rows, tag) || |s.rows| <= EVICT_ATTEMPTS)
  {
    InsertShape.InsertHasShape(s, tag, key, ans, n);
    InsertShape.MentionForemost(s, tag);
    var m, a := Mention(s, tag), Insert(s, tag, key, ans, n);
    var kept := m.rows[..|m.rows| - (a.index.evicted - s.evicted)];
    if !Holds(s.rows, tag) {
      AbsentFromPrefix(m.rows, |kept|, tag);
    } else {
      ToFrontAt(s.rows, Find(s.rows, tag));
      assert Find(m.rows, tag) == 0;
    }
  }

  lemma {:induction false} AttemptsFailIff(s: Index, tag: Tag, key: CacheKey, ans: Oracle, n: nat, left: nat)
    requires WellFormed(s) && Acceptable(tag) && Holds(s.rows, tag) && s.rows[0].tag == tag && 0 < left < |s.rows|
    ensures !Attempts(s, tag, key, ans, n, left).ok <==> Stuck(s.rows[0], key) && RefusedThroughout(ans, n, left)
    decreases left
  {
    AttemptsUnfold(s, tag, key, ans, n, left);
    assert Find(s.rows, tag) == 0;
    RefusedOnceMore(ans, n, left - 1);
    if Stuck(s.rows[0], key) && ans(n).Refused? {
      var e := Evict(s);
      assert e.rows[0] == s.rows[0];
      if left > 1 { AttemptsFailIff(e, tag, key, ans, n + 1, left - 1); }
    }
  }

  /**
   An insert leaves a held tag answering without the key exactly when more than `EVICT_ATTEMPTS` tags
   are held, the tag's list must ask for memory, and the slab refuses every attempt.
   */
  lemma HeldTagMissesKeyIff(s: Index, tag: Tag, key: CacheKey, ans: Oracle, n: nat)
    requires WellFormed(s) && Holds(s.rows, tag)
    ensures var after := Insert(s, tag, key, ans, n).index;
            (Holds(after.rows, tag) && key !in ListOf(after, tag)) <==>
              && |s.rows| > EVICT_ATTEMPTS
              && Stuck(s.rows[Find(s.rows, tag)], key)
              && RefusedThroughout(ans, n, EVICT_ATTEMPTS)
  {
    assert RowOk(s.rows[Find(s.rows, tag)]);
    MentionKeepsWellFormed(s, tag);
    InsertShape.MentionForemost(s, tag);
    InsertShape.InsertOutcome(s, tag, key, ans, n);
    var a := Insert(s, tag, key, ans, n);
    if a.ok {
      assert Find(a.index.rows, tag) == 0;
    } else {
      FailedInsertScansIff(s, tag, key, ans, n);
    }
    if |s.rows| > EVICT_ATTEMPTS {
      var left := InsertRetries(s, tag, key, ans, n);
      AttemptsFailIff(Mention(s, tag), tag, key, ans, n, left);
    }
  }
}
