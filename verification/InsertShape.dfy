/** What one insert call does, stated without its retry loop. */
module InsertShape {
  import opened Types
  import opened IndexModel

  /** The most recent `MAX_KEYS_PER_TAG` keys, oldest first. */
  function Newest(keys: seq<CacheKey>): (r: seq<CacheKey>)
    ensures |r| <= MAX_KEYS_PER_TAG && |r| <= |keys|
  {
    if |keys| <= MAX_KEYS_PER_TAG then keys else keys[|keys| - MAX_KEYS_PER_TAG..]
  }

  /** A tag's list once `key` is recorded: unchanged if present, else the newest of it and `key`. */
  function WithKey(keys: seq<CacheKey>, key: CacheKey): seq<CacheKey> {
    if key in keys then keys else Newest(keys + [key])
  }

  /** `rows` is `kept` with `key` recorded against `tag`, which comes first. */
  ghost predicate Recorded(rows: seq<Row>, kept: seq<Row>, tag: Tag, key: CacheKey) {
    && rows != []
    && rows[0].tag == tag
    && if Holds(kept, tag)
       then kept[0].tag == tag && rows[1..] == kept[1..] && rows[0].keys == WithKey(kept[0].keys, key)
       else rows[1..] == kept && rows[0].keys == [key]
  }

  /** `a` is an attempt on `s` that evicted exactly the last `k` rows. */
  ghost predicate Shape(s: Index, a: Attempt, tag: Tag, key: CacheKey, k: nat, left: nat) {
    && k <= |s.rows| && k <= left
    && a.index.evicted == s.evicted + k
    && var kept := s.rows[..|s.rows| - k];
       if a.ok then
         && Recorded(a.index.rows, kept, tag, key)
         && a.index.dropped - s.dropped ==
            if key !in ListOf(s, tag) && Holds(kept, tag) && |kept[0].keys| == MAX_KEYS_PER_TAG then 1 else 0
       else
         && a.index.rows == kept
         && a.index.dropped == s.dropped
         && key !in ListOf(s, tag)
         && (kept == [] || k == left)
  }

  /** The tag, if held, is the first row. */
  ghost predicate Foremost(rows: seq<Row>, tag: Tag) {
    Holds(rows, tag) ==> rows[0].tag == tag
  }

  lemma MentionForemost(s: Index, tag: Tag)
    requires WellFormed(s)
    ensures Foremost(Mention(s, tag).rows, tag)
    ensures ListOf(Mention(s, tag), tag) == ListOf(s, tag)
    ensures Holds(Mention(s, tag).rows, tag) == Holds(s.rows, tag)
  {
  }

  lemma NewestOfOneMore(keys: seq<CacheKey>, key: CacheKey)
    requires |keys| <= MAX_KEYS_PER_TAG
    ensures Newest(keys + [key]) == if |keys| < MAX_KEYS_PER_TAG then keys + [key] else keys[1..] + [key]
  {
  }

  lemma CreateShape(s: Index, tag: Tag, key: CacheKey, ans: Oracle, n: nat, left: nat)
    requires WellFormed(s) && Acceptable(tag) && !Holds(s.rows, tag) && 0 < left
    requires Create(s, tag, key, ans, n).ok
    ensures Shape(s, Create(s, tag, key, ans, n), tag, key, 0, left)
  {
    assert s.rows[..|s.rows|] == s.rows;
  }

  lemma AppendShape(s: Index, tag: Tag, key: CacheKey, ans: Oracle, n: nat, left: nat)
    requires WellFormed(s) && Holds(s.rows, tag) && Foremost(s.rows, tag) && 0 < left
    requires Append(s, tag, key, ans, n).ok
    ensures Shape(s, Append(s, tag, key, ans, n), tag, key, 0, left)
  {
    assert s.rows[..|s.rows|] == s.rows;
    assert Find(s.rows, tag) == 0;
    assert RowOk(s.rows[0]);
    NewestOfOneMore(s.rows[0].keys, key);
  }

  lemma EvictForemost(s: Index, tag: Tag, key: CacheKey)
    requires WellFormed(s) && s.rows != [] && Foremost(s.rows, tag)
    ensures Foremost(Evict(s).rows, tag)
    ensures Holds(Evict(s).rows, tag) <==> Holds(s.rows, tag) && |s.rows| > 1
    ensures key !in ListOf(s, tag) ==> key !in ListOf(Evict(s), tag)
  {
  }

  lemma {:induction false} AttemptsShape(s: Index, tag: Tag, key: CacheKey, ans: Oracle, n: nat, left: nat)
    returns (k: nat)
    requires WellFormed(s) && Acceptable(tag) && Foremost(s.rows, tag)
    requires left == 0 ==> key !in ListOf(s, tag)
    ensures Shape(s, Attempts(s, tag, key, ans, n, left), tag, key, k, left)
    decreases left
  {
    k := 0;
    assert s.rows[..|s.rows|] == s.rows;
    if left > 0 {
      var a := Try(s, tag, key, ans, n);
      TryKeepsWellFormed(s, tag, key, ans, n);
      if a.ok {
        if Holds(s.rows, tag) {
          AppendShape(s, tag, key, ans, n, left);
        } else {
          CreateShape(s, tag, key, ans, n, left);
        }
      } else if s.rows != [] {
        EvictKeepsWellFormed(s);
        EvictForemost(s, tag, key);
        var e := Evict(s);
        var k' := AttemptsShape(e, tag, key, ans, a.asked, left - 1);
        k := k' + 1;
        assert e.rows[..|e.rows| - k'] == s.rows[..|s.rows| - k];
      }
    }
  }

  /**
   An insert of an acceptable tag touches it, evicts exactly the coldest `k` rows of the touched
   order for some `k <= EVICT_ATTEMPTS`, and then either records the key at the front, leaving every
   other surviving row and their order alone, or fails having emptied the index or spent every attempt.
   */
  lemma InsertHasShape(s: Index, tag: Tag, key: CacheKey, ans: Oracle, n: nat)
    requires WellFormed(s) && Acceptable(tag)
    ensures var a := Insert(s, tag, key, ans, n);
            a.index.evicted >= s.evicted &&
            Shape(Mention(s, tag), a, tag, key, a.index.evicted - s.evicted, EVICT_ATTEMPTS)
  {
    MentionKeepsWellFormed(s, tag);
    MentionForemost(s, tag);
    var k := AttemptsShape(Mention(s, tag), tag, key, ans, n, EVICT_ATTEMPTS);
  }

  /** `Ok` exactly when the key ends up in the list of the foremost tag; `Err` has three causes. */
  lemma InsertOutcome(s: Index, tag: Tag, key: CacheKey, ans: Oracle, n: nat)
    requires WellFormed(s)
    ensures var a := Insert(s, tag, key, ans, n);
            && (a.ok <==> a.index.rows != [] && a.index.rows[0].tag == tag && key in a.index.rows[0].keys)
            && (!a.ok ==>
                  || (!Acceptable(tag) && a.index == s && a.asked == n)
                  || a.index.rows == []
                  || a.index.evicted == s.evicted + EVICT_ATTEMPTS)
  {
    if Acceptable(tag) {
      InsertHasShape(s, tag, key, ans, n);
      MentionForemost(s, tag);
      var a := Insert(s, tag, key, ans, n);
      if a.ok {
        var kept := Mention(s, tag).rows[..|Mention(s, tag).rows| - (a.index.evicted - s.evicted)];
        if Holds(kept, tag) {
          var ks := kept[0].keys + [key];
          assert Newest(ks)[|Newest(ks)| - 1] == key;
        }
      }
    }
  }

  /**
   A tag that is held when insert is called is the last one that call evicts: it goes only if
   everything goes, so it survives whenever more than `EVICT_ATTEMPTS` tags are held, and if it goes
   in a call that still succeeds it holds the new key alone.
   */
  lemma HeldTagGoesLast(s: Index, tag: Tag, key: CacheKey, ans: Oracle, n: nat)
    requires WellFormed(s) && Holds(s.rows, tag)
    ensures var a := Insert(s, tag, key, ans, n);
            var k := a.index.evicted - s.evicted;
            && 0 <= k <= |s.rows|
            && (|s.rows| > EVICT_ATTEMPTS ==> k < |s.rows|)
            && (k < |s.rows| ==>
                  && |a.index.rows| == |s.rows| - k
                  && a.index.rows[0].tag == tag
                  && a.index.rows[0].keys == if a.ok then WithKey(ListOf(s, tag), key) else ListOf(s, tag))
            && (k == |s.rows| && a.ok ==> |a.index.rows| == 1 && ListOf(a.index, tag) == [key])
            && (k == |s.rows| && !a.ok ==> a.index.rows == [])
  {
    InsertHasShape(s, tag, key, ans, n);
    MentionForemost(s, tag);
    InsertOutcome(s, tag, key, ans, n);
    ToFrontAt(s.rows, Find(s.rows, tag));
  }

  /** `Recorded` seen through lookups of other tags... */
  lemma RecordedOthers(rows: seq<Row>, kept: seq<Row>, tag: Tag, key: CacheKey, other: Tag)
    requires Recorded(rows, kept, tag, key) && other != tag
    ensures KeysOf(rows, other) == KeysOf(kept, other)
  {
    KeysOfTail(rows, other);
    if Holds(kept, tag) { KeysOfTail(kept, other); }
  }

  /** ...and of the recorded one. */
  lemma RecordedSelf(rows: seq<Row>, kept: seq<Row>, tag: Tag, key: CacheKey)
    requires Recorded(rows, kept, tag, key)
    ensures KeysOf(rows, tag) == WithKey(KeysOf(kept, tag), key)
  {
    KeysOfHead(rows);
    if Holds(kept, tag) {
      KeysOfHead(kept);
    } else {
      NewestOfOneMore([], key);
    }
  }

  /** The lists after an insert that neither failed, evicted nor dropped. */
  lemma QuietInsert(s: Index, tag: Tag, key: CacheKey, ans: Oracle, n: nat, other: Tag)
    requires WellFormed(s)
    ensures var a, before := Insert(s, tag, key, ans, n), ListOf(s, other);
            a.ok && a.index.evicted == s.evicted && a.index.dropped == s.dropped ==>
              ListOf(a.index, other) == if other == tag && key !in before then before + [key] else before
  {
    var t, a := Mention(s, tag).rows, Insert(s, tag, key, ans, n);
    if a.ok && a.index.evicted == s.evicted && a.index.dropped == s.dropped {
      InsertHasShape(s, tag, key, ans, n);
      MentionForemost(s, tag);
      MentionKeepsWellFormed(s, tag);
      MentionKeepsLists(s, tag, other);
      assert t[..|t|] == t;
      if other != tag {
        RecordedOthers(a.index.rows, t, tag, key, other);
      } else {
        RecordedSelf(a.index.rows, t, tag, key);
      }
      if Holds(t, tag) {
        assert RowOk(t[0]);
        NewestOfOneMore(t[0].keys, key);
      }
    }
  }

  lemma KeysOfHead(rows: seq<Row>)
    requires rows != []
    ensures KeysOf(rows, rows[0].tag) == rows[0].keys
  {
  }

  /** Looking past a first row of another tag. */
  lemma KeysOfTail(rows: seq<Row>, tag: Tag)
    requires rows != [] && rows[0].tag != tag
    ensures KeysOf(rows, tag) == KeysOf(rows[1..], tag)
  {
    assert Find(rows, tag) == 1 + Find(rows[1..], tag);
  }

  lemma MentionKeepsLists(s: Index, tag: Tag, other: Tag)
    requires WellFormed(s)
    ensures ListOf(Mention(s, tag), other) == ListOf(s, other)
    ensures Holds(Mention(s, tag).rows, other) == Holds(s.rows, other)
  {
    if Holds(s.rows, tag) { FindAfterToFront(s.rows, Find(s.rows, tag), other); }
  }
}
