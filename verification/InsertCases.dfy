/** What an insert does case by case, in plain numbers. */
module InsertCases {
  import opened Types
  import opened IndexModel
  import Eviction
  import InsertShape

  /** A new entry is granted exactly if all four of its parts are, and a refusal ends the asking. */
  lemma EntryGrantedIff(ans: Oracle, n: nat)
    ensures AskAll(ans, n).ok <==> ans(n).Granted? && ans(n + 1).Granted? && ans(n + 2).Granted? && ans(n + 3).Granted?
    ensures AskAll(ans, n).ok ==> AskAll(ans, n).cap == 1 + ans(n + 2).slack && AskAll(ans, n).asked == n + 4
    ensures !AskAll(ans, n).ok ==>
              && n < AskAll(ans, n).asked <= n + 4 && ans(AskAll(ans, n).asked - 1).Refused?
              && forall j :: n <= j < AskAll(ans, n).asked - 1 ==> ans(j).Granted?
  {
  }

  /** A tag of no bytes, or of more than 1024, is refused before anything happens. */
  lemma BadLengthChangesNothing(s: Index, tag: Tag, key: CacheKey, ans: Oracle, n: nat)
    requires WellFormed(s) && (|tag| == 0 || |tag| > 1024)
    ensures var a := Insert(s, tag, key, ans, n); !a.ok && a.index == s && a.asked == n
  {
  }

  /** Any other tag not held, once its four parts are granted, is there and lists the key. */
  lemma NewTagIsCreated(s: Index, tag: Tag, key: CacheKey, ans: Oracle, n: nat)
    requires WellFormed(s) && 1 <= |tag| <= 1024 && forall i :: 0 <= i < |s.rows| ==> s.rows[i].tag != tag
    requires ans(n).Granted? && ans(n + 1).Granted? && ans(n + 2).Granted? && ans(n + 3).Granted?
    ensures var a := Insert(s, tag, key, ans, n);
            && a.ok && a.asked == n + 4 && ListOf(a.index, tag) == [key]
            && |a.index.rows| == |s.rows| + 1 && a.index.rows[0].tag == tag && a.index.rows[1..] == s.rows
            && a.index.rows[0].cap == 1 + ans(n + 2).slack
            && a.index.evicted == s.evicted && a.index.dropped == s.dropped
            && a.index.tags == s.tags + 1 && a.index.keys == s.keys + 1
  {
    MentionKeepsWellFormed(s, tag);
    AttemptsUnfold(Mention(s, tag), tag, key, ans, n, EVICT_ATTEMPTS);
  }

  /** What an insert into a held list comes to when memory is not needed, or is granted when it is. */
  lemma HeldListTakesKey(s: Index, i: nat, key: CacheKey, ans: Oracle, n: nat)
    requires WellFormed(s) && i < |s.rows|
    requires var r := s.rows[i];
             key !in r.keys && |r.keys| < 65536 && |r.keys| >= r.cap ==> ans(n).Granted?
    ensures var r, a := s.rows[i], Insert(s, s.rows[i].tag, key, ans, n);
            && a.ok && a.index.evicted == s.evicted
            && |a.index.rows| == |s.rows| && a.index.rows[0].tag == r.tag
            && a.index.rows[1..] == s.rows[..i] + s.rows[i + 1..]
            && a.index.rows[0].keys == (if key in r.keys then r.keys
                                        else if |r.keys| == 65536 then r.keys[1..] + [key]
                                        else r.keys + [key])
            && a.index.dropped == s.dropped + (if key !in r.keys && |r.keys| == 65536 then 1 else 0)
            && a.asked == n + (if key !in r.keys && |r.keys| < 65536 && |r.keys| >= r.cap then 1 else 0)
            && a.index.rows[0].cap ==
               (if key !in r.keys && |r.keys| < 65536 && |r.keys| >= r.cap then |r.keys| + 1 + ans(n).slack else r.cap)
  {
    var r := s.rows[i];
    assert RowOk(r);
    FindUnique(s.rows, r.tag, i);
    MentionKeepsWellFormed(s, r.tag);
    var m := Mention(s, r.tag);
    assert m.rows[0] == r && Find(m.rows, r.tag) == 0;
    AttemptsUnfold(m, r.tag, key, ans, n, EVICT_ATTEMPTS);
    assert m.rows[1..] == s.rows[..i] + s.rows[i + 1..];
  }

  lemma {:induction false} AttemptsAllRefused(s: Index, tag: Tag, key: CacheKey, ans: Oracle, n: nat, left: nat)
    requires WellFormed(s) && Acceptable(tag) && forall j :: n <= j ==> ans(j).Refused?
    requires Holds(s.rows, tag) ==> s.rows[0].tag == tag && Eviction.Stuck(s.rows[0], key)
    ensures var a := Attempts(s, tag, key, ans, n, left);
            && !a.ok && a.index.evicted == s.evicted + (if |s.rows| < left then |s.rows| else left)
            && a.asked == n + (if |s.rows| < left then |s.rows| + 1 else left)
    decreases left
  {
    if left > 0 {
      AttemptsUnfold(s, tag, key, ans, n, left);
      if Holds(s.rows, tag) { assert Find(s.rows, tag) == 0; }
      if s.rows != [] {
        EvictKeepsForemost(s, tag);
        AttemptsAllRefused(Evict(s), tag, key, ans, n + 1, left - 1);
      }
    }
  }

  /** Evicting the last row keeps a foremost tag foremost, or leaves it held no more. */
  lemma EvictKeepsForemost(s: Index, tag: Tag)
    requires WellFormed(s) && s.rows != [] && (Holds(s.rows, tag) ==> s.rows[0].tag == tag)
    ensures Holds(Evict(s).rows, tag) ==> Holds(s.rows, tag) && Evict(s).rows[0] == s.rows[0]
  {
    if !Holds(s.rows, tag) { AbsentFromPrefix(s.rows, |s.rows| - 1, tag); }
  }

  /** Against a slab that refuses everything, an insert that needs memory asks and evicts up to 64 times and fails. */
  lemma AllRefusedGivesUp(s: Index, tag: Tag, key: CacheKey, ans: Oracle, n: nat)
    requires WellFormed(s) && 1 <= |tag| <= 1024 && forall j :: n <= j ==> ans(j).Refused?
    requires forall i :: 0 <= i < |s.rows| && s.rows[i].tag == tag ==>
               key !in s.rows[i].keys && |s.rows[i].keys| < 65536 && |s.rows[i].keys| >= s.rows[i].cap
    ensures var a := Insert(s, tag, key, ans, n);
            && !a.ok && a.index.dropped == s.dropped
            && a.index.evicted == s.evicted + (if |s.rows| < 64 then |s.rows| else 64)
            && a.asked == n + (if |s.rows| < 64 then |s.rows| + 1 else 64)
  {
    MentionKeepsWellFormed(s, tag);
    InsertShape.MentionForemost(s, tag);
    if Holds(s.rows, tag) { assert Mention(s, tag).rows[0] == s.rows[Find(s.rows, tag)]; }
    var left := InsertRetries(s, tag, key, ans, n);
    AttemptsAllRefused(Mention(s, tag), tag, key, ans, n, left);
    InsertShape.InsertHasShape(s, tag, key, ans, n);
  }
}
