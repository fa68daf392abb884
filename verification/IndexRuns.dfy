/** Whole insert calls, and whole runs of calls, against the history they leave. */
module IndexRuns {
  import opened Types
  import opened IndexModel
  import opened IndexHistory

  /** One attempt settles the call or evicts; the history is right either way. */
  lemma AttemptTracks(s: Index, tag: Tag, key: CacheKey, ans: Oracle, n: nat, left: nat) returns (after: Index,
                      settled: bool, asked: nat)
    requires Tracks(s) && Acceptable(tag) && Freshest(s, tag) && 0 < left
    ensures Tracks(after) && (!settled ==> Freshest(after, tag))
    ensures Attempts(s, tag, key, ans, n, left).index ==
            if settled then after else Attempts(after, tag, key, ans, asked, left - 1).index
  {
    AttemptsUnfold(s, tag, key, ans, n, left);
    var a := Try(s, tag, key, ans, n);
    settled, asked := a.ok || s.rows == [], a.asked;
    if settled {
      TryTracks(s, tag, key, ans, n);
      after := a.index;
    } else {
      EvictTracks(s, tag);
      after := Evict(s);
    }
  }

  lemma {:induction false} AttemptsTrack(s: Index, tag: Tag, key: CacheKey, ans: Oracle, n: nat, left: nat)
    returns (end: Index)
    requires Tracks(s) && Acceptable(tag) && Freshest(s, tag)
    ensures Tracks(end)
    ensures end == Attempts(s, tag, key, ans, n, left).index
    decreases left
  {
    if left == 0 {
      end := s;
    } else {
      var after, settled, asked := AttemptTracks(s, tag, key, ans, n, left);
      if settled {
        end := after;
      } else {
        end := AttemptsTrack(after, tag, key, ans, asked, left - 1);
      }
    }
  }

  lemma InsertTracks(s: Index, tag: Tag, key: CacheKey, ans: Oracle, n: nat)
    requires Tracks(s)
    ensures Tracks(Insert(s, tag, key, ans, n).index)
  {
    if Acceptable(tag) {
      MentionTracks(s, tag);
      var end := AttemptsTrack(Mention(s, tag), tag, key, ans, n, EVICT_ATTEMPTS);
    }
  }

  // ----- runs -----

  datatype Call = InsertCall(tag: Tag, key: CacheKey) | TakeCall(tag: Tag)

  /** The index after `calls`, from empty, together with how often the slab has been asked. */
  function RunCalls(calls: seq<Call>, ans: Oracle): (r: (Index, nat))
    ensures WellFormed(r.0)
  {
    if calls == [] then (EMPTY, 0)
    else
      var (s, n) := RunCalls(calls[..|calls| - 1], ans);
      match calls[|calls| - 1]
      case InsertCall(tag, key) =>
        InsertKeepsWellFormed(s, tag, key, ans, n);
        var a := Insert(s, tag, key, ans, n);
        (a.index, a.asked)
      case TakeCall(tag) =>
        TakeKeepsWellFormed(s, tag);
        (Take(s, tag), n)
  }

  /** Whatever is called, and whichever allocations the slab refuses, the index tracks its history. */
  lemma {:induction false} EveryRunTracks(calls: seq<Call>, ans: Oracle)
    ensures Tracks(RunCalls(calls, ans).0)
  {
    if calls != [] {
      EveryRunTracks(calls[..|calls| - 1], ans);
      var (s, n) := RunCalls(calls[..|calls| - 1], ans);
      match calls[|calls| - 1]
      case InsertCall(tag, key) => InsertTracks(s, tag, key, ans, n);
      case TakeCall(tag) => TakeTracks(s, tag);
    }
  }

  /** The tags a log says insert calls named, in order... */
  function NamedIn(log: Log): seq<Tag> {
    match log
    case Start => []
    case Then(before, Named(t)) => NamedIn(before) + [t]
    case Then(before, _) => NamedIn(before)
  }

  /** ...and those they did name. */
  function NamedBy(calls: seq<Call>): seq<Tag> {
    if calls == [] then []
    else
      var call := calls[|calls| - 1];
      NamedBy(calls[..|calls| - 1]) + if call.InsertCall? && Acceptable(call.tag) then [call.tag] else []
  }

  lemma {:induction false} AttemptsNameNothing(s: Index, tag: Tag, key: CacheKey, ans: Oracle, n: nat, left: nat)
    requires WellFormed(s) && Acceptable(tag)
    ensures NamedIn(Attempts(s, tag, key, ans, n, left).index.log) == NamedIn(s.log)
    decreases left
  {
    if left > 0 {
      var a := Try(s, tag, key, ans, n);
      assert NamedIn(a.index.log) == NamedIn(s.log);
      TryKeepsWellFormed(s, tag, key, ans, n);
      if !a.ok && s.rows != [] {
        EvictKeepsWellFormed(s);
        assert NamedIn(Evict(s).log) == NamedIn(s.log);
        AttemptsNameNothing(Evict(s), tag, key, ans, a.asked, left - 1);
      }
    }
  }

  /** The log names exactly the acceptable tags of the insert calls, in call order. */
  lemma {:induction false} NamesAreLogged(calls: seq<Call>, ans: Oracle)
    ensures NamedIn(RunCalls(calls, ans).0.log) == NamedBy(calls)
  {
    if calls != [] {
      NamesAreLogged(calls[..|calls| - 1], ans);
      var (s, n) := RunCalls(calls[..|calls| - 1], ans);
      var call := calls[|calls| - 1];
      if call.InsertCall? && Acceptable(call.tag) {
        MentionKeepsWellFormed(s, call.tag);
        AttemptsNameNothing(Mention(s, call.tag), call.tag, call.key, ans, n, EVICT_ATTEMPTS);
      }
    }
  }
}
