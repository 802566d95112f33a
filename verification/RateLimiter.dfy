/** The throttle of `typing.start` broadcasts, with opportunistic cleanup. */
module RateLimiter {
  import opened Base

  type Key = (string, string)  // wallet, group

  /** One call. The clock is read for the cleanup, and again for the decision. Milliseconds. */
  datatype Call = Call(wallet: string, group: string, cleanupAt: int, now: int)

  const MIN_START_INTERVAL := 2000
  const RETENTION := 60000
  const CLEANUP_LEN := 4096

  function KeyOf(c: Call): Key {
    (c.wallet, c.group)
  }

  /** `Instant::duration_since` saturates at zero. */
  function Since(now: int, last: int): int {
    if now < last then 0 else now - last
  }

  function Retained(m: map<Key, int>, at: int): map<Key, int> {
    map k | k in m && Since(at, m[k]) < RETENTION :: m[k]
  }

  /** The map after the cleanup of a call; without a threshold nothing is ever forgotten. */
  function Cleaned(threshold: Option<nat>, m: map<Key, int>, c: Call): map<Key, int> {
    if threshold.Some? && |m| > threshold.value then Retained(m, c.cleanupAt) else m
  }

  predicate Allows(m: map<Key, int>, c: Call) {
    !(KeyOf(c) in m && Since(c.now, m[KeyOf(c)]) < MIN_START_INTERVAL)
  }

  function Next(threshold: Option<nat>, m: map<Key, int>, c: Call): map<Key, int> {
    var cleaned := Cleaned(threshold, m, c);
    if Allows(cleaned, c) then cleaned[KeyOf(c) := c.now] else cleaned
  }

  class TypingRateLimiter {
    var lastStart: map<Key, int>

    constructor ()
      ensures lastStart == map[]
    {
      lastStart := map[];
    }

    method AllowStart(c: Call) returns (allowed: bool)
      modifies this
      ensures allowed == Allows(Cleaned(Some(CLEANUP_LEN), old(lastStart), c), c)
      ensures lastStart == Next(Some(CLEANUP_LEN), old(lastStart), c)
    {
      if |lastStart| > CLEANUP_LEN {
        lastStart := Retained(lastStart, c.cleanupAt);
      }
      var key := (c.wallet, c.group);
      if key in lastStart && Since(c.now, lastStart[key]) < MIN_START_INTERVAL {
        return false;
      }
      lastStart := lastStart[key := c.now];
      return true;
    }
  }

  function After(threshold: Option<nat>, calls: seq<Call>): map<Key, int> {
    if calls == [] then map[]
    else Next(threshold, After(threshold, calls[..|calls| - 1]), calls[|calls| - 1])
  }

  /** The answer to the k-th call of a run. */
  predicate Answer(threshold: Option<nat>, calls: seq<Call>, k: nat)
    requires k < |calls|
  {
    Allows(Cleaned(threshold, After(threshold, calls[..k]), calls[k]), calls[k])
  }

  /** The clock never goes back. */
  ghost predicate Clocked(calls: seq<Call>) {
    && (forall k :: 0 <= k < |calls| ==> calls[k].cleanupAt <= calls[k].now)
    && (forall j, k :: 0 <= j < k < |calls| ==> calls[j].now <= calls[k].cleanupAt)
  }

  // ---------------------------------------------------------- the answers, without any map

  /** A start is allowed when no earlier allowed start of the same wallet in the same group is less than two
      seconds old. */
  ghost predicate Permitted(calls: seq<Call>, k: nat)
    requires k < |calls|
    decreases k
  {
    forall j ::
      0 <= j < k && calls[j].wallet == calls[k].wallet && calls[j].group == calls[k].group && Permitted(calls, j)
      ==> calls[k].now - calls[j].now >= 2000
  }

  /** The time of the latest allowed start of a key, remembered for ever. */
  function LastAllowed(calls: seq<Call>, key: Key): Option<int> {
    if calls == [] then None
    else
      var before, c := LastAllowed(calls[..|calls| - 1], key), calls[|calls| - 1];
      if KeyOf(c) == key && Rested(before, c) then Some(c.now) else before
  }

  predicate Rested(before: Option<int>, c: Call) {
    before.None? || c.now - before.value >= MIN_START_INTERVAL
  }

  lemma {:induction false} LastAllowedIsPast(calls: seq<Call>, key: Key, at: int)
    requires forall j :: 0 <= j < |calls| ==> calls[j].now <= at
    ensures LastAllowed(calls, key).Some? ==> LastAllowed(calls, key).value <= at
  {
    if calls != [] {
      LastAllowedIsPast(calls[..|calls| - 1], key, at);
    }
  }

  /** The map holds each key's latest start, and has forgotten only starts older than the retention. */
  ghost predicate Tracks(m: map<Key, int>, calls: seq<Call>) {
    forall key :: TracksKey(m, calls, key)
  }

  ghost predicate TracksKey(m: map<Key, int>, calls: seq<Call>, key: Key) {
    var last := LastAllowed(calls, key);
    if key in m then last == Some(m[key])
    else last.None? || (calls != [] && calls[|calls| - 1].now - last.value >= RETENTION)
  }

  /** The cleanup forgets only starts that no longer matter. */
  lemma CleanupTracks(threshold: Option<nat>, m: map<Key, int>, calls: seq<Call>, c: Call, key: Key)
    requires Clocked(calls + [c]) && TracksKey(m, calls, key)
    ensures var cleaned, last := Cleaned(threshold, m, c), LastAllowed(calls, key);
      && (last.Some? ==> last.value <= c.cleanupAt <= c.now)
      && (if key in cleaned then last == Some(cleaned[key])
          else last.None? || c.now - last.value >= RETENTION)
  {
    var all, n := calls + [c], |calls|;
    assert all[n] == c;
    forall j | 0 <= j < n ensures calls[j].now <= c.cleanupAt {
      assert all[j] == calls[j];
    }
    LastAllowedIsPast(calls, key, c.cleanupAt);
  }

  /** The decision taken on a tracking map is the right one, and the map goes on tracking. */
  lemma StepTracks(threshold: Option<nat>, m: map<Key, int>, calls: seq<Call>, c: Call)
    requires Clocked(calls + [c]) && Tracks(m, calls)
    ensures Allows(Cleaned(threshold, m, c), c) <==> Rested(LastAllowed(calls, KeyOf(c)), c)
    ensures Tracks(Next(threshold, m, c), calls + [c])
  {
    assert TracksKey(m, calls, KeyOf(c));
    CleanupTracks(threshold, m, calls, c, KeyOf(c));
    assert (calls + [c])[..|calls|] == calls;
    forall key: Key ensures TracksKey(Next(threshold, m, c), calls + [c], key) {
      assert TracksKey(m, calls, key);
      CleanupTracks(threshold, m, calls, c, key);
    }
  }

  lemma ClockedPrefix(calls: seq<Call>, n: nat)
    requires Clocked(calls) && n <= |calls|
    ensures Clocked(calls[..n])
  {
  }

  lemma {:induction false} RunTracks(threshold: Option<nat>, calls: seq<Call>)
    requires Clocked(calls)
    ensures Tracks(After(threshold, calls), calls)
  {
    if calls != [] {
      var n := |calls| - 1;
      ClockedPrefix(calls, n);
      RunTracks(threshold, calls[..n]);
      assert calls[..n] + [calls[n]] == calls;
      StepTracks(threshold, After(threshold, calls[..n]), calls[..n], calls[n]);
    }
  }

  /** The latest allowed start is the latest of the permitted ones. */
  ghost predicate IsLatest(calls: seq<Call>, key: Key, n: nat)
    requires n <= |calls|
  {
    var last := LastAllowed(calls[..n], key);
    && (last.Some? ==> exists j :: 0 <= j < n && KeyOf(calls[j]) == key && Permitted(calls, j) && calls[j].now == last.value)
    && (forall j :: 0 <= j < n && KeyOf(calls[j]) == key && Permitted(calls, j) ==>
          last.Some? && calls[j].now <= last.value)
  }

  lemma RestedIsPermitted(calls: seq<Call>, n: nat)
    requires n < |calls| && IsLatest(calls, KeyOf(calls[n]), n)
    ensures Permitted(calls, n) <==> Rested(LastAllowed(calls[..n], KeyOf(calls[n])), calls[n])
  {
  }

  lemma {:induction false} LastAllowedIsLatest(calls: seq<Call>, key: Key, n: nat)
    requires n <= |calls| && Clocked(calls)
    ensures IsLatest(calls, key, n)
  {
    if n > 0 {
      LastAllowedIsLatest(calls, key, n - 1);
      assert calls[..n][..n - 1] == calls[..n - 1];
      if KeyOf(calls[n - 1]) == key {
        RestedIsPermitted(calls, n - 1);
      }
    }
  }

  lemma AnswerIsRested(threshold: Option<nat>, calls: seq<Call>, k: nat)
    requires k < |calls| && Clocked(calls)
    ensures Answer(threshold, calls, k) <==> Rested(LastAllowed(calls[..k], KeyOf(calls[k])), calls[k])
  {
    ClockedPrefix(calls, k);
    RunTracks(threshold, calls[..k]);
    assert calls[..k] + [calls[k]] == calls[..k + 1];
    ClockedPrefix(calls, k + 1);
    StepTracks(threshold, After(threshold, calls[..k]), calls[..k], calls[k]);
  }

  /** Every answer of every run, with whatever cleanup threshold or none, is the one that the starts
      of the same key alone determine. */
  lemma AnswersExactly(threshold: Option<nat>, calls: seq<Call>, k: nat)
    requires k < |calls| && Clocked(calls)
    ensures Answer(threshold, calls, k) <==> Permitted(calls, k)
  {
    AnswerIsRested(threshold, calls, k);
    LastAllowedIsLatest(calls, KeyOf(calls[k]), k);
    RestedIsPermitted(calls, k);
  }

  /** Refinement: cleaning up never changes an answer. */
  lemma CleanupInvisible(calls: seq<Call>, k: nat)
    requires k < |calls| && Clocked(calls)
    ensures Answer(Some(CLEANUP_LEN), calls, k) == Answer(None, calls, k)
  {
    AnswersExactly(Some(CLEANUP_LEN), calls, k);
    AnswersExactly(None, calls, k);
  }

  /** Two allowed starts of one (wallet, group) are at least two seconds apart. */
  lemma StartsApart(calls: seq<Call>, j: nat, k: nat)
    requires j < k < |calls| && Clocked(calls)
    requires calls[j].wallet == calls[k].wallet && calls[j].group == calls[k].group
    requires Answer(Some(CLEANUP_LEN), calls, j) && Answer(Some(CLEANUP_LEN), calls, k)
    ensures calls[k].now - calls[j].now >= 2000
  {
    AnswersExactly(Some(CLEANUP_LEN), calls, j);
    AnswersExactly(Some(CLEANUP_LEN), calls, k);
  }

  /** The calls of one key, in order. */
  function Only(calls: seq<Call>, key: Key): seq<Call> {
    if calls == [] then []
    else
      var front, last := Only(calls[..|calls| - 1], key), calls[|calls| - 1];
      if last.wallet == key.0 && last.group == key.1 then front + [last] else front
  }

  lemma {:induction false} OnlyFacts(calls: seq<Call>, key: Key)
    ensures forall i :: 0 <= i < |Only(calls, key)| ==> Only(calls, key)[i] in calls && KeyOf(Only(calls, key)[i]) == key
    ensures Clocked(calls) ==> Clocked(Only(calls, key))
  {
    if calls != [] {
      var n := |calls| - 1;
      OnlyFacts(calls[..n], key);
      var front := Only(calls[..n], key);
      if Clocked(calls) {
        forall i | 0 <= i < |front| ensures front[i].now <= calls[n].cleanupAt {
          var j :| 0 <= j < n && calls[..n][j] == front[i];
          assert calls[j].now <= calls[n].cleanupAt;
        }
      }
    }
  }

  lemma {:induction false} LastAllowedIsolated(calls: seq<Call>, key: Key)
    ensures LastAllowed(calls, key) == LastAllowed(Only(calls, key), key)
  {
    if calls != [] {
      var n := |calls| - 1;
      LastAllowedIsolated(calls[..n], key);
      var front := Only(calls[..n], key);
      assert (front + [calls[n]])[..|front|] == front;
    }
  }

  /** Different keys do not affect each other: a call is answered as if only its own key had been called. */
  lemma KeysIndependent(calls: seq<Call>, k: nat)
    requires k < |calls| && Clocked(calls)
    ensures var mine := Only(calls[..k + 1], (calls[k].wallet, calls[k].group));
      mine != [] && (Answer(Some(CLEANUP_LEN), calls, k) <==> Answer(Some(CLEANUP_LEN), mine, |mine| - 1))
  {
    var key := KeyOf(calls[k]);
    ClockedPrefix(calls, k + 1);
    assert calls[..k + 1][..k] == calls[..k];
    var front, mine := Only(calls[..k], key), Only(calls[..k + 1], key);
    assert mine == front + [calls[k]] && mine[..|front|] == front;
    OnlyFacts(calls[..k + 1], key);
    LastAllowedIsolated(calls[..k], key);
    AnswerIsRested(Some(CLEANUP_LEN), calls, k);
    AnswerIsRested(Some(CLEANUP_LEN), mine, |front|);
  }
}
