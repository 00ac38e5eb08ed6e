/** src/casino_bot/telegram_bot/rate_limit.py: one sliding window per Telegram user. */
module TelegramRateLimit {

  /** Monotonic clock readings; floats are idealised as reals. */
  type Deque = seq<real>

  function Pruned(dq: Deque, cutoff: real): Deque {
    if dq != [] && dq[0] < cutoff then Pruned(dq[1..], cutoff) else dq
  }

  function BucketOf(buckets: map<int, Deque>, key: int): Deque {
    if key in buckets then buckets[key] else []
  }

  /** The state after one call, and its answer. */
  function Step(buckets: map<int, Deque>, key: int, maxEvents: int, window: real, now: real): (map<int, Deque>, bool) {
    if maxEvents <= 0 then (buckets, true) else
    var dq := Pruned(BucketOf(buckets, key), now - window);
    if |dq| >= maxEvents then (buckets[key := dq], false)
    else (buckets[key := dq + [now]], true)
  }

  /** The module-level dictionary of deques, changed in place. */
  class Limiter {
    var buckets: map<int, Deque>

    constructor ()
      ensures buckets == map[]
    {
      buckets := map[];
    }

    method Prune(key: int, cutoff: real)
      requires key in buckets
      modifies this
      ensures buckets == old(buckets)[key := Pruned(old(buckets)[key], cutoff)]
    {
      while buckets[key] != [] && buckets[key][0] < cutoff
        invariant key in buckets && buckets == old(buckets)[key := buckets[key]]
        invariant Pruned(buckets[key], cutoff) == Pruned(old(buckets)[key], cutoff)
        decreases |buckets[key]|
      {
        buckets := buckets[key := buckets[key][1..]];
      }
    }

    method Allow(key: int, maxEvents: int, window: real, now: real) returns (ok: bool)
      modifies this
      ensures (buckets, ok) == Step(old(buckets), key, maxEvents, window, now)
    {
      if maxEvents <= 0 {
        return true;
      }
      if key !in buckets {
        buckets := buckets[key := []];
      }
      Prune(key, now - window);
      assert buckets == old(buckets)[key := Pruned(BucketOf(old(buckets), key), now - window)];
      if |buckets[key]| >= maxEvents {
        return false;
      }
      buckets := buckets[key := buckets[key] + [now]];
      assert buckets == old(buckets)[key := Pruned(BucketOf(old(buckets), key), now - window) + [now]];
      return true;
    }
  }

  // ----- whole runs -----

  datatype Call = Call(key: int, now: real)

  /** The answers of the limiter over a run, and the deques it leaves. */
  function Run(calls: seq<Call>, maxEvents: int, window: real): (r: (map<int, Deque>, seq<bool>))
    ensures |r.1| == |calls|
  {
    if calls == [] then (map[], []) else
    var (buckets, answers) := Run(calls[..|calls| - 1], maxEvents, window);
    var last := calls[|calls| - 1];
    var (buckets', ok) := Step(buckets, last.key, maxEvents, window, last.now);
    (buckets', answers + [ok])
  }

  /** The reference limiter forgets nothing: it recounts every call it ever accepted for the key. */
  function Accepted(calls: seq<Call>, answers: seq<bool>, key: int): Deque
    requires |answers| == |calls|
  {
    if calls == [] then [] else
    var n := |calls| - 1;
    Accepted(calls[..n], answers[..n], key)
    + if answers[n] && calls[n].key == key then [calls[n].now] else []
  }

  /** How many times in a list are at or after `from`. */
  function CountFrom(times: Deque, from: real): nat {
    if times == [] then 0 else
    CountFrom(times[..|times| - 1], from) + if times[|times| - 1] >= from then 1 else 0
  }

  /** How many calls of the caller were accepted in the window before this one. */
  function Recount(calls: seq<Call>, answers: seq<bool>, next: Call, window: real): nat
    requires |answers| == |calls|
  {
    CountFrom(Accepted(calls, answers, next.key), next.now - window)
  }

  function NaiveRun(calls: seq<Call>, maxEvents: int, window: real): (answers: seq<bool>)
    ensures |answers| == |calls|
  {
    if calls == [] then [] else
    var n := |calls| - 1;
    var before := NaiveRun(calls[..n], maxEvents, window);
    var recent := Recount(calls[..n], before, calls[n], window);
    before + [maxEvents <= 0 || recent < maxEvents]
  }

  ghost predicate InTimeOrder(calls: seq<Call>) {
    forall i, j :: 0 <= i < j < |calls| ==> calls[i].now <= calls[j].now
  }

  ghost predicate Sorted(dq: Deque) {
    forall i, j :: 0 <= i < j < |dq| ==> dq[i] <= dq[j]
  }

  // ----- counting -----

  lemma {:induction false} CountSplit(a: Deque, b: Deque, from: real)
    ensures CountFrom(a + b, from) == CountFrom(a, from) + CountFrom(b, from)
  {
    if b == [] {
      assert a + b == a;
    } else {
      assert (a + b)[..|a + b| - 1] == a + b[..|b| - 1];
      CountSplit(a, b[..|b| - 1], from);
    }
  }

  lemma {:induction false} CountAfterBoundary(times: Deque, k: nat, from: real)
    requires k <= |times|
    requires forall i :: 0 <= i < |times| ==> (times[i] < from <==> i < k)
    ensures CountFrom(times, from) == |times| - k
  {
    if times != [] {
      CountAfterBoundary(times[..|times| - 1], if k == |times| then k - 1 else k, from);
    }
  }

  /** Pruning a sorted deque drops exactly its entries before the cutoff. */
  lemma {:induction false} PruneDropsStale(dq: Deque, cutoff: real) returns (k: nat)
    requires Sorted(dq)
    ensures k <= |dq| && Pruned(dq, cutoff) == dq[k..]
    ensures forall i :: 0 <= i < |dq| ==> (dq[i] < cutoff <==> i < k)
  {
    if dq != [] && dq[0] < cutoff {
      var k' := PruneDropsStale(dq[1..], cutoff);
      k := k' + 1;
      assert forall i :: 0 < i < |dq| ==> dq[i] == dq[1..][i - 1];
    } else {
      k := 0;
    }
  }

  // ----- the deque against full history -----

  /** Each deque is the accepted history of its key, sorted, minus a stale front part. */
  ghost predicate Tracks(history: Deque, dq: Deque, window: real, latest: real) {
    && |dq| <= |history| && dq == history[|history| - |dq|..]
    && SortedUpTo(history, latest) && Stale(history, |history| - |dq|, latest - window)
  }

  ghost predicate SortedUpTo(times: Deque, latest: real) {
    Sorted(times) && (times != [] ==> times[|times| - 1] <= latest)
  }

  ghost predicate Stale(times: Deque, n: nat, cutoff: real)
    requires n <= |times|
  {
    forall i :: 0 <= i < n ==> times[i] < cutoff
  }

  lemma TracksCount(history: Deque, dq: Deque, window: real, now: real)
    requires Tracks(history, dq, window, now)
    ensures |Pruned(dq, now - window)| == CountFrom(history, now - window)
    ensures Tracks(history, Pruned(dq, now - window), window, now)
  {
    var k := PruneDropsStale(dq, now - window);
    var front := |history| - |dq|;
    assert dq[k..] == history[front + k..];
    StaleFront(history, dq, k, now - window);
    CountAfterBoundary(history, front + k, now - window);
  }

  lemma StaleFront(history: Deque, dq: Deque, k: nat, cutoff: real)
    requires |dq| <= |history| && dq == history[|history| - |dq|..] && Stale(history, |history| - |dq|, cutoff)
    requires k <= |dq| && forall i :: 0 <= i < |dq| ==> (dq[i] < cutoff <==> i < k)
    ensures forall i :: 0 <= i < |history| ==> (history[i] < cutoff <==> i < |history| - |dq| + k)
  {
    var front := |history| - |dq|;
    forall i | 0 <= i < |history|
      ensures history[i] < cutoff <==> i < front + k
    {
      if i >= front {
        assert history[i] == dq[i - front];
      }
    }
  }

  lemma TracksAppend(history: Deque, dq: Deque, window: real, now: real)
    requires Tracks(history, dq, window, now)
    ensures Tracks(history + [now], dq + [now], window, now)
  {
  }

  lemma TracksLater(history: Deque, dq: Deque, window: real, latest: real, now: real)
    requires Tracks(history, dq, window, latest) && latest <= now
    ensures Tracks(history, dq, window, now)
  {
  }

  ghost predicate AllTrack(calls: seq<Call>, answers: seq<bool>, buckets: map<int, Deque>, window: real, now: real)
    requires |answers| == |calls|
  {
    forall key :: Tracks(Accepted(calls, answers, key), BucketOf(buckets, key), window, now)
  }

  lemma StepOne(buckets: map<int, Deque>, key: int, maxEvents: int, window: real, now: real, history: Deque)
    requires maxEvents > 0 && Tracks(history, BucketOf(buckets, key), window, now)
    ensures var (buckets', ok) := Step(buckets, key, maxEvents, window, now);
      && (ok <==> CountFrom(history, now - window) < maxEvents)
      && Tracks(if ok then history + [now] else history, BucketOf(buckets', key), window, now)
  {
    TracksCount(history, BucketOf(buckets, key), window, now);
    TracksAppend(history, Pruned(BucketOf(buckets, key), now - window), window, now);
  }

  lemma StepOther(buckets: map<int, Deque>, key: int, maxEvents: int, window: real, now: real, other: int)
    requires other != key
    ensures BucketOf(Step(buckets, key, maxEvents, window, now).0, other) == BucketOf(buckets, other)
  {
  }

  lemma AcceptedStep(calls: seq<Call>, answers: seq<bool>, key: int)
    requires |answers| == |calls| > 0
    ensures var n := |calls| - 1;
            var before := Accepted(calls[..n], answers[..n], key);
      Accepted(calls, answers, key) == if answers[n] && calls[n].key == key then before + [calls[n].now] else before
  {
    var before := Accepted(calls[..|calls| - 1], answers[..|calls| - 1], key);
    assert before + [] == before;
  }

  /** One step for the history and the deque of one key; `caller` is the key that calls. */
  lemma KeyTracks(buckets: map<int, Deque>, caller: int, maxEvents: int, window: real, now: real, key: int,
      history: Deque, history': Deque)
    requires maxEvents > 0 && Tracks(history, BucketOf(buckets, key), window, now)
    requires history' == if Step(buckets, caller, maxEvents, window, now).1 && caller == key
      then history + [now] else history
    ensures Tracks(history', BucketOf(Step(buckets, caller, maxEvents, window, now).0, key), window, now)
  {
    if caller == key {
      StepOne(buckets, key, maxEvents, window, now, history);
    } else {
      StepOther(buckets, caller, maxEvents, window, now, key);
    }
  }

  lemma RunStep(calls: seq<Call>, maxEvents: int, window: real)
    requires calls != []
    ensures var n := |calls| - 1;
            var (buckets, answers) := Run(calls[..n], maxEvents, window);
            var (buckets', ok) := Step(buckets, calls[n].key, maxEvents, window, calls[n].now);
      Run(calls, maxEvents, window).0 == buckets'
      && Run(calls, maxEvents, window).1[..n] == answers && Run(calls, maxEvents, window).1[n] == ok
  {
  }

  /** The last answer agrees with a recount. */
  ghost predicate LastAgrees(calls: seq<Call>, answers: seq<bool>, maxEvents: int, window: real)
    requires |answers| == |calls| > 0
  {
    var n := |calls| - 1;
    answers[n] <==> Recount(calls[..n], answers[..n], calls[n], window) < maxEvents
  }

  /** The deque of every key is the tail of what was accepted for it. */
  lemma {:induction false} RunTracks(calls: seq<Call>, maxEvents: int, window: real, key: int, now: real)
    requires InTimeOrder(calls) && (forall i :: 0 <= i < |calls| ==> calls[i].now <= now) && maxEvents > 0
    ensures Tracks(Accepted(calls, Run(calls, maxEvents, window).1, key),
        BucketOf(Run(calls, maxEvents, window).0, key),
                   window, now)
  {
    if calls != [] {
      var n := |calls| - 1;
      var last := calls[n];
      EarlierInOrder(calls, n);
      RunTracks(calls[..n], maxEvents, window, key, last.now);
      RunStep(calls, maxEvents, window);
      var (buckets, answers) := Run(calls, maxEvents, window);
      AcceptedStep(calls, answers, key);
      KeyTracks(Run(calls[..n], maxEvents, window).0, last.key, maxEvents, window, last.now, key,
                Accepted(calls[..n], answers[..n], key), Accepted(calls, answers, key));
      TracksLater(Accepted(calls, answers, key), BucketOf(buckets, key), window, last.now, now);
    }
  }

  /** An answer given on a deque that tracks the history agrees with a recount of the history. */
  lemma TrackedAnswer(buckets: map<int, Deque>, key: int, maxEvents: int, window: real,
      now: real, history: Deque, count: nat)
    requires maxEvents > 0 && Tracks(history, BucketOf(buckets, key), window, now)
    requires count == CountFrom(history, now - window)
    ensures Step(buckets, key, maxEvents, window, now).1 <==> count < maxEvents
  {
    StepOne(buckets, key, maxEvents, window, now, history);
  }

  /** What the limiter answers to one more call, after any run. */
  lemma NextDecision(calls: seq<Call>, last: Call, maxEvents: int, window: real)
    requires InTimeOrder(calls) && (forall i :: 0 <= i < |calls| ==> calls[i].now <= last.now) && maxEvents > 0
    ensures Step(Run(calls, maxEvents, window).0, last.key, maxEvents, window, last.now).1
       <==> Recount(calls, Run(calls, maxEvents, window).1, last, window) < maxEvents
  {
    RunTracks(calls, maxEvents, window, last.key, last.now);
    TrackedAnswer(Run(calls, maxEvents, window).0, last.key, maxEvents, window, last.now,
                  Accepted(calls, Run(calls, maxEvents, window).1, last.key),
                  Recount(calls, Run(calls, maxEvents, window).1, last, window));
  }

  lemma LastDecision(calls: seq<Call>, maxEvents: int, window: real)
    requires InTimeOrder(calls) && calls != [] && maxEvents > 0
    ensures LastAgrees(calls, Run(calls, maxEvents, window).1, maxEvents, window)
  {
    var n := |calls| - 1;
    EarlierInOrder(calls, n);
    NextDecision(calls[..n], calls[n], maxEvents, window);
    RunStep(calls, maxEvents, window);
  }

  lemma EarlierInOrder(calls: seq<Call>, n: nat)
    requires InTimeOrder(calls) && n < |calls|
    ensures InTimeOrder(calls[..n]) && forall i :: 0 <= i < n ==> calls[..n][i].now <= calls[n].now
  {
  }

  /** The recounting limiter gives a list of answers if it gave all but the last, and the last
      follows from its count. */
  lemma NaiveAnswers(calls: seq<Call>, answers: seq<bool>, maxEvents: int, window: real)
    requires |answers| == |calls| > 0
    requires var n := |calls| - 1;
      && answers[..n] == NaiveRun(calls[..n], maxEvents, window)
      && (if maxEvents <= 0 then answers[n] else LastAgrees(calls, answers, maxEvents, window))
    ensures answers == NaiveRun(calls, maxEvents, window)
  {
    assert answers == answers[..|calls| - 1] + [answers[|calls| - 1]];
  }

  /** For calls in time order, every answer equals that of the limiter that recounts all
      previously accepted calls of the user in the last `window` seconds, and (when the limit
      is on) every deque stays sorted and is the tail of that history. */
  lemma {:induction false} RefinesNaive(calls: seq<Call>, maxEvents: int, window: real, now: real)
    requires InTimeOrder(calls) && (forall i :: 0 <= i < |calls| ==> calls[i].now <= now)
    ensures Run(calls, maxEvents, window).1 == NaiveRun(calls, maxEvents, window)
    ensures maxEvents > 0 ==>
      AllTrack(calls, Run(calls, maxEvents, window).1, Run(calls, maxEvents, window).0, window, now)
  {
    if calls != [] {
      var n := |calls| - 1;
      RefinesNaive(calls[..n], maxEvents, window, calls[n].now);
      RunStep(calls, maxEvents, window);
      if maxEvents > 0 {
        LastDecision(calls, maxEvents, window);
      }
      NaiveAnswers(calls, Run(calls, maxEvents, window).1, maxEvents, window);
    }
    if maxEvents > 0 {
      forall key
        ensures Tracks(Accepted(calls, Run(calls, maxEvents, window).1, key),
                       BucketOf(Run(calls, maxEvents, window).0, key), window, now)
      {
        RunTracks(calls, maxEvents, window, key, now);
      }
    }
  }

  // ----- the bound -----

  /** How many accepted calls of a key fall into the closed interval [from, to]. */
  function AcceptedWithin(calls: seq<Call>, answers: seq<bool>, key: int, from: real, to: real): nat
    requires |answers| == |calls|
  {
    if calls == [] then 0 else
    var n := |calls| - 1;
    AcceptedWithin(calls[..n], answers[..n], key, from, to)
    + if answers[n] && calls[n].key == key && from <= calls[n].now <= to then 1 else 0
  }

  lemma {:induction false} WithinIsRecent(calls: seq<Call>, answers: seq<bool>, key: int, from: real, to: real)
    requires |answers| == |calls|
    ensures AcceptedWithin(calls, answers, key, from, to) <= CountFrom(Accepted(calls, answers, key), from)
  {
    if calls != [] {
      var n := |calls| - 1;
      WithinIsRecent(calls[..n], answers[..n], key, from, to);
      CountSplit(Accepted(calls[..n], answers[..n], key),
                 if answers[n] && calls[n].key == key then [calls[n].now] else [], from);
    }
  }

  /** No closed interval of one window's length ever holds more than `maxEvents` accepted
      calls of one user. */
  lemma {:induction false} WindowBound(calls: seq<Call>, maxEvents: int, window: real, key: int, from: real)
    requires InTimeOrder(calls) && maxEvents > 0
    ensures AcceptedWithin(calls, Run(calls, maxEvents, window).1, key, from, from + window) <= maxEvents
  {
    if calls != [] {
      var n := |calls| - 1;
      var rest, last := calls[..n], calls[n];
      WindowBound(rest, maxEvents, window, key, from);
      RunStep(calls, maxEvents, window);
      var answers := Run(calls, maxEvents, window).1;
      if answers[n] && last.key == key && from <= last.now <= from + window {
        LastDecision(calls, maxEvents, window);
        WithinIsRecent(rest, answers[..n], key, from, from + window);
        CountUpTo(Accepted(rest, answers[..n], key), last.now - window, from);
      }
    }
  }

  lemma {:induction false} CountUpTo(times: Deque, from: real, later: real)
    requires from <= later
    ensures CountFrom(times, later) <= CountFrom(times, from)
  {
    if times != [] {
      CountUpTo(times[..|times| - 1], from, later);
    }
  }

  // ----- users do not affect one another -----

  function Only(calls: seq<Call>, key: int): seq<Call> {
    if calls == [] then [] else
    Only(calls[..|calls| - 1], key) + if calls[|calls| - 1].key == key then [calls[|calls| - 1]] else []
  }

  function AnswersFor(calls: seq<Call>, answers: seq<bool>, key: int): seq<bool>
    requires |answers| == |calls|
  {
    if calls == [] then [] else
    var n := |calls| - 1;
    AnswersFor(calls[..n], answers[..n], key) + if calls[n].key == key then [answers[n]] else []
  }

  /** The step for a key depends on that key's deque alone. */
  lemma StepByBucket(a: map<int, Deque>, b: map<int, Deque>, key: int, maxEvents: int, window: real, now: real)
    requires BucketOf(a, key) == BucketOf(b, key)
    ensures Step(a, key, maxEvents, window, now).1 == Step(b, key, maxEvents, window, now).1
    ensures BucketOf(Step(a, key, maxEvents, window, now).0, key)
      == BucketOf(Step(b, key, maxEvents, window, now).0, key)
  {
  }

  lemma AnswersStep(calls: seq<Call>, answers: seq<bool>, key: int)
    requires |answers| == |calls| > 0
    ensures var n := |calls| - 1;
            var before := AnswersFor(calls[..n], answers[..n], key);
      AnswersFor(calls, answers, key) == if calls[n].key == key then before + [answers[n]] else before
  {
    var before := AnswersFor(calls[..|calls| - 1], answers[..|calls| - 1], key);
    assert before + [] == before;
  }

  lemma OnlyStep(calls: seq<Call>, key: int)
    requires calls != []
    ensures var n := |calls| - 1;
      if calls[n].key == key
      then Only(calls, key) == Only(calls[..n], key) + [calls[n]] &&
          Only(calls, key)[..|Only(calls[..n], key)|] == Only(calls[..n], key)
      else Only(calls, key) == Only(calls[..n], key)
  {
    var mine := Only(calls[..|calls| - 1], key);
    assert mine + [] == mine;
  }

  /** A user's answers are those the limiter would give if nobody else had called. */
  lemma {:induction false} UsersAreIndependent(calls: seq<Call>, maxEvents: int, window: real, key: int)
    ensures AnswersFor(calls, Run(calls, maxEvents, window).1, key) == Run(Only(calls, key), maxEvents, window).1
    ensures BucketOf(Run(calls, maxEvents, window).0, key) == BucketOf(Run(Only(calls, key), maxEvents, window).0, key)
  {
    if calls != [] {
      var n := |calls| - 1;
      UsersAreIndependent(calls[..n], maxEvents, window, key);
      RunStep(calls, maxEvents, window);
      AnswersStep(calls, Run(calls, maxEvents, window).1, key);
      OnlyStep(calls, key);
      var before := Run(calls[..n], maxEvents, window).0;
      if calls[n].key == key {
        RunStep(Only(calls, key), maxEvents, window);
        StepByBucket(before, Run(Only(calls[..n], key), maxEvents, window).0, key, maxEvents, window, calls[n].now);
        LastAnswer(Run(Only(calls, key), maxEvents, window).1);
      } else {
        StepOther(before, calls[n].key, maxEvents, window, calls[n].now, key);
      }
    }
  }

  lemma LastAnswer(answers: seq<bool>)
    requires answers != []
    ensures answers == answers[..|answers| - 1] + [answers[|answers| - 1]]
  {
  }
}
