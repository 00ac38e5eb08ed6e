/** src/casino_bot/core/security_middleware.py: the in-memory HTTP limiter.

  A request is checked when it arrives and recorded only after the wrapped handler has
  answered, so requests of one key may overlap between the two halves. */
module HttpRateLimit {
  import opened Common

  /** Monotonic clock readings, idealised as reals. */
  type Deque = seq<real>

  const WINDOW: real := 60.0

  function Pruned(queue: Deque, now: real): Deque {
    if queue != [] && now - queue[0] > WINDOW then Pruned(queue[1..], now) else queue
  }

  function QueueOf(hits: map<string, Deque>, key: string): Deque {
    if key in hits then hits[key] else []
  }

  /** The half before the await: prune, then admit or answer 429. */
  function Arrival(queue: Deque, limit: int, now: real): (Deque, bool) {
    var q := Pruned(queue, now);
    (q, |q| < limit)
  }

  /** The half after the await. A login is counted only when it was refused with 401. */
  predicate Counted(isLogin: bool, status: int) {
    !isLogin || status == 401
  }

  class Middleware {
    var hits: map<string, Deque>

    constructor ()
      ensures hits == map[]
    {
      hits := map[];
    }

    method Arrive(key: string, limit: int, now: real) returns (admitted: bool)
      modifies this
      ensures var (queue, ok) := Arrival(QueueOf(old(hits), key), limit, now);
              hits == old(hits)[key := queue] && admitted == ok
    {
      if key !in hits {
        hits := hits[key := []];
      }
      ghost var before := hits[key];
      while hits[key] != [] && now - hits[key][0] > WINDOW
        invariant key in hits && hits == old(hits)[key := hits[key]]
        invariant Pruned(hits[key], now) == Pruned(before, now)
        decreases |hits[key]|
      {
        hits := hits[key := hits[key][1..]];
      }
      admitted := |hits[key]| < limit;
    }

    method Respond(key: string, limit: int, started: real, isLogin: bool, status: int) returns (remaining: nat)
      modifies this
      ensures var queue := QueueOf(old(hits), key) + (if Counted(isLogin, status) then [started] else []);
              && hits == old(hits)[key := queue]
              && remaining == if limit > |queue| then limit - |queue| else 0
    {
      if key !in hits {
        hits := hits[key := []];
      }
      if !isLogin || status == 401 {
        hits := hits[key := hits[key] + [started]];
      }
      assert hits[key] == QueueOf(old(hits), key) + (if Counted(isLogin, status) then [started] else []);
      remaining := if limit > |hits[key]| then limit - |hits[key]| else 0;
    }
  }

  // ----- runs of one key, with overlapping requests -----

  /** Admitted requests are numbered in order of admission. A response has a status; `Fail` is a
      handler that raised, which records nothing. */
  datatype Event = Arrive(now: real) | Respond(request: nat, isLogin: bool, status: int) | Fail(request: nat)

  /** `started[i]` is when request i was admitted. `owners` says whose entry each element of the
      queue is; the middleware does not keep it. */
  datatype State = State(queue: Deque, owners: seq<nat>, started: seq<real>, inFlight: set<nat>, recorded: set<nat>)

  const INITIAL := State([], [], [], {}, {})

  predicate Enabled(s: State, e: Event) {
    e.Arrive? || e.request in s.inFlight
  }

  predicate Wellformed(s: State) {
    && |s.owners| == |s.queue|
    && (forall i :: i in s.inFlight ==> i < |s.started|)
    && (forall i :: i in s.recorded ==> i < |s.started|)
  }

  function Next(s: State, e: Event, limit: int): (s': State)
    requires Wellformed(s)
    ensures Wellformed(s')
  {
    if !Enabled(s, e) then s else
    match e
    case Arrive(now) =>
      var (q, ok) := Arrival(s.queue, limit, now);
      PrunedIsTail(s.queue, now);
      var s1 := s.(queue := q, owners := s.owners[|s.queue| - |q|..]);
      if ok then s1.(started := s.started + [now], inFlight := s.inFlight + {|s.started|}) else s1
    case Respond(i, isLogin, status) =>
      var s1 := s.(inFlight := s.inFlight - {i});
      if Counted(isLogin, status)
      then s1.(queue := s.queue + [s.started[i]], owners := s.owners + [i], recorded := s.recorded + {i})
      else s1
    case Fail(i) => s.(inFlight := s.inFlight - {i})
  }

  function After(events: seq<Event>, limit: int): (s: State)
    ensures Wellformed(s)
  {
    if events == [] then INITIAL
    else Next(After(events[..|events| - 1], limit), events[|events| - 1], limit)
  }

  /** A run that ends at clock reading `now`: every event is enabled, arrivals are in clock
      order, and at most k requests are ever in flight at once. */
  ghost predicate IsRun(events: seq<Event>, limit: int, k: nat, now: real) {
    if events == [] then true else
    var rest, e := events[..|events| - 1], events[|events| - 1];
    && IsRun(rest, limit, k, if e.Arrive? then e.now else now)
    && (e.Arrive? ==> e.now <= now)
    && Enabled(After(rest, limit), e)
    && |After(events, limit).inFlight| <= k
  }

  lemma {:induction false} PrunedIsTail(queue: Deque, now: real)
    ensures |Pruned(queue, now)| <= |queue|
    ensures Pruned(queue, now) == queue[|queue| - |Pruned(queue, now)|..]
    ensures forall j :: 0 <= j < |queue| - |Pruned(queue, now)| ==> now - queue[j] > WINDOW
  {
    if queue != [] && now - queue[0] > WINDOW {
      PrunedIsTail(queue[1..], now);
      assert forall j :: 0 < j < |queue| ==> queue[j] == queue[1..][j - 1];
    }
  }

  /** Requests admitted in the closed window starting at `from` that are recorded or may still be. */
  ghost function Admitted(s: State, from: real): set<nat> {
    set i | i in s.recorded + s.inFlight && i < |s.started| && from <= s.started[i] <= from + WINDOW
  }

  ghost function RecordedWithin(s: State, from: real): set<nat> {
    set i | i in s.recorded && i < |s.started| && from <= s.started[i] <= from + WINDOW
  }

  /** The queue holds every recorded request that is not stale. */
  ghost predicate Tracked(s: State, now: real) {
    && Wellformed(s)
    && (forall j :: 0 <= j < |s.owners| ==> s.owners[j] in s.recorded && s.queue[j] == s.started[s.owners[j]])
    && (forall i :: i in s.recorded && i !in s.owners ==> now - s.started[i] > WINDOW)
    && s.recorded !! s.inFlight
    && (forall i :: 0 <= i < |s.started| ==> s.started[i] <= now)
  }

  lemma TrackedLater(s: State, now: real, later: real)
    requires Tracked(s, now) && now <= later
    ensures Tracked(s, later)
  {
  }

  lemma TailMembers(s: seq<nat>, cut: nat)
    requires cut <= |s|
    ensures forall j :: cut <= j < |s| ==> s[j] in s[cut..]
  {
    assert forall j :: cut <= j < |s| ==> s[j] == s[cut..][j - cut];
  }

  /** What leaves the queue is stale, and what stays keeps its owner. */
  lemma TailTracks(s: State, cut: nat, now: real)
    requires Tracked(s, now) && cut <= |s.queue|
    requires forall j :: 0 <= j < cut ==> now - s.queue[j] > WINDOW
    ensures Tracked(Tail(s, cut), now)
  {
    var owners := s.owners[cut..];
    TailMembers(s.owners, cut);
    forall i | i in s.recorded && i !in owners
      ensures now - s.started[i] > WINDOW
    {
      if i in s.owners {
        var j :| 0 <= j < |s.owners| && s.owners[j] == i;
        assert j < cut;
      }
    }
  }

  lemma AdmitTracks(s: State, now: real)
    requires Tracked(s, now)
    ensures Tracked(Admit(s, now), now)
  {
    var started := s.started + [now];
    assert forall i :: 0 <= i < |s.started| ==> started[i] == s.started[i];
  }

  /** The queue without its stale front. */
  function Tail(s: State, cut: nat): State
    requires Wellformed(s) && cut <= |s.queue|
  {
    s.(queue := s.queue[cut..], owners := s.owners[cut..])
  }

  function Admit(s: State, now: real): State {
    s.(started := s.started + [now], inFlight := s.inFlight + {|s.started|})
  }

  lemma ArriveIsTail(s: State, limit: int, now: real)
    requires Wellformed(s)
    ensures |Pruned(s.queue, now)| <= |s.queue|
    ensures var q := Pruned(s.queue, now);
            var tail := Tail(s, |s.queue| - |q|);
      Next(s, Arrive(now), limit) == if |q| < limit then Admit(tail, now) else tail
  {
    PrunedIsTail(s.queue, now);
  }

  lemma ArriveTracks(s: State, limit: int, now: real)
    requires Tracked(s, now)
    ensures Tracked(Next(s, Arrive(now), limit), now)
  {
    PrunedIsTail(s.queue, now);
    ArriveIsTail(s, limit, now);
    var cut := |s.queue| - |Pruned(s.queue, now)|;
    TailTracks(s, cut, now);
    if |Pruned(s.queue, now)| < limit {
      AdmitTracks(Tail(s, cut), now);
      assert Next(s, Arrive(now), limit) == Admit(Tail(s, cut), now);
    } else {
      assert Next(s, Arrive(now), limit) == Tail(s, cut);
    }
  }

  lemma RespondTracks(s: State, i: nat, isLogin: bool, status: int, limit: int, now: real)
    requires Tracked(s, now) && i in s.inFlight
    ensures Tracked(Next(s, Respond(i, isLogin, status), limit), now)
  {
    var owners := s.owners + [i];
    assert owners[|s.owners|] == i && forall o :: o in s.owners ==> o in owners;
  }

  ghost function Elems(s: seq<nat>): set<nat> {
    set x | x in s
  }

  lemma {:induction false} ElemsSize(s: seq<nat>)
    ensures |Elems(s)| <= |s|
  {
    if s != [] {
      var n := |s| - 1;
      ElemsSize(s[..n]);
      assert s == s[..n] + [s[n]];
      assert Elems(s) == Elems(s[..n]) + {s[n]};
    }
  }

  /** At an admission every request of the current window is in flight or in the queue. */
  lemma AdmittedIsLive(s: State, now: real, from: real)
    requires Tracked(s, now) && now <= from + WINDOW
    ensures Admitted(s, from) <= Elems(s.owners) + s.inFlight
  {
  }

  /** Admitting one more request keeps the window's count within limit - 1 + k. */
  lemma ArriveBound(s: State, limit: int, now: real, from: real, k: nat)
    requires Tracked(s, now) && |Next(s, Arrive(now), limit).inFlight| <= k
    requires |Admitted(s, from)| <= if limit > 0 then limit - 1 + k else 0
    ensures |Admitted(Next(s, Arrive(now), limit), from)| <= if limit > 0 then limit - 1 + k else 0
  {
    var s' := Next(s, Arrive(now), limit);
    ArriveTracks(s, limit, now);
    if |s.started| in Admitted(s', from) {
      assert s'.started[|s.started|] == now && |s'.queue| < limit;
      AdmittedIsLive(s', now, from);
      ElemsSize(s'.owners);
      SubsetSize(Admitted(s', from), Elems(s'.owners) + s'.inFlight);
      UnionSize(Elems(s'.owners), s'.inFlight);
    } else {
      AdmittedUnchanged(s, limit, now, from);
      SubsetSize(Admitted(s', from), Admitted(s, from));
    }
  }

  lemma AdmittedUnchanged(s: State, limit: int, now: real, from: real)
    requires Wellformed(s)
    requires |s.started| !in Admitted(Next(s, Arrive(now), limit), from)
    ensures Admitted(Next(s, Arrive(now), limit), from) <= Admitted(s, from)
  {
  }

  ghost predicate Bounded(s: State, limit: int, k: nat) {
    forall from :: |Admitted(s, from)| <= if limit > 0 then limit - 1 + k else 0
  }

  lemma StepBound(s: State, e: Event, limit: int, now: real, k: nat)
    requires Tracked(s, now) && Enabled(s, e) && (e.Arrive? ==> e.now == now)
    requires Bounded(s, limit, k) && |Next(s, e, limit).inFlight| <= k
    ensures Tracked(Next(s, e, limit), now) && Bounded(Next(s, e, limit), limit, k)
  {
    var s' := Next(s, e, limit);
    match e {
      case Arrive(_) => ArriveTracks(s, limit, now);
      case Respond(i, isLogin, status) => RespondTracks(s, i, isLogin, status, limit, now);
      case Fail(i) =>
    }
    forall from
      ensures |Admitted(s', from)| <= if limit > 0 then limit - 1 + k else 0
    {
      if e.Arrive? {
        ArriveBound(s, limit, now, from, k);
      } else {
        SubsetSize(Admitted(s', from), Admitted(s, from));
      }
    }
  }

  lemma {:induction false} RunBound(events: seq<Event>, limit: int, k: nat, now: real)
    requires IsRun(events, limit, k, now)
    ensures Tracked(After(events, limit), now) && Bounded(After(events, limit), limit, k)
  {
    if events == [] {
      assert forall from :: Admitted(INITIAL, from) == {};
    } else {
      var rest, e := events[..|events| - 1], events[|events| - 1];
      var at := if e.Arrive? then e.now else now;
      RunBound(rest, limit, k, at);
      StepBound(After(rest, limit), e, limit, at, k);
      TrackedLater(After(events, limit), at, now);
    }
  }

  /** With at most k requests of a key in flight at once, at most limit - 1 + k of the requests
      admitted in any 60-second window are ever recorded, in whatever order they were recorded.
      Every non-login request that returns a response is recorded; of the logins, those refused
      with 401. */
  lemma OverlapBound(events: seq<Event>, limit: int, k: nat, now: real, from: real)
    requires IsRun(events, limit, k, now)
    ensures var s := After(events, limit);
      |set i | i in s.recorded && i < |s.started| && from <= s.started[i] <= from + 60.0|
        <= if limit > 0 then limit - 1 + k else 0
  {
    var s := After(events, limit);
    assert RecordedWithin(s, from)
        == set i | i in s.recorded && i < |s.started| && from <= s.started[i] <= from + 60.0;
    RunBound(events, limit, k, now);
    SubsetSize(RecordedWithin(After(events, limit), from), Admitted(After(events, limit), from));
  }

  // ----- which requests are recorded, and which are admitted -----

  /** Some event of the run is a response to request i that counts: of a login only a refusal with
      401, of any other request every response. */
  ghost predicate Answered(events: seq<Event>, i: nat) {
    exists j :: 0 <= j < |events| && CountsFor(events[j], i)
  }

  ghost predicate CountsFor(e: Event, i: nat) {
    e.Respond? && e.request == i && (e.isLogin ==> e.status == 401)
  }

  lemma AnsweredStep(events: seq<Event>, i: nat)
    requires events != []
    ensures Answered(events, i)
       <==> Answered(events[..|events| - 1], i) || CountsFor(events[|events| - 1], i)
  {
    var n := |events| - 1;
    if Answered(events[..n], i) {
      var j :| 0 <= j < n && CountsFor(events[..n][j], i);
      assert CountsFor(events[j], i);
    }
    if j :| 0 <= j < |events| && CountsFor(events[j], i) {
      assert j < n ==> CountsFor(events[..n][j], i);
    }
  }

  /** Exactly the requests with such a response are recorded. */
  lemma {:induction false} RecordedIff(events: seq<Event>, limit: int, k: nat, now: real, i: nat)
    requires IsRun(events, limit, k, now)
    ensures i in After(events, limit).recorded <==> Answered(events, i)
  {
    if events != [] {
      var rest, e := events[..|events| - 1], events[|events| - 1];
      RecordedIff(rest, limit, k, if e.Arrive? then e.now else now, i);
      AnsweredStep(events, i);
    }
  }

  /** No request owns two entries, and no entry is later than a request that is in flight. */
  ghost predicate InOrder(s: State) {
    && Wellformed(s)
    && (forall i, j :: 0 <= i < j < |s.queue| ==> s.owners[i] != s.owners[j] && s.queue[i] <= s.queue[j])
    && (forall i, j :: i in s.inFlight && 0 <= j < |s.queue| ==> s.queue[j] <= s.started[i])
  }

  lemma {:induction false} SerialInOrder(events: seq<Event>, limit: int, now: real)
    requires IsRun(events, limit, 1, now)
    ensures InOrder(After(events, limit))
  {
    if events != [] {
      var rest, e := events[..|events| - 1], events[|events| - 1];
      var at := if e.Arrive? then e.now else now;
      SerialInOrder(rest, limit, at);
      RunBound(rest, limit, 1, at);
      SerialStep(After(rest, limit), e, limit, at);
    }
  }

  lemma SerialStep(s: State, e: Event, limit: int, now: real)
    requires InOrder(s) && Tracked(s, now) && Enabled(s, e) && (e.Arrive? ==> e.now == now)
    requires |s.inFlight| <= 1 && |Next(s, e, limit).inFlight| <= 1
    ensures InOrder(Next(s, e, limit))
  {
    match e
    case Arrive(_) => ArriveInOrder(s, limit, now);
    case Respond(i, isLogin, status) =>
      OnlyOne(s.inFlight, i);
      assert s.inFlight - {i} == {};
      RespondInOrder(s, i, isLogin, status, limit, now);
    case Fail(_) =>
  }

  lemma ArriveInOrder(s: State, limit: int, now: real)
    requires InOrder(s) && Tracked(s, now)
    ensures InOrder(Next(s, Arrive(now), limit))
  {
    ArriveIsTail(s, limit, now);
    var cut := |s.queue| - |Pruned(s.queue, now)|;
    TailInOrder(s, cut);
    AdmitInOrder(Tail(s, cut), now);
  }

  lemma TailInOrder(s: State, cut: nat)
    requires InOrder(s) && cut <= |s.queue|
    ensures InOrder(Tail(s, cut))
  {
    var tail := Tail(s, cut);
    forall i, j | 0 <= i < j < |tail.queue|
      ensures tail.owners[i] != tail.owners[j] && tail.queue[i] <= tail.queue[j]
    {
      assert s.owners[cut + i] != s.owners[cut + j] && s.queue[cut + i] <= s.queue[cut + j];
    }
  }

  lemma AdmitInOrder(s: State, now: real)
    requires InOrder(s) && forall j :: 0 <= j < |s.queue| ==> s.queue[j] <= now
    ensures InOrder(Admit(s, now))
  {
    assert forall i :: i in s.inFlight ==> Admit(s, now).started[i] == s.started[i];
  }

  lemma RespondInOrder(s: State, i: nat, isLogin: bool, status: int, limit: int, now: real)
    requires InOrder(s) && Tracked(s, now) && i in s.inFlight && s.inFlight - {i} == {}
    ensures InOrder(Next(s, Respond(i, isLogin, status), limit))
  {
    var s' := Next(s, Respond(i, isLogin, status), limit);
    assert s'.inFlight == {};
    if s'.owners != s.owners {
      assert s'.owners == s.owners + [i] && s'.queue == s.queue + [s.started[i]];
      assert forall j :: 0 <= j < |s.owners| ==> s.owners[j] != i;
    }
  }

  lemma OnlyOne(flight: set<nat>, i: nat)
    requires i in flight && |flight| <= 1
    ensures flight == {i}
  {
    SubsetSize({i}, flight);
  }

  /** The recorded requests of the last 60 seconds. */
  ghost function Recent(s: State, now: real): set<nat> {
    set i | i in s.recorded && i < |s.started| && now - s.started[i] <= 60.0
  }

  /** In an ordered queue everything from the first entry that is not stale is recent. */
  lemma KeptAreRecent(s: State, cut: nat, now: real)
    requires Tracked(s, now) && InOrder(s) && cut <= |s.queue|
    requires cut < |s.queue| ==> now - s.queue[cut] <= 60.0
    ensures Elems(s.owners[cut..]) <= Recent(s, now)
  {
    var kept := s.owners[cut..];
    forall i | i in kept
      ensures i in Recent(s, now)
    {
      var j :| 0 <= j < |kept| && kept[j] == i;
      KeptIsRecent(s, cut, cut + j, now);
    }
  }

  lemma KeptIsRecent(s: State, cut: nat, j: nat, now: real)
    requires Tracked(s, now) && InOrder(s) && cut <= j < |s.queue| && now - s.queue[cut] <= 60.0
    ensures s.owners[j] in Recent(s, now)
  {
    assert s.queue[cut] <= s.queue[j] && s.queue[j] == s.started[s.owners[j]];
  }

  lemma RecentAreKept(s: State, cut: nat, now: real)
    requires Tracked(s, now) && cut <= |s.queue|
    requires forall j :: 0 <= j < cut ==> now - s.queue[j] > WINDOW
    ensures Recent(s, now) <= Elems(s.owners[cut..])
  {
    TailTracks(s, cut, now);
    var tail := Tail(s, cut);
    forall i | i in Recent(s, now)
      ensures i in tail.owners
    {
      assert i in tail.recorded && tail.started == s.started;
    }
  }

  lemma OwnersDistinct(s: State, cut: nat)
    requires InOrder(s) && cut <= |s.queue|
    ensures |Elems(s.owners[cut..])| == |s.queue| - cut
  {
    var kept := s.owners[cut..];
    forall i, j | 0 <= i < j < |kept|
      ensures kept[i] != kept[j]
    {
      assert s.owners[cut + i] != s.owners[cut + j];
    }
    DistinctSize(kept);
  }

  lemma RecentSize(s: State, cut: nat, now: real)
    requires Tracked(s, now) && InOrder(s) && cut <= |s.queue|
    requires forall j :: 0 <= j < cut ==> now - s.queue[j] > WINDOW
    requires cut < |s.queue| ==> now - s.queue[cut] <= 60.0
    ensures |Recent(s, now)| == |s.queue| - cut
  {
    KeptAreRecent(s, cut, now);
    RecentAreKept(s, cut, now);
    OwnersDistinct(s, cut);
    assert Recent(s, now) == Elems(s.owners[cut..]);
  }

  /** With its queue in order, a key's request is admitted exactly when fewer than `limit` of its
      recorded requests started within the last 60 seconds. */
  lemma AdmittedIff(s: State, limit: int, now: real)
    requires Tracked(s, now) && InOrder(s)
    ensures Arrival(s.queue, limit, now).1 <==> |Recent(s, now)| < limit
  {
    var q := Pruned(s.queue, now);
    PrunedIsTail(s.queue, now);
    PrunedFront(s.queue, now);
    var cut := |s.queue| - |q|;
    if q != [] {
      assert s.queue[cut] == q[0];
    }
    RecentSize(s, cut, now);
  }

  /** Pruning stops at the first entry that is not stale. */
  lemma {:induction false} PrunedFront(queue: Deque, now: real)
    ensures Pruned(queue, now) != [] ==> now - Pruned(queue, now)[0] <= 60.0
  {
    if queue != [] && now - queue[0] > WINDOW {
      PrunedFront(queue[1..], now);
    }
  }

  lemma {:induction false} DistinctSize(s: seq<nat>)
    requires forall i, j :: 0 <= i < j < |s| ==> s[i] != s[j]
    ensures |Elems(s)| == |s|
  {
    if s != [] {
      var n := |s| - 1;
      DistinctSize(s[..n]);
      assert s == s[..n] + [s[n]];
      assert Elems(s) == Elems(s[..n]) + {s[n]};
    }
  }

  /** So a key whose requests do not overlap is limited exactly: whatever came before, an arrival
      is answered 429 if and only if `limit` of its recorded requests started in the last 60 seconds. */
  lemma SerialLimitIsExact(events: seq<Event>, limit: int, now: real)
    requires IsRun(events, limit, 1, now)
    ensures var s := After(events, limit);
      Arrival(s.queue, limit, now).1 <==> |Recent(s, now)| < limit
  {
    SerialInOrder(events, limit, now);
    RunBound(events, limit, 1, now);
    AdmittedIff(After(events, limit), limit, now);
  }

  // ----- the bound is reached -----

  /** n requests served one after the other, then m more admitted before any of them returns,
      all at clock reading 0. */
  ghost predicate Burst(s: State, n: nat, m: nat) {
    && |s.queue| == n && (forall j :: 0 <= j < n ==> s.queue[j] == 0.0)
    && |s.started| == n + m && (forall i :: 0 <= i < n + m ==> s.started[i] == 0.0)
    && |s.inFlight| == m && (forall i: nat :: i in s.inFlight <==> n <= i < n + m)
    && (forall i: nat :: i in s.recorded <==> i < n)
  }

  lemma ArriveInBurst(s: State, n: nat, m: nat, limit: int)
    requires Wellformed(s) && Burst(s, n, m) && n < limit
    ensures Burst(Next(s, Arrive(0.0), limit), n, m + 1)
  {
    assert Pruned(s.queue, 0.0) == s.queue;
    var s' := Next(s, Arrive(0.0), limit);
    assert s'.started == s.started + [0.0] && s'.inFlight == s.inFlight + {n + m};
  }

  lemma RespondInBurst(s: State, n: nat, m: nat, limit: int)
    requires Wellformed(s) && Burst(s, n, m) && m > 0
    ensures n in s.inFlight && Burst(Next(s, Respond(n, false, 200), limit), n + 1, m - 1)
  {
    assert n in s.inFlight;
    var s' := Next(s, Respond(n, false, 200), limit);
    assert s'.queue == s.queue + [0.0] && s'.inFlight == s.inFlight - {n} && s'.recorded == s.recorded + {n};
  }

  /** Some run with at most k requests in flight ends in such a state. */
  ghost predicate Reached(events: seq<Event>, limit: int, k: nat, n: nat, m: nat) {
    IsRun(events, limit, k, 0.0) && Burst(After(events, limit), n, m)
  }

  lemma Extend(events: seq<Event>, e: Event, limit: int, k: nat)
    requires IsRun(events, limit, k, 0.0) && Enabled(After(events, limit), e) && (e.Arrive? ==> e.now == 0.0)
    requires |Next(After(events, limit), e, limit).inFlight| <= k
    ensures IsRun(events + [e], limit, k, 0.0)
    ensures After(events + [e], limit) == Next(After(events, limit), e, limit)
  {
    assert (events + [e])[..|events|] == events;
  }

  lemma ReachArrive(events: seq<Event>, limit: int, k: nat, n: nat, m: nat)
    requires Reached(events, limit, k, n, m) && n < limit && m < k
    ensures Reached(events + [Arrive(0.0)], limit, k, n, m + 1)
  {
    ArriveInBurst(After(events, limit), n, m, limit);
    Extend(events, Arrive(0.0), limit, k);
  }

  lemma ReachRespond(events: seq<Event>, limit: int, k: nat, n: nat, m: nat)
    requires Reached(events, limit, k, n, m) && 0 < m <= k
    ensures Reached(events + [Respond(n, false, 200)], limit, k, n + 1, m - 1)
  {
    RespondInBurst(After(events, limit), n, m, limit);
    Extend(events, Respond(n, false, 200), limit, k);
  }

  lemma {:induction false} ReachServed(n: nat, limit: int, k: nat) returns (events: seq<Event>)
    requires n < limit && k > 0
    ensures Reached(events, limit, k, n, 0)
  {
    if n == 0 {
      events := [];
    } else {
      var before := ReachServed(n - 1, limit, k);
      ReachArrive(before, limit, k, n - 1, 0);
      ReachRespond(before + [Arrive(0.0)], limit, k, n - 1, 1);
      events := before + [Arrive(0.0)] + [Respond(n - 1, false, 200)];
    }
  }

  lemma {:induction false} ReachBurst(n: nat, m: nat, limit: int, k: nat) returns (events: seq<Event>)
    requires n < limit && m <= k && k > 0
    ensures Reached(events, limit, k, n, m)
  {
    if m == 0 {
      events := ReachServed(n, limit, k);
    } else {
      var before := ReachBurst(n, m - 1, limit, k);
      ReachArrive(before, limit, k, n, m - 1);
      events := before + [Arrive(0.0)];
    }
  }

  /** Let the requests in flight return, lowest number first. */
  lemma {:induction false} DrainBurst(events: seq<Event>, n: nat, m: nat, limit: int, k: nat)
    returns (events': seq<Event>)
    requires Reached(events, limit, k, n, m) && m <= k
    ensures Reached(events', limit, k, n + m, 0)
    decreases m
  {
    if m == 0 {
      events' := events;
    } else {
      ReachRespond(events, limit, k, n, m);
      events' := DrainBurst(events + [Respond(n, false, 200)], n + 1, m - 1, limit, k);
    }
  }

  lemma {:induction false} InitialSegmentSize(s: set<nat>, n: nat)
    requires forall i: nat :: i in s <==> i < n
    ensures |s| == n
  {
    if n == 0 {
      assert s == {};
    } else {
      InitialSegmentSize(s - {n - 1}, n - 1);
    }
  }

  /** The bound is tight: for every limit and every k some run reaches it, all admissions in one
      instant. */
  lemma OverlapBoundIsTight(limit: int, k: nat) returns (events: seq<Event>)
    requires limit > 0 && k > 0
    ensures IsRun(events, limit, k, 0.0)
    ensures |RecordedWithin(After(events, limit), 0.0)| == limit - 1 + k
  {
    events := ReachBurst(limit - 1, k, limit, k);
    events := DrainBurst(events, limit - 1, k, limit, k);
    var s := After(events, limit);
    assert RecordedWithin(s, 0.0) == s.recorded;
    InitialSegmentSize(s.recorded, limit - 1 + k);
  }
}
