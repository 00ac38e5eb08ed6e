/** What webhook events and subscriptions keep over whole runs of src/casino_bot/services/billing_service.py:
    replays that come to an end or do not, and deliveries that nothing picks up again. */
module BillingLaws {
  import opened Common
  import opened Billing
  import Effects = BillingEffects

  // ----- repeated batches come to an end -----

  /** What a failed row still has in front of it. */
  function Weight(row: EventRow, provider: string, cfg: Settings): nat {
    if !Candidate(row, provider) then 0
    else if cfg.deadLetterAttempts - row.attempts > 1 then cfg.deadLetterAttempts - row.attempts
    else 1
  }

  function Work(events: seq<EventRow>, provider: string, cfg: Settings): nat {
    if events == [] then 0 else
    Work(events[..|events| - 1], provider, cfg) + Weight(events[|events| - 1], provider, cfg)
  }

  lemma {:induction false} WorkUpdate(events: seq<EventRow>, i: nat, row: EventRow, provider: string, cfg: Settings)
    requires i < |events|
    ensures Work(events[i := row], provider, cfg)
         == Work(events, provider, cfg) - Weight(events[i], provider, cfg) + Weight(row, provider, cfg)
  {
    var n := |events| - 1;
    if i == n {
      assert events[i := row][..n] == events[..n];
    } else {
      assert events[i := row][..n] == events[..n][i := row];
      WorkUpdate(events[..n], i, row, provider, cfg);
    }
  }

  /** Failed rows carry a payload of a known provider; intake guarantees it. */
  ghost predicate Replayable(events: seq<EventRow>, cfg: Settings) {
    forall row :: row in events && row.status == Failed ==>
      row.payload.Some? && row.provider in cfg.providers && row.payload.value.externalId != ""
  }

  /** Replaying the row in position i would break the unique key of the subscriptions table, or
      overflow. */
  predicate RowCrashes(db: Db, i: nat, cfg: Settings)
    requires i < |db.events|
  {
    db.events[i].payload.Some? && Crashes(db, db.events[i].payload.value, cfg)
  }

  /** A replay of a candidate that does not crash leaves strictly less work. */
  lemma ReplayLessens(db: Db, i: nat, provider: string, cfg: Settings, now: int)
    requires Replayable(db.events, cfg) && i < |db.events| && Candidate(db.events[i], provider)
    ensures var (db', reply) := ReplayAt(db, i, cfg, now);
      && (reply.Crash? <==> RowCrashes(db, i, cfg))
      && (reply.Crash? ==> db' == db)
      && (!reply.Crash? ==> Work(db'.events, provider, cfg) < Work(db.events, provider, cfg))
      && Replayable(db'.events, cfg) && db'.users == db.users
      && (forall j :: 0 <= j < |db.events| && j != i ==> db'.events[j] == db.events[j])
  {
    var row := db.events[i];
    assert row in db.events;
    var (db', reply) := ReplayAt(db, i, cfg, now);
    if !reply.Crash? {
      var row' := db'.events[i];
      assert db'.events == db.events[i := row'];
      assert LessWork(row, row', cfg);
      LessWeight(row, row', provider, cfg);
      WorkUpdate(db.events, i, row', provider, cfg);
      UpdateReplayable(db.events, i, row', cfg);
    }
  }

  /** What a replay that ends normally does to its row. */
  predicate LessWork(row: EventRow, row': EventRow, cfg: Settings) {
    && row'.provider == row.provider && row'.payload == row.payload && row'.attempts == row.attempts + 1
    && (row'.attempts >= cfg.deadLetterAttempts ==> row'.deadLetter)
  }

  lemma LessWeight(row: EventRow, row': EventRow, provider: string, cfg: Settings)
    requires Candidate(row, provider) && LessWork(row, row', cfg)
    ensures Weight(row', provider, cfg) < Weight(row, provider, cfg)
  {
  }

  lemma UpdateReplayable(events: seq<EventRow>, i: nat, row: EventRow, cfg: Settings)
    requires Replayable(events, cfg) && i < |events| && events[i].status == Failed
    requires row.provider == events[i].provider && row.payload == events[i].payload
    ensures Replayable(events[i := row], cfg)
  {
    assert events[i] in events;
  }

  lemma {:induction false} ReplayAllLessens(db: Db, todo: seq<nat>, provider: string, cfg: Settings, now: int)
    requires Replayable(db.events, cfg)
    requires forall k :: 0 <= k < |todo| ==> todo[k] < |db.events| && Candidate(db.events[todo[k]], provider)
    requires forall j, k :: 0 <= j < k < |todo| ==> todo[j] < todo[k]
    ensures var (db', crashed) := ReplayAll(db, todo, cfg, now);
      && Work(db'.events, provider, cfg) <= Work(db.events, provider, cfg)
      && (todo != [] && !RowCrashes(db, todo[0], cfg) ==>
            Work(db'.events, provider, cfg) < Work(db.events, provider, cfg))
      && (todo != [] && RowCrashes(db, todo[0], cfg) ==> db' == db && crashed)
      && Replayable(db'.events, cfg) && db'.users == db.users
    decreases |todo|
  {
    if todo != [] {
      ReplayLessens(db, todo[0], provider, cfg, now);
      var (db1, reply) := ReplayAt(db, todo[0], cfg, now);
      if !reply.Crash? {
        ReplayAllLessens(db1, todo[1..], provider, cfg, now);
      }
    }
  }

  /** A batch makes progress exactly when its first candidate does not crash; otherwise it
      changes nothing, and so does every later one until the data change. */
  lemma BatchProgressIff(db: Db, provider: string, limit: nat, cfg: Settings, now: int)
    requires Replayable(db.events, cfg) && limit >= 1 && Candidates(db.events, provider, limit) != []
    ensures var (db', crashed) := ReplayFailedEvents(db, provider, limit, cfg, now);
            var first := Candidates(db.events, provider, limit)[0];
      && Replayable(db'.events, cfg)
      && (Work(db'.events, provider, cfg) < Work(db.events, provider, cfg) <==> !RowCrashes(db, first, cfg))
      && (RowCrashes(db, first, cfg) ==> db' == db && crashed)
  {
    ReplayAllLessens(db, Candidates(db.events, provider, limit), provider, cfg, now);
  }

  /** No candidate of the provider carries an empty subscription id or an overflowing period end,
      the only ways to crash. */
  ghost predicate Harmless(events: seq<EventRow>, provider: string, cfg: Settings) {
    forall row :: row in events && Candidate(row, provider) && row.payload.Some? ==>
      row.payload.value.subscription != Some("") && !Overflows(row.payload.value, cfg.grace)
  }

  lemma {:induction false} ReplayAllKeeps(db: Db, todo: seq<nat>, provider: string, cfg: Settings, now: int)
    requires UniqueSubs(db.subs) && Harmless(db.events, provider, cfg) && Replayable(db.events, cfg)
    requires forall k :: 0 <= k < |todo| ==> todo[k] < |db.events| && Candidate(db.events[todo[k]], provider)
    requires forall j, k :: 0 <= j < k < |todo| ==> todo[j] < todo[k]
    ensures var (db', crashed) := ReplayAll(db, todo, cfg, now);
      UniqueSubs(db'.subs) && Harmless(db'.events, provider, cfg) && !crashed
    decreases |todo|
  {
    if todo != [] {
      var (db1, reply) := ReplayAt(db, todo[0], cfg, now);
      ReplayKeeps(db, todo[0], provider, cfg, now);
      ReplayLessens(db, todo[0], provider, cfg, now);
      ReplayAllKeeps(db1, todo[1..], provider, cfg, now);
    }
  }

  lemma ReplayKeeps(db: Db, i: nat, provider: string, cfg: Settings, now: int)
    requires UniqueSubs(db.subs) && Harmless(db.events, provider, cfg)
    requires i < |db.events| && Candidate(db.events[i], provider)
    ensures var (db', reply) := ReplayAt(db, i, cfg, now);
      UniqueSubs(db'.subs) && Harmless(db'.events, provider, cfg) && !reply.Crash?
  {
    var row := db.events[i];
    assert row in db.events;
    if row.payload.Some? && row.provider in cfg.providers {
      var e := row.payload.value;
      var user := ResolveUser(db.users, e);
      if !Skipped(e) && user.Some? {
        UpsertUniqueIff(db.subs, e, user.value, ChooseSub(db.subs, e, user.value), cfg.grace, now);
      }
    }
  }

  function Repeat(db: Db, provider: string, limit: nat, cfg: Settings, times: seq<int>): Db
    decreases |times|
  {
    if times == [] then db else
    Repeat(ReplayFailedEvents(db, provider, limit, cfg, times[0]).0, provider, limit, cfg, times[1..])
  }

  /** The next batch would stop at its first row, which crashes. */
  predicate Stuck(db: Db, provider: string, limit: nat, cfg: Settings) {
    var todo := Candidates(db.events, provider, limit);
    todo != [] && RowCrashes(db, todo[0], cfg)
  }

  /** A stuck batch changes nothing, however often it is repeated. */
  lemma {:induction false} StuckForever(db: Db, provider: string, limit: nat, cfg: Settings, times: seq<int>)
    requires Replayable(db.events, cfg) && Stuck(db, provider, limit, cfg)
    ensures Repeat(db, provider, limit, cfg, times) == db
    decreases |times|
  {
    if times != [] {
      BatchProgressIff(db, provider, limit, cfg, times[0]);
      StuckForever(db, provider, limit, cfg, times[1..]);
    }
  }

  /** No batch of the repetition is stuck when its turn comes. */
  predicate NeverStuck(db: Db, provider: string, limit: nat, cfg: Settings, times: seq<int>)
    decreases |times|
  {
    if times == [] then true else
    && !Stuck(db, provider, limit, cfg)
    && NeverStuck(ReplayFailedEvents(db, provider, limit, cfg, times[0]).0, provider, limit, cfg, times[1..])
  }

  /** Repeating the batch as often as there was work leaves no failed row of the provider outside
      the dead letters if and only if no batch of the repetition was stuck. */
  lemma {:induction false} RepeatFinishesIff(db: Db, provider: string, limit: nat, cfg: Settings, times: seq<int>)
    requires Replayable(db.events, cfg) && limit >= 1 && |times| >= Work(db.events, provider, cfg)
    ensures (forall row :: row in Repeat(db, provider, limit, cfg, times).events ==> !Candidate(row, provider))
       <==> NeverStuck(db, provider, limit, cfg, times)
    decreases |times|
  {
    var todo := Candidates(db.events, provider, limit);
    if times == [] {
      NoWorkNoCandidates(db.events, provider, cfg);
    } else if todo == [] {
      NoCandidatesNoWork(db.events, provider, cfg);
      RepeatFinishesIff(db, provider, limit, cfg, times[1..]);
    } else if Stuck(db, provider, limit, cfg) {
      StuckForever(db, provider, limit, cfg, times);
      assert db.events[todo[0]] in db.events;
    } else {
      BatchProgressIff(db, provider, limit, cfg, times[0]);
      RepeatFinishesIff(ReplayFailedEvents(db, provider, limit, cfg, times[0]).0, provider, limit, cfg, times[1..]);
    }
  }

  /** Harmless candidates are never stuck. */
  lemma {:induction false} HarmlessNeverStuck(db: Db, provider: string, limit: nat, cfg: Settings, times: seq<int>)
    requires Replayable(db.events, cfg) && UniqueSubs(db.subs) && Harmless(db.events, provider, cfg)
    ensures NeverStuck(db, provider, limit, cfg, times)
    decreases |times|
  {
    if times != [] {
      var todo := Candidates(db.events, provider, limit);
      if todo != [] {
        ReplayKeeps(db, todo[0], provider, cfg, times[0]);
        ReplayLessens(db, todo[0], provider, cfg, times[0]);
      }
      ReplayAllKeeps(db, todo, provider, cfg, times[0]);
      ReplayAllLessens(db, todo, provider, cfg, times[0]);
      HarmlessNeverStuck(ReplayFailedEvents(db, provider, limit, cfg, times[0]).0, provider, limit, cfg, times[1..]);
    }
  }

  /** So repetition finishes whenever no failed row of the provider outside the dead letters has an
      empty subscription id or an overflowing period end. */
  lemma RepeatedReplayFinishes(db: Db, provider: string, limit: nat, cfg: Settings, times: seq<int>)
    requires Replayable(db.events, cfg) && UniqueSubs(db.subs) && Harmless(db.events, provider, cfg) && limit >= 1
    requires |times| >= Work(db.events, provider, cfg)
    ensures forall row :: row in Repeat(db, provider, limit, cfg, times).events ==> !Candidate(row, provider)
  {
    HarmlessNeverStuck(db, provider, limit, cfg, times);
    RepeatFinishesIff(db, provider, limit, cfg, times);
  }

  lemma {:induction false} NoWorkNoCandidates(events: seq<EventRow>, provider: string, cfg: Settings)
    requires Work(events, provider, cfg) == 0
    ensures forall row :: row in events ==> !Candidate(row, provider)
  {
    if events != [] {
      var n := |events| - 1;
      NoWorkNoCandidates(events[..n], provider, cfg);
      assert events == events[..n] + [events[n]];
    }
  }

  lemma {:induction false} NoCandidatesNoWork(events: seq<EventRow>, provider: string, cfg: Settings)
    requires forall row :: row in events ==> !Candidate(row, provider)
    ensures Work(events, provider, cfg) == 0
  {
    if events != [] {
      var n := |events| - 1;
      NoCandidatesNoWork(events[..n], provider, cfg);
    }
  }

  // ----- whole runs -----

  datatype Op =
    | AddUser(user: User)
    | Receive(e: Event, emptyPayload: bool, fault: Fault, now: int)
    | Replay(i: nat, now: int)
    | ReplayBatch(provider: string, limit: nat, now: int)
    | UndeleteOne(i: nat)
    | Cleanup(now: int)

  /** An empty JSON object has no event id: every adapter parses it to an event without one. */
  ghost predicate Parsed(op: Op) {
    op.Receive? && op.emptyPayload ==> op.e.externalId == ""
  }

  function Next(db: Db, op: Op, cfg: Settings): Db {
    match op
    case AddUser(user) => db.(users := db.users + [user])
    case Receive(e, emptyPayload, fault, now) => Intake(db, e, emptyPayload, fault, cfg, now).0
    case Replay(i, now) => ReplayAt(db, i, cfg, now).0
    case ReplayBatch(provider, limit, now) => ReplayFailedEvents(db, provider, limit, cfg, now).0
    case UndeleteOne(i) => Undelete(db, i).0
    case Cleanup(now) => db.(events := Kept(db.events, now - if cfg.retention > 0 then cfg.retention else 0))
  }

  function Run(ops: seq<Op>, cfg: Settings): Db {
    if ops == [] then Db([], [], []) else Next(Run(ops[..|ops| - 1], cfg), ops[|ops| - 1], cfg)
  }

  predicate OwnPayload(row: EventRow, cfg: Settings) {
    && row.provider in cfg.providers
    && (row.payload.Some? ==>
          row.payload.value.provider == row.provider && row.payload.value.externalId == row.externalId)
    && (row.payload.None? ==> row.externalId == "")
  }

  /** What every run keeps: unique subscriptions, stored payloads of their own provider, and
      failed rows that can be replayed. */
  ghost predicate Sound(db: Db, cfg: Settings) {
    && UniqueSubs(db.subs) && Replayable(db.events, cfg)
    && forall row :: row in db.events ==> OwnPayload(row, cfg)
  }

  lemma ReplayKeepsSound(db: Db, i: nat, cfg: Settings, now: int)
    requires Sound(db, cfg)
    ensures Sound(ReplayAt(db, i, cfg, now).0, cfg)
  {
    if i < |db.events| {
      assert db.events[i] in db.events;
      if db.events[i].payload.Some? {
        ProcessKeepsSound(db, i, db.events[i].payload.value, cfg, now);
      }
    }
  }

  lemma ProcessKeepsSound(db: Db, i: nat, e: Event, cfg: Settings, now: int)
    requires Sound(db, cfg) && i < |db.events|
    requires db.events[i].payload == Some(e) || (db.events[i].payload.None? && e.externalId == "")
    ensures Sound(Process(db, i, e, cfg, now).0, cfg)
  {
    assert db.events[i] in db.events;
    var user := ResolveUser(db.users, e);
    if !Skipped(e) && user.Some? {
      UpsertUniqueIff(db.subs, e, user.value, ChooseSub(db.subs, e, user.value), cfg.grace, now);
    }
  }

  lemma {:induction false} ReplayAllKeepsSound(db: Db, todo: seq<nat>, cfg: Settings, now: int)
    requires Sound(db, cfg) && forall k :: 0 <= k < |todo| ==> todo[k] < |db.events|
    ensures Sound(ReplayAll(db, todo, cfg, now).0, cfg)
    decreases |todo|
  {
    if todo != [] {
      ReplayKeepsSound(db, todo[0], cfg, now);
      var (db1, reply) := ReplayAt(db, todo[0], cfg, now);
      if !reply.Crash? {
        ReplayAllKeepsSound(db1, todo[1..], cfg, now);
      }
    }
  }

  lemma HalfUpsertUnique(subs: seq<Sub>, e: Event, user: nat, pick: nat, now: int)
    requires UniqueSubs(subs) && pick <= |subs| && !Clash(subs, e, pick)
    ensures UniqueSubs(HalfUpserted(subs, e, user, pick, now))
  {
    var subs' := HalfUpserted(subs, e, user, pick, now);
    forall i, j | 0 <= i < j < |subs'| && subs'[i].subscription.Some?
      ensures !(subs'[i].provider == subs'[j].provider && subs'[i].subscription == subs'[j].subscription)
    {
      assert i != pick && j != pick ==> subs'[i] == subs[i] && subs'[j] == subs[j];
      assert i == pick ==> subs'[j] == subs[j];
      assert j == pick ==> subs'[i] == subs[i];
    }
  }

  lemma InterruptedKeepsSound(db: Db, i: nat, e: Event, fault: Fault, cfg: Settings, now: int)
    requires Sound(db, cfg) && i < |db.events| && db.events[i].status == Received && Raises(db, e, fault, cfg)
    requires !(fault == NoFault && Clashes(db, e))
    ensures Sound(Interrupted(db, i, e, fault, cfg, now), cfg)
  {
    assert db.events[i] in db.events;
    if fault == NoFault {
      var user := ResolveUser(db.users, e).value;
      HalfUpsertUnique(db.subs, e, user, ChooseSub(db.subs, e, user), now);
    }
  }

  lemma ReceiveKeepsSound(db: Db, e: Event, emptyPayload: bool, fault: Fault, cfg: Settings, now: int)
    requires Sound(db, cfg) && (emptyPayload ==> e.externalId == "")
    ensures Sound(Intake(db, e, emptyPayload, fault, cfg, now).0, cfg)
  {
    if e.provider in cfg.providers {
      var more := db.(events := db.events + [NewRow(e, emptyPayload, now)]);
      assert Sound(more, cfg);
      if !Raises(more, e, fault, cfg) {
        ProcessKeepsSound(more, |db.events|, e, cfg, now);
      } else if !(fault == NoFault && Clashes(db, e)) {
        InterruptedKeepsSound(more, |db.events|, e, fault, cfg, now);
      }
    }
  }

  lemma UndeleteKeepsSound(db: Db, i: nat, cfg: Settings)
    requires Sound(db, cfg)
    ensures Sound(Undelete(db, i).0, cfg)
  {
    if i < |db.events| {
      assert db.events[i] in db.events;
    }
  }

  lemma CleanupKeepsSound(db: Db, cutoff: int, cfg: Settings)
    requires Sound(db, cfg)
    ensures Sound(db.(events := Kept(db.events, cutoff)), cfg)
  {
    CleanupKeeps(db.events, cutoff);
  }

  /** Every run of deliveries, replays, undeletes and cleanups keeps the subscription key unique
      and every failed row replayable, so BatchProgressIff applies to each of its states. */
  lemma {:induction false} RunIsSound(ops: seq<Op>, cfg: Settings)
    requires forall op :: op in ops ==> Parsed(op)
    ensures Sound(Run(ops, cfg), cfg)
  {
    if ops != [] {
      var rest, op := ops[..|ops| - 1], ops[|ops| - 1];
      RunIsSound(rest, cfg);
      assert op in ops;
      var db := Run(rest, cfg);
      match op
      case AddUser(_) =>
      case Receive(e, emptyPayload, fault, now) => ReceiveKeepsSound(db, e, emptyPayload, fault, cfg, now);
      case Replay(i, now) => ReplayKeepsSound(db, i, cfg, now);
      case ReplayBatch(provider, limit, now) =>
        ReplayAllKeepsSound(db, Candidates(db.events, provider, limit), cfg, now);
      case UndeleteOne(i) => UndeleteKeepsSound(db, i, cfg);
      case Cleanup(now) => CleanupKeepsSound(db, now - if cfg.retention > 0 then cfg.retention else 0, cfg);
    }
  }

  // ----- deliveries that stay received -----

  /** The event is new and of a known provider, is not ignored, and its attempt meets an exception
      while the user is looked up, or a period end too late for its grace time when nothing breaks
      the unique key. */
  ghost predicate StoredUnprocessed(db: Db, e: Event, fault: Fault, cfg: Settings) {
    && e.provider in cfg.providers && !Effects.Known(db.events, e)
    && e.externalId != "" && (e.status.Some? || e.eventType == "")
    && (fault == OnLookup
        || (ResolveUser(db.users, e).Some? && Effects.TooLate(e, cfg.grace) && !Clashes(db, e)))
  }

  /** Which deliveries leave a received row: those of a new event that raise something other than a
      key violation, as an overflowing period end does. */
  lemma UnprocessedIff(db: Db, e: Event, emptyPayload: bool, fault: Fault, cfg: Settings, now: int)
    ensures var events := Intake(db, e, emptyPayload, fault, cfg, now).0.events;
      && StoredUnprocessed(db, e, fault, cfg) == (|events| == |db.events| + 1 && events[|db.events|].status == Received)
      && (StoredUnprocessed(db, e, fault, cfg) ==>
            && events[..|db.events|] == db.events && SameEvent(events[|db.events|], e)
            && events[|db.events|].attempts == 1 && events[|db.events|].errorCode == "processing_error")
  {
    Effects.KnownIff(db.events, e);
  }

  /** What happens without an operator choosing a single row: deliveries, batches and cleanups. */
  predicate Unattended(op: Op) {
    op.AddUser? || op.Receive? || op.ReplayBatch? || op.Cleanup?
  }

  lemma ReplayKeepsReceived(db: Db, i: nat, cfg: Settings, now: int, row: EventRow)
    requires i < |db.events| && db.events[i].status == Failed && row in db.events && row.status == Received
    ensures row in ReplayAt(db, i, cfg, now).0.events
  {
    var k :| 0 <= k < |db.events| && db.events[k] == row;
    assert ReplayAt(db, i, cfg, now).0.events[k] == row;
  }

  lemma {:induction false} BatchKeepsReceived(db: Db, todo: seq<nat>, cfg: Settings, now: int, row: EventRow)
    requires forall k :: 0 <= k < |todo| ==> todo[k] < |db.events| && db.events[todo[k]].status == Failed
    requires forall j, k :: 0 <= j < k < |todo| ==> todo[j] < todo[k]
    requires row in db.events && row.status == Received
    ensures row in ReplayAll(db, todo, cfg, now).0.events
    decreases |todo|
  {
    if todo != [] {
      ReplayKeepsReceived(db, todo[0], cfg, now, row);
      var (db1, reply) := ReplayAt(db, todo[0], cfg, now);
      if !reply.Crash? {
        assert forall k :: 0 < k < |todo| ==> db1.events[todo[k]] == db.events[todo[k]];
        BatchKeepsReceived(db1, todo[1..], cfg, now, row);
      }
    }
  }

  lemma StepKeepsReceived(db: Db, op: Op, cfg: Settings, row: EventRow)
    requires Unattended(op) && row in db.events && row.status == Received
    ensures row in Next(db, op, cfg).events
  {
    match op
    case AddUser(_) =>
    case Receive(e, emptyPayload, fault, now) => IntakeOnlyAppends(db, e, emptyPayload, fault, cfg, now);
    case ReplayBatch(provider, limit, now) =>
      BatchKeepsReceived(db, Candidates(db.events, provider, limit), cfg, now, row);
    case Cleanup(now) => CleanupKeeps(db.events, now - if cfg.retention > 0 then cfg.retention else 0);
  }

  lemma IntakeOnlyAppends(db: Db, e: Event, emptyPayload: bool, fault: Fault, cfg: Settings, now: int)
    ensures db.events <= Intake(db, e, emptyPayload, fault, cfg, now).0.events
  {
  }

  lemma {:induction false} RowStays(ops: seq<Op>, more: seq<Op>, cfg: Settings, row: EventRow)
    requires row in Run(ops, cfg).events && row.status == Received
    requires forall op :: op in more ==> Unattended(op)
    ensures row in Run(ops + more, cfg).events
  {
    if more == [] {
      assert ops + more == ops;
    } else {
      var n := |more| - 1;
      assert forall op :: op in more[..n] ==> op in more;
      RowStays(ops, more[..n], cfg, row);
      assert (ops + more)[..|ops + more| - 1] == ops + more[..n] && more[n] in more;
      StepKeepsReceived(Run(ops + more[..n], cfg), more[n], cfg, row);
    }
  }

  lemma RedeliveryIsIdempotent(db: Db, row: EventRow, e: Event, emptyPayload: bool,
      fault: Fault, cfg: Settings, now: int)
    requires row in db.events && SameEvent(row, e) && row.provider in cfg.providers
    ensures Intake(db, e, emptyPayload, fault, cfg, now) == (db, Status(Idempotent))
  {
  }

  /** A received row is out of reach: over every further run of deliveries, batch replays, cleanups
      and new users it stays as it is, no batch ever selects it, and every redelivery of its event
      is answered as idempotent and changes nothing. */
  lemma ReceivedStays(ops: seq<Op>, more: seq<Op>, cfg: Settings, row: EventRow)
    requires row in Run(ops, cfg).events && row.status == Received && row.provider in cfg.providers
    requires forall op :: op in more ==> Unattended(op)
    ensures var db := Run(ops + more, cfg);
      && row in db.events && (forall provider :: !Candidate(row, provider))
      && (forall e, emptyPayload, fault, now :: SameEvent(row, e) ==>
            Intake(db, e, emptyPayload, fault, cfg, now) == (db, Status(Idempotent)))
  {
    RowStays(ops, more, cfg, row);
    var db := Run(ops + more, cfg);
    forall e, emptyPayload, fault, now | SameEvent(row, e)
      ensures Intake(db, e, emptyPayload, fault, cfg, now) == (db, Status(Idempotent))
    {
      RedeliveryIsIdempotent(db, row, e, emptyPayload, fault, cfg, now);
    }
  }

  function EndlessEvent(): Event {
    Event("stripe", "1", "", Some("x"), Some("s"), Some("active"), None, Some(MAX_TIME), false, None)
  }

  /** It does happen, with any positive grace period: the delivery of a subscription that is active
      up to the last second of the year 9999 stays received for good, although its user is known. */
  lemma OverflowStaysReceived(cfg: Settings, now: int, more: seq<Op>)
    requires "stripe" in cfg.providers && cfg.grace > 0 && forall op :: op in more ==> Unattended(op)
    ensures var ops := [AddUser(User(1, Some("x"))), Receive(EndlessEvent(), false, NoFault, now)];
      && |Run(ops, cfg).events| == 1 && Run(ops, cfg).events[0].status == Received
      && Run(ops, cfg).events[0] in Run(ops + more, cfg).events
  {
    var u, d := AddUser(User(1, Some("x"))), Receive(EndlessEvent(), false, NoFault, now);
    RunOfTwo(u, d, cfg);
    var db := Next(Db([], [], []), u, cfg);
    KnownUser(db);
    assert !Effects.Known(db.events, EndlessEvent());
    UnprocessedIff(db, EndlessEvent(), false, NoFault, cfg, now);
    var row := Run([u, d], cfg).events[0];
    assert row in Run([u, d], cfg).events;
    ReceivedStays([u, d], more, cfg, row);
  }

  lemma KnownUser(db: Db)
    requires db == Db([User(1, Some("x"))], [], [])
    ensures ResolveUser(db.users, EndlessEvent()).Some? && !Clashes(db, EndlessEvent()) && !Skipped(EndlessEvent())
  {
    assert |"1"| == |"x"| == 1;
  }

  lemma RunOfTwo(a: Op, b: Op, cfg: Settings)
    ensures Run([a, b], cfg) == Next(Next(Db([], [], []), a, cfg), b, cfg)
  {
    assert [a, b][..1] == [a] && [a][..0] == [];
    assert Run([], cfg) == Db([], [], []);
    assert Run([a], cfg) == Next(Db([], [], []), a, cfg);
  }

  // ----- a stuck batch -----

  function ActiveEvent(externalId: string, customer: string): Event {
    Event("paddle", externalId, "", Some(customer), Some(""), Some("active"), None, None, false, None)
  }

  lemma RunOfFour(a: Op, b: Op, c: Op, d: Op, cfg: Settings)
    ensures Run([a, b, c, d], cfg) == Next(Next(Next(Next(Db([], [], []), a, cfg), b, cfg), c, cfg), d, cfg)
  {
    assert [a, b, c, d][..3] == [a, b, c] && [a, b, c][..2] == [a, b];
    assert [a, b][..1] == [a] && [a][..0] == [];
    assert Run([], cfg) == Db([], [], []);
    assert Run([a], cfg) == Next(Db([], [], []), a, cfg);
    assert Run([a, b], cfg) == Next(Run([a], cfg), b, cfg);
    assert Run([a, b, c], cfg) == Next(Run([a, b], cfg), c, cfg);
  }

  lemma StallingRun(cfg: Settings) returns (ops: seq<Op>)
    requires "paddle" in cfg.providers && cfg.deadLetterAttempts > 1
    ensures forall op :: op in ops ==> Parsed(op)
    ensures StallingState(Run(ops, cfg), cfg)
  {
    var first, second := Receive(ActiveEvent("1", "x"), false, NoFault, 0),
        Receive(ActiveEvent("2", "y"), false, NoFault, 0);
    var u1, u2 := AddUser(User(1, Some("x"))), AddUser(User(2, Some("y")));
    ops := [u1, first, second, u2];
    RunOfFour(u1, first, second, u2, cfg);
    var db1 := Next(Db([], [], []), u1, cfg);
    assert db1 == Db([User(1, Some("x"))], [], []);
    FirstDelivery(db1, cfg);
    SecondDelivery(Next(db1, first, cfg), cfg);
  }

  /** The first delivery is processed. */
  ghost predicate OneDelivered(db: Db, cfg: Settings) {
    && db.users == [User(1, Some("x"))]
    && |db.events| == 1 && db.events[0].status == Processed && db.events[0].externalId == "1"
    && |db.subs| == 1 && BySubscription(db.subs[0], ActiveEvent("2", "y")) && db.subs[0].user == 1
  }

  lemma FirstDelivery(db: Db, cfg: Settings)
    requires db == Db([User(1, Some("x"))], [], []) && "paddle" in cfg.providers
    ensures OneDelivered(Next(db, Receive(ActiveEvent("1", "x"), false, NoFault, 0), cfg), cfg)
  {
    assert |"x"| == |"1"| == 1;
    assert ResolveUser(db.users, ActiveEvent("1", "x")) == Some(1);
    assert ChooseSub([], ActiveEvent("1", "x"), 1) == 0;
  }

  lemma SecondDelivery(db: Db, cfg: Settings)
    requires OneDelivered(db, cfg) && "paddle" in cfg.providers
    ensures StallingState(Next(Next(db, Receive(ActiveEvent("2", "y"), false, NoFault, 0), cfg),
        AddUser(User(2, Some("y"))), cfg), cfg)
  {
    assert "x"[0] != "y"[0] && "1"[0] != "2"[0] && |"2"| == |"y"| == 1;
    assert !SameEvent(db.events[0], ActiveEvent("2", "y"));
    assert FirstUser(db.users, ActiveEvent("2", "y"), 0) == 1;
    assert ResolveUser(db.users, ActiveEvent("2", "y")) == None;
  }

  ghost predicate StallingState(db: Db, cfg: Settings) {
    && db.users == [User(1, Some("x")), User(2, Some("y"))]
    && |db.events| == 2 && db.events[0].status == Processed
    && db.events[1] == Attempted(NewRow(ActiveEvent("2", "y"), false, 0), Failed, "mapping_failed", cfg)
    && |db.subs| == 1 && BySubscription(db.subs[0], ActiveEvent("2", "y")) && db.subs[0].user == 1
  }

  /** The empty id does happen: two deliveries with an empty subscription id, the second for a
      customer who is linked to a user only afterwards. From then on every batch of any size at any
      time crashes at once, and no repetition changes anything, so the failed event is never
      resolved nor dead-lettered. */
  lemma EmptyIdStallsReplay(cfg: Settings) returns (ops: seq<Op>)
    requires "paddle" in cfg.providers && cfg.deadLetterAttempts > 1
    ensures forall op :: op in ops ==> Parsed(op)
    ensures exists row :: row in Run(ops, cfg).events && Candidate(row, "paddle")
    ensures forall limit: nat, now :: limit >= 1 ==>
      ReplayFailedEvents(Run(ops, cfg), "paddle", limit, cfg, now) == (Run(ops, cfg), true)
    ensures forall limit: nat, times :: limit >= 1 ==>
      Repeat(Run(ops, cfg), "paddle", limit, cfg, times) == Run(ops, cfg)
  {
    ops := StallingRun(cfg);
    var db := Run(ops, cfg);
    RunIsSound(ops, cfg);
    Stalled(db, ActiveEvent("2", "y"), cfg, 1);
    assert db.events[1] in db.events;
    forall limit: nat, now | limit >= 1
      ensures ReplayFailedEvents(db, "paddle", limit, cfg, now) == (db, true)
    {
      Stalled(db, ActiveEvent("2", "y"), cfg, limit);
      BatchProgressIff(db, "paddle", limit, cfg, now);
    }
    forall limit: nat, times | limit >= 1
      ensures Repeat(db, "paddle", limit, cfg, times) == db
    {
      Stalled(db, ActiveEvent("2", "y"), cfg, limit);
      StuckForever(db, "paddle", limit, cfg, times);
    }
  }

  lemma Stalled(db: Db, e: Event, cfg: Settings, limit: nat)
    requires "paddle" in cfg.providers && cfg.deadLetterAttempts > 1 && limit >= 1 && e == ActiveEvent("2", "y")
    requires StallingState(db, cfg)
    ensures Candidate(db.events[1], "paddle") && Stuck(db, "paddle", limit, cfg)
  {
    assert "x"[0] != "y"[0] && |"2"| == |"y"| == 1;
    assert FirstUser(db.users, e, 0) == 1 && db.users[1] == User(2, Some("y"));
    assert ResolveUser(db.users, e) == Some(2);
    assert ChooseSub(db.subs, e, 2) == 1;
    assert Clashes(db, e) && RowCrashes(db, 1, cfg);
    OnlyCandidate(db.events, limit);
  }

  lemma OnlyCandidate(events: seq<EventRow>, limit: nat)
    requires |events| == 2 && !Candidate(events[0], "paddle") && Candidate(events[1], "paddle") && limit >= 1
    ensures Candidates(events, "paddle", limit) == [1]
  {
    assert events[..1][..0] == [];
    assert events[..1][0] == events[0];
    assert Candidates(events[..1], "paddle", limit) == [];
  }
}
