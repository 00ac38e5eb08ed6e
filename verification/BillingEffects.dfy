/** What one delivery, replay, undelete or batch of src/casino_bot/services/billing_service.py writes,
    field by field. */
module BillingEffects {
  import opened Common
  import opened Billing

  // ----- whose subscription, and which row -----

  /** The event belongs to the hinted user if there is one with that id, else to the first user with
      its non-empty customer id, else to nobody. */
  lemma UserMeans(users: seq<User>, e: Event)
    ensures var user := ResolveUser(users, e);
            var hinted := e.userHint.Some? && exists u :: u in users && u.id == e.userHint.value;
            var named := e.customer.Some? && e.customer.value != ""
                         && exists u :: u in users && u.customer == e.customer;
      && (hinted ==> user == e.userHint)
      && (!hinted && named ==> exists k: nat :: FirstNamed(users, e.customer, k) && user == Some(users[k].id))
      && (!hinted && !named ==> user == None)
  {
    var k := FirstUser(users, e, 0);
    FirstUserIs(users, e, 0);
    if k < |users| {
      assert users[k] in users && FirstNamed(users, e.customer, k);
    }
  }

  ghost predicate FirstNamed(users: seq<User>, customer: Option<string>, k: nat) {
    k < |users| && users[k].customer == customer && forall j :: 0 <= j < k ==> users[j].customer != customer
  }

  lemma {:induction false} FirstUserIs(users: seq<User>, e: Event, i: nat)
    requires i <= |users|
    ensures var k := FirstUser(users, e, i);
      (k < |users| ==> users[k].customer == e.customer) && forall j :: i <= j < k ==> users[j].customer != e.customer
    decreases |users| - i
  {
    if i < |users| && users[i].customer != e.customer {
      FirstUserIs(users, e, i + 1);
    }
  }

  /** The row the event is written to: the first with its non-empty subscription id, else the user's
      first with its non-empty customer id, both of the event's provider, else a new one. */
  ghost predicate Target(subs: seq<Sub>, e: Event, user: nat, k: nat) {
    var byId := e.subscription.Some? && e.subscription.value != ""
             && exists s :: s in subs && s.provider == e.provider && s.subscription == e.subscription;
    var byCustomer := e.customer.Some? && e.customer.value != ""
             && exists s :: s in subs && s.user == user && s.provider == e.provider && s.customer == e.customer;
    if byId then
      && k < |subs| && subs[k].provider == e.provider && subs[k].subscription == e.subscription
      && forall j :: 0 <= j < k ==> !(subs[j].provider == e.provider && subs[j].subscription == e.subscription)
    else if byCustomer then
      && k < |subs| && subs[k].user == user && subs[k].provider == e.provider && subs[k].customer == e.customer
      && forall j :: 0 <= j < k ==>
           !(subs[j].user == user && subs[j].provider == e.provider && subs[j].customer == e.customer)
    else k == |subs|
  }

  lemma ChosenIsTarget(subs: seq<Sub>, e: Event, user: nat)
    ensures Target(subs, e, user, ChooseSub(subs, e, user))
  {
    if s :| s in subs && s.provider == e.provider && s.subscription == e.subscription {
      var i :| 0 <= i < |subs| && subs[i] == s;
      assert BySubscription(subs[i], e);
    }
    if s :| s in subs && s.user == user && s.provider == e.provider && s.customer == e.customer {
      var i :| 0 <= i < |subs| && subs[i] == s;
      assert ByCustomer(subs[i], e, user);
    }
    var k := ChooseSub(subs, e, user);
    if k < |subs| {
      assert subs[k] in subs;
    }
  }

  // ----- a processed event -----

  /** Row k of `after`, new if there was none, takes the event's fields; a missing or empty status
      becomes "unknown", a missing or empty plan leaves the plan as it was. */
  ghost predicate Takes(before: seq<Sub>, after: seq<Sub>, k: nat, e: Event, user: nat, now: int) {
    && k <= |before| && |after| == (if k < |before| then |before| else |before| + 1)
    && (forall j :: 0 <= j < |before| && j != k ==> after[j] == before[j])
    && after[k].user == user && after[k].provider == e.provider && after[k].customer == e.customer
    && after[k].subscription == e.subscription && after[k].periodEnd == e.periodEnd
    && after[k].cancelAtEnd == e.cancelAtEnd
    && after[k].status == (if e.status.Some? && e.status.value != "" then e.status.value else "unknown")
    && after[k].plan == (if e.plan.Some? && e.plan.value != "" then e.plan.value
                         else if k < |before| then before[k].plan else "unknown_plan")
  }

  /** The row grants its user access: its status is a good one and its period, with the grace time,
      is not over. */
  ghost predicate Grants(s: Sub, grace: int, now: int) {
    && (s.status == "active" || s.status == "trialing")
    && (s.periodEnd.None? || s.periodEnd.value + (if grace > 0 then grace else 0) > now)
  }

  /** A processed event is written to its target row and to no other. The row's entitlement is
      computed from the new status and period end. */
  lemma ProcessedMeans(db: Db, i: nat, e: Event, cfg: Settings, now: int) returns (user: nat, k: nat)
    requires i < |db.events| && Process(db, i, e, cfg, now).1 == Status(Processed)
    ensures var subs := Process(db, i, e, cfg, now).0.subs;
      && ResolveUser(db.users, e) == Some(user) && Target(db.subs, e, user, k)
      && Takes(db.subs, subs, k, e, user, now) && subs[k].updatedAt == now
      && (subs[k].entitled <==> Grants(subs[k], cfg.grace, now))
  {
    user := ResolveUser(db.users, e).value;
    k := ChooseSub(db.subs, e, user);
    ChosenIsTarget(db.subs, e, user);
  }

  /** Adding the grace time to the event's period end leaves the range of datetimes. */
  ghost predicate TooLate(e: Event, grace: int) {
    && (e.status == Some("active") || e.status == Some("trialing"))
    && e.periodEnd.Some? && e.periodEnd.value + (if grace > 0 then grace else 0) > 253_402_300_799
  }

  /** How an attempt ends and what it makes of its event row. An event without an id, or with a type
      but no status, is ignored; one of nobody fails; one whose row would break the unique key or
      whose period end overflows crashes and stores nothing; the others are processed. */
  lemma AttemptMeans(db: Db, i: nat, e: Event, cfg: Settings, now: int)
    requires i < |db.events|
    ensures var (db', reply) := Process(db, i, e, cfg, now);
            var user := ResolveUser(db.users, e);
            var ignored := e.externalId == "" || (e.status.None? && e.eventType != "");
            var crashes := !ignored && user.Some?
                           && (Clash(db.subs, e, ChooseSub(db.subs, e, user.value)) || TooLate(e, cfg.grace));
      && reply == (if ignored then Status(Ignored) else if user.None? then Status(Failed)
                   else if crashes then Crash else Status(Processed))
      && (reply == Crash ==> db' == db)
      && (reply != Crash ==> Counts(db.events, db'.events, i, reply.status, cfg))
      && (reply == Status(Failed) ==> db'.events[i].errorCode == "mapping_failed")
      && (reply == Status(Processed) ==> db'.events[i].errorCode == "")
      && (reply == Status(Ignored) ==>
            db'.events[i].errorCode == if e.externalId == "" then "missing_external_event_id" else "unsupported_event")
      && (reply != Status(Processed) ==> db'.subs == db.subs) && db'.users == db.users
  {
  }

  /** Row i got its status with one more attempt, and became dead letter if it failed for the
      threshold's time or more; nothing else changed. */
  ghost predicate Counts(before: seq<EventRow>, after: seq<EventRow>, i: nat, status: EventStatus, cfg: Settings) {
    && |after| == |before| && i < |before|
    && (forall j :: 0 <= j < |before| && j != i ==> after[j] == before[j])
    && after[i].status == status && after[i].attempts == before[i].attempts + 1
    && (after[i].deadLetter
        <==> before[i].deadLetter || (status == Failed && after[i].attempts >= cfg.deadLetterAttempts))
    && after[i].provider == before[i].provider && after[i].externalId == before[i].externalId
    && after[i].payload == before[i].payload && after[i].receivedAt == before[i].receivedAt
  }

  // ----- deliveries -----

  /** The row as it is first stored. */
  ghost predicate Stored(row: EventRow, e: Event, emptyPayload: bool, now: int) {
    && row.provider == e.provider && row.externalId == e.externalId && row.receivedAt == now
    && row.attempts == 1 && row.payload == (if emptyPayload then None else Some(e))
  }

  /** A row of the event's provider already has its id. */
  ghost predicate Known(events: seq<EventRow>, e: Event) {
    exists row :: row in events && row.provider == e.provider && row.externalId == e.externalId
  }

  /** A delivery of an unknown provider is ignored and one of a known event is idempotent: neither
      changes anything. */
  lemma DeliveryIsRefused(db: Db, e: Event, emptyPayload: bool, fault: Fault, cfg: Settings, now: int)
    ensures var outcome := Intake(db, e, emptyPayload, fault, cfg, now);
      && (e.provider !in cfg.providers ==> outcome == (db, Status(Ignored)))
      && (e.provider in cfg.providers && Known(db.events, e) ==> outcome == (db, Status(Idempotent)))
  {
    KnownIff(db.events, e);
  }

  lemma KnownIff(events: seq<EventRow>, e: Event)
    ensures Known(events, e) <==> exists row :: row in events && SameEvent(row, e)
  {
    if row :| row in events && row.provider == e.provider && row.externalId == e.externalId {
      assert SameEvent(row, e);
    }
  }

  /** Any other delivery appends one row with its first attempt, unless it crashes, which changes
      nothing; the row's status is the reply's, or received when the attempt raised. */
  lemma DeliveryMeans(db: Db, e: Event, emptyPayload: bool, fault: Fault, cfg: Settings, now: int)
    requires e.provider in cfg.providers && !Known(db.events, e)
    ensures var (db', reply) := Intake(db, e, emptyPayload, fault, cfg, now);
      && (reply == Crash || reply == ServerError || reply.Status?)
      && (reply == Crash ==> db' == db)
      && (reply != Crash ==>
            && |db'.events| == |db.events| + 1 && db'.events[..|db.events|] == db.events
            && Stored(db'.events[|db.events|], e, emptyPayload, now)
            && db'.events[|db.events|].status == if reply == ServerError then Received else reply.status)
  {
    KnownIff(db.events, e);
    var more := db.(events := db.events + [NewRow(e, emptyPayload, now)]);
    if !Raises(more, e, fault, cfg) {
      AttemptMeans(more, |db.events|, e, cfg, now);
      var events := Process(more, |db.events|, e, cfg, now).0.events;
      assert |events| == |db.events| + 1 ==> events[..|db.events|] == db.events by {
        assert forall j :: 0 <= j < |db.events| ==> more.events[j] == db.events[j];
      }
    }
  }

  /** A delivery that ends in an overflow leaves the event's fields in its target row, but not the
      entitlement, which stays as it was and is off in a new row. */
  lemma InterruptedMeans(db: Db, e: Event, emptyPayload: bool, cfg: Settings, now: int) returns (user: nat, k: nat)
    requires Intake(db, e, emptyPayload, NoFault, cfg, now).1 == ServerError
    ensures var subs := Intake(db, e, emptyPayload, NoFault, cfg, now).0.subs;
      && ResolveUser(db.users, e) == Some(user) && Target(db.subs, e, user, k)
      && Takes(db.subs, subs, k, e, user, now)
      && (subs[k].entitled <==> k < |db.subs| && db.subs[k].entitled)
      && (subs[k].updatedAt == now || (k < |db.subs| && subs[k] == db.subs[k]))
  {
    user := ResolveUser(db.users, e).value;
    k := ChooseSub(db.subs, e, user);
    ChosenIsTarget(db.subs, e, user);
  }

  // ----- replays -----

  /** A replay of an unknown row, a row without a payload or of an unknown provider is refused without
      effect. Any other is an attempt, after which the row is dead letter from the threshold on,
      whatever its status. */
  lemma ReplayMeans(db: Db, i: nat, cfg: Settings, now: int)
    ensures var (db', reply) := ReplayAt(db, i, cfg, now);
      if i >= |db.events| then db' == db && reply == NotFound
      else if db.events[i].payload.None? then db' == db && reply == NoPayload
      else if db.events[i].provider !in cfg.providers then db' == db && reply == UnknownProvider
      else
        var (once, answer) := Process(db, i, db.events[i].payload.value, cfg, now);
        && reply == answer && db'.users == db.users && db'.subs == once.subs && |db'.events| == |db.events|
        && (forall j :: 0 <= j < |db.events| && j != i ==> db'.events[j] == db.events[j])
        && db'.events[i] == once.events[i].(deadLetter := db'.events[i].deadLetter)
        && (reply != Crash ==> (db'.events[i].deadLetter
              <==> db.events[i].deadLetter || db.events[i].attempts + 1 >= cfg.deadLetterAttempts))
  {
  }

  /** The failed rows before position n, of one provider or, for an empty name, of all, that are not
      in the dead letters. */
  function Waiting(events: seq<EventRow>, provider: string, n: nat): nat
    requires n <= |events|
  {
    if n == 0 then 0 else
    Waiting(events, provider, n - 1)
    + if events[n - 1].status == Failed && !events[n - 1].deadLetter
         && (provider == "" || events[n - 1].provider == provider) then 1 else 0
  }

  lemma {:induction false} WaitingPrefix(events: seq<EventRow>, provider: string, m: nat, n: nat)
    requires m <= n <= |events|
    ensures Waiting(events[..n], provider, m) == Waiting(events, provider, m)
  {
    if m > 0 {
      WaitingPrefix(events, provider, m - 1, n);
    }
  }

  lemma {:induction false} CandidatesSize(events: seq<EventRow>, provider: string, limit: nat)
    ensures var waiting := Waiting(events, provider, |events|);
      |Candidates(events, provider, limit)| == if waiting < limit then waiting else limit
  {
    if events != [] {
      var n := |events| - 1;
      CandidatesSize(events[..n], provider, limit);
      WaitingPrefix(events, provider, n, n);
    }
  }

  /** A batch selects a row exactly when it waits and fewer than `limit` rows wait before it. */
  lemma {:induction false} SelectedIff(events: seq<EventRow>, provider: string, limit: nat, i: nat)
    ensures i in Candidates(events, provider, limit)
       <==> && i < |events| && events[i].status == Failed && !events[i].deadLetter
            && (provider == "" || events[i].provider == provider) && Waiting(events, provider, i) < limit
  {
    if events != [] {
      var n := |events| - 1;
      SelectedIff(events[..n], provider, limit, i);
      if i <= n {
        WaitingPrefix(events, provider, i, n);
      }
      CandidatesSize(events[..n], provider, limit);
      var before := Candidates(events[..n], provider, limit);
      assert n !in before;
      assert i in before + [n] <==> i in before || i == n;
    }
  }

  /** A batch gives each of its rows one more attempt, in order, up to the first that crashes, and
      touches no other row; `done` is how many it attempted. */
  lemma {:induction false} BatchMeans(db: Db, todo: seq<nat>, cfg: Settings, now: int) returns (done: nat)
    requires forall k :: 0 <= k < |todo| ==> todo[k] < |db.events| && MayReplay(db.events[todo[k]], cfg)
    requires forall j, k :: 0 <= j < k < |todo| ==> todo[j] < todo[k]
    ensures var (db', crashed) := ReplayAll(db, todo, cfg, now);
      && done <= |todo| && (crashed <==> done < |todo|) && |db'.events| == |db.events|
      && (forall k :: 0 <= k < done ==> db'.events[todo[k]].attempts == db.events[todo[k]].attempts + 1)
      && (forall j :: 0 <= j < |db.events| && j !in todo[..done] ==> db'.events[j] == db.events[j])
    decreases |todo|
  {
    done := 0;
    if todo != [] {
      var i := todo[0];
      ReplayAttempts(db, i, cfg, now);
      var (db1, reply) := ReplayAt(db, i, cfg, now);
      if reply != Crash {
        var rest := todo[1..];
        forall k | 0 <= k < |rest|
          ensures rest[k] < |db1.events| && db1.events[rest[k]] == db.events[rest[k]] && rest[k] != i
        {
        }
        done := BatchMeans(db1, rest, cfg, now);
        BatchStep(db, db1, ReplayAll(db1, rest, cfg, now).0, todo, done);
        done := done + 1;
      }
    }
  }

  /** The row has a payload and its provider is known: nothing keeps a replay from attempting it. */
  predicate MayReplay(row: EventRow, cfg: Settings) {
    row.payload.Some? && row.provider in cfg.providers
  }

  lemma ReplayAttempts(db: Db, i: nat, cfg: Settings, now: int)
    requires i < |db.events| && MayReplay(db.events[i], cfg)
    ensures var (db', reply) := ReplayAt(db, i, cfg, now);
      && |db'.events| == |db.events| && (reply == Crash ==> db' == db)
      && (reply != Crash ==> db'.events[i].attempts == db.events[i].attempts + 1)
      && (forall j :: 0 <= j < |db.events| && j != i ==> db'.events[j] == db.events[j])
  {
    ReplayMeans(db, i, cfg, now);
    AttemptMeans(db, i, db.events[i].payload.value, cfg, now);
  }

  lemma BatchStep(db: Db, db1: Db, db': Db, todo: seq<nat>, done: nat)
    requires todo != [] && done <= |todo| - 1 && |db.events| == |db1.events| == |db'.events|
    requires forall k :: 0 <= k < |todo| ==> todo[k] < |db.events|
    requires forall j, k :: 0 <= j < k < |todo| ==> todo[j] < todo[k]
    requires db1.events[todo[0]].attempts == db.events[todo[0]].attempts + 1
    requires forall j :: 0 <= j < |db.events| && j != todo[0] ==> db1.events[j] == db.events[j]
    requires forall k :: 0 <= k < done ==> db'.events[todo[1..][k]].attempts == db1.events[todo[1..][k]].attempts + 1
    requires forall j :: 0 <= j < |db.events| && j !in todo[1..][..done] ==> db'.events[j] == db1.events[j]
    ensures forall k :: 0 <= k < done + 1 ==> db'.events[todo[k]].attempts == db.events[todo[k]].attempts + 1
    ensures forall j :: 0 <= j < |db.events| && j !in todo[..done + 1] ==> db'.events[j] == db.events[j]
  {
    assert todo[..done + 1] == [todo[0]] + todo[1..][..done];
    forall k | 0 <= k < done + 1
      ensures db'.events[todo[k]].attempts == db.events[todo[k]].attempts + 1
    {
      if k == 0 {
        assert todo[0] !in todo[1..][..done];
      } else {
        assert todo[1..][k - 1] == todo[k];
      }
    }
  }

  // ----- undelete and cleanup -----

  /** An undelete takes one row out of the dead letters and clears its error, so that a failed one is
      selected by batches again; no other row changes. */
  lemma UndeleteMeans(db: Db, i: nat)
    ensures var (db', reply) := Undelete(db, i);
      if i >= |db.events| then db' == db && reply == NotFound
      else && db'.users == db.users && db'.subs == db.subs && |db'.events| == |db.events|
           && reply == Status(db.events[i].status)
           && db'.events[i] == db.events[i].(deadLetter := false, errorCode := "")
           && (forall j :: 0 <= j < |db.events| && j != i ==> db'.events[j] == db.events[j])
           && (db.events[i].status == Failed ==> i in Candidates(db'.events, db.events[i].provider, |db.events|))
  {
    if i < |db.events| {
      var events := Undelete(db, i).0.events;
      SelectedIff(events, db.events[i].provider, |db.events|, i);
      WaitingBound(events, db.events[i].provider, i);
    }
  }

  lemma {:induction false} WaitingBound(events: seq<EventRow>, provider: string, n: nat)
    requires n <= |events|
    ensures Waiting(events, provider, n) <= n
  {
    if n > 0 {
      WaitingBound(events, provider, n - 1);
    }
  }

  /** A cleanup drops rows without reordering the others. */
  lemma {:induction false} CleanupKeepsOrder(a: seq<EventRow>, b: seq<EventRow>, cutoff: int)
    ensures Kept(a + b, cutoff) == Kept(a, cutoff) + Kept(b, cutoff)
  {
    if b == [] {
      assert a + b == a;
    } else {
      var n := |b| - 1;
      assert (a + b)[..|a + b| - 1] == a + b[..n];
      CleanupKeepsOrder(a, b[..n], cutoff);
    }
  }
}
