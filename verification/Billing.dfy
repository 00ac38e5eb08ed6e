/** src/casino_bot/services/billing_service.py: webhook events, their replay, and the
    subscription upsert. */
module Billing {
  import opened Common

  /** Times are whole seconds since the epoch; this is the last one a datetime can hold. */
  const MAX_TIME: int := 253_402_300_799

  /** A provider's event after parsing. Optional texts may also be empty, which the code treats
      like absent ones in its conditions but not in its assignments. */
  datatype Event = Event(provider: string, externalId: string, eventType: string,
                         customer: Option<string>, subscription: Option<string>, status: Option<string>,
                         plan: Option<string>, periodEnd: Option<int>, cancelAtEnd: bool, userHint: Option<nat>)

  datatype EventStatus = Received | Processed | Ignored | Failed | Idempotent

  /** Rows are listed in order of their ids. `payload` is the stored raw payload, None when it is
      empty. Parsing is deterministic, so the payload is represented by the event it parses to. */
  datatype EventRow = EventRow(provider: string, externalId: string, payload: Option<Event>,
                               status: EventStatus, attempts: int, deadLetter: bool, receivedAt: int,
                               errorCode: string)

  datatype Sub = Sub(user: nat, provider: string, customer: Option<string>, subscription: Option<string>,
                     status: string, plan: string, periodEnd: Option<int>, cancelAtEnd: bool,
                     entitled: bool, updatedAt: int)

  datatype User = User(id: nat, customer: Option<string>)

  datatype Db = Db(users: seq<User>, events: seq<EventRow>, subs: seq<Sub>)

  datatype Settings = Settings(deadLetterAttempts: int, grace: int, retention: int, providers: set<string>)

  predicate Truthy(text: Option<string>) {
    text.Some? && text.value != ""
  }

  function Or(text: Option<string>, default: string): string {
    if Truthy(text) then text.value else default
  }

  // ----- subscription upsert -----

  predicate BySubscription(s: Sub, e: Event) {
    s.provider == e.provider && s.subscription == e.subscription
  }

  predicate ByCustomer(s: Sub, e: Event, user: nat) {
    s.user == user && s.provider == e.provider && s.customer == e.customer
  }

  ghost predicate SomeSub(subs: seq<Sub>, e: Event) {
    Truthy(e.subscription) && exists i :: 0 <= i < |subs| && BySubscription(subs[i], e)
  }

  /** A row that the two unordered lookups may choose; |subs| stands for a new row. */
  ghost predicate MayChoose(subs: seq<Sub>, e: Event, user: nat, pick: nat) {
    if SomeSub(subs, e) then pick < |subs| && BySubscription(subs[pick], e)
    else if Truthy(e.customer) && exists i :: 0 <= i < |subs| && ByCustomer(subs[i], e, user)
    then pick < |subs| && ByCustomer(subs[pick], e, user)
    else pick == |subs|
  }

  predicate Entitled(status: string, periodEnd: Option<int>, grace: int, now: int) {
    && status in {"active", "trialing"}
    && (periodEnd.Some? ==> periodEnd.value + (if grace > 0 then grace else 0) > now)
  }

  /** Adding the grace period to the period's end leaves the range of datetimes: the computation of
      the entitlement raises OverflowError. */
  predicate Overflows(e: Event, grace: int) {
    && Or(e.status, "unknown") in {"active", "trialing"}
    && e.periodEnd.Some? && e.periodEnd.value + (if grace > 0 then grace else 0) > MAX_TIME
  }

  function Synced(oldPlan: string, e: Event, user: nat, grace: int, now: int): Sub {
    Sub(user, e.provider, e.customer, e.subscription, Or(e.status, "unknown"), Or(e.plan, oldPlan),
        e.periodEnd, e.cancelAtEnd, Entitled(Or(e.status, "unknown"), e.periodEnd, grace, now), now)
  }

  /** The table after the chosen row is synchronised, before the unique key is checked. */
  function UpsertAt(subs: seq<Sub>, e: Event, user: nat, pick: nat, grace: int, now: int): seq<Sub>
    requires pick <= |subs|
  {
    if pick == |subs| then subs + [Synced("unknown_plan", e, user, grace, now)]
    else subs[pick := Synced(subs[pick].plan, e, user, grace, now)]
  }

  /** The unique key (provider, provider_subscription_id); absent ids never clash. */
  ghost predicate UniqueSubs(subs: seq<Sub>) {
    forall i, j :: 0 <= i < j < |subs| && subs[i].subscription.Some? ==>
      !(subs[i].provider == subs[j].provider && subs[i].subscription == subs[j].subscription)
  }

  /** Another row than the chosen one holds the event's subscription id. */
  predicate Clash(subs: seq<Sub>, e: Event, pick: nat) {
    e.subscription.Some? && exists j :: 0 <= j < |subs| && j != pick && BySubscription(subs[j], e)
  }

  /** The upsert respects the unique key unless the event carries an empty subscription id that
      another row of the provider holds too: exactly then the flush raises IntegrityError. */
  lemma UpsertUniqueIff(subs: seq<Sub>, e: Event, user: nat, pick: nat, grace: int, now: int)
    requires UniqueSubs(subs) && MayChoose(subs, e, user, pick)
    ensures UniqueSubs(UpsertAt(subs, e, user, pick, grace, now)) <==> !Clash(subs, e, pick)
    ensures Clash(subs, e, pick) ==> e.subscription == Some("")
  {
    var subs' := UpsertAt(subs, e, user, pick, grace, now);
    if Clash(subs, e, pick) {
      var j :| 0 <= j < |subs| && j != pick && BySubscription(subs[j], e);
      assert subs'[j] == subs[j] && BySubscription(subs'[pick], e);
      var low, high := if j < pick then j else pick, if j < pick then pick else j;
      assert subs'[low].provider == subs'[high].provider;
      ClashIsEmptyId(subs, e, user, pick, j);
    } else {
      forall i, j | 0 <= i < j < |subs'| && subs'[i].subscription.Some?
        ensures !(subs'[i].provider == subs'[j].provider && subs'[i].subscription == subs'[j].subscription)
      {
        assert i != pick && j != pick ==> subs'[i] == subs[i] && subs'[j] == subs[j];
        assert i == pick ==> subs'[j] == subs[j];
        assert j == pick ==> subs'[i] == subs[i];
      }
    }
  }

  lemma ClashIsEmptyId(subs: seq<Sub>, e: Event, user: nat, pick: nat, j: nat)
    requires UniqueSubs(subs) && MayChoose(subs, e, user, pick) && e.subscription.Some?
    requires j < |subs| && j != pick && BySubscription(subs[j], e)
    ensures e.subscription == Some("")
  {
    if SomeSub(subs, e) {
      IdIsUnique(subs, e, pick, j);
    }
  }

  lemma IdIsUnique(subs: seq<Sub>, e: Event, i: nat, j: nat)
    requires UniqueSubs(subs) && e.subscription.Some? && i < |subs| && j < |subs|
    requires BySubscription(subs[i], e) && BySubscription(subs[j], e)
    ensures i == j
  {
    var low, high := if i < j then i else j, if i < j then j else i;
    assert subs[low].provider == subs[high].provider;
  }

  /** Immediately re-processing an event that carries a subscription id changes no row beyond
      updated_at and the time-dependent entitlement of the row it synchronised. */
  lemma ReprocessChangesNothing(subs: seq<Sub>, e: Event, user: nat, pick: nat, pick': nat,
      grace: int, now: int, later: int)
    requires UniqueSubs(subs) && MayChoose(subs, e, user, pick) && Truthy(e.subscription)
    requires MayChoose(UpsertAt(subs, e, user, pick, grace, now), e, user, pick')
    ensures var once := UpsertAt(subs, e, user, pick, grace, now);
            var twice := UpsertAt(once, e, user, pick', grace, later);
      && pick' == pick < |once|
      && twice == once[pick := once[pick].(updatedAt := later, entitled := twice[pick].entitled)]
  {
    var once := UpsertAt(subs, e, user, pick, grace, now);
    assert BySubscription(once[pick], e);
    UpsertUniqueIff(subs, e, user, pick, grace, now);
    assert SomeSub(once, e);
    IdIsUnique(once, e, pick, pick');
  }

  // ----- processing one event -----

  /** The lookups' first match in table order, or the table's length. */
  function FirstUser(users: seq<User>, e: Event, i: nat): (k: nat)
    requires i <= |users|
    ensures i <= k <= |users|
    decreases |users| - i
  {
    if i == |users| || users[i].customer == e.customer then i else FirstUser(users, e, i + 1)
  }

  predicate Known(users: seq<User>, id: nat) {
    exists u :: u in users && u.id == id
  }

  function ResolveUser(users: seq<User>, e: Event): Option<nat> {
    if e.userHint.Some? && Known(users, e.userHint.value) then e.userHint
    else if Truthy(e.customer) && FirstUser(users, e, 0) < |users| then Some(users[FirstUser(users, e, 0)].id)
    else None
  }

  function FirstBySubscription(subs: seq<Sub>, e: Event, i: nat): (k: nat)
    requires i <= |subs|
    ensures i <= k <= |subs| && (k < |subs| ==> BySubscription(subs[k], e))
    ensures forall j :: i <= j < k ==> !BySubscription(subs[j], e)
    decreases |subs| - i
  {
    if i == |subs| || BySubscription(subs[i], e) then i else FirstBySubscription(subs, e, i + 1)
  }

  function FirstByCustomer(subs: seq<Sub>, e: Event, user: nat, i: nat): (k: nat)
    requires i <= |subs|
    ensures i <= k <= |subs| && (k < |subs| ==> ByCustomer(subs[k], e, user))
    ensures forall j :: i <= j < k ==> !ByCustomer(subs[j], e, user)
    decreases |subs| - i
  {
    if i == |subs| || ByCustomer(subs[i], e, user) then i else FirstByCustomer(subs, e, user, i + 1)
  }

  function ChooseSub(subs: seq<Sub>, e: Event, user: nat): (pick: nat)
    ensures pick <= |subs| && MayChoose(subs, e, user, pick)
  {
    if Truthy(e.subscription) && FirstBySubscription(subs, e, 0) < |subs| then FirstBySubscription(subs, e, 0)
    else if Truthy(e.customer) then FirstByCustomer(subs, e, user, 0)
    else |subs|
  }

  /** Whether an exception of the code itself, not of the database, strikes a delivery's attempt
      while the user is looked up. */
  datatype Fault = NoFault | OnLookup

  datatype Reply = Status(status: EventStatus) | NotFound | NoPayload | UnknownProvider | ServerError | Crash

  predicate Skipped(e: Event) {
    e.externalId == "" || (e.status.None? && e.eventType != "")
  }

  /** The event row after an attempt that ends in the given status. */
  function Attempted(row: EventRow, status: EventStatus, errorCode: string, cfg: Settings): EventRow {
    var r := row.(attempts := row.attempts + 1, status := status, errorCode := errorCode);
    if status == Failed && r.attempts >= cfg.deadLetterAttempts then r.(deadLetter := true) else r
  }

  /** The processing of this event would break the unique key of the subscriptions table. */
  predicate Clashes(db: Db, e: Event) {
    var user := ResolveUser(db.users, e);
    !Skipped(e) && user.Some? && Clash(db.subs, e, ChooseSub(db.subs, e, user.value))
  }

  predicate SyncOverflows(db: Db, e: Event, cfg: Settings) {
    !Skipped(e) && ResolveUser(db.users, e).Some? && Overflows(e, cfg.grace)
  }

  /** The attempt ends in an exception that nobody handles during a replay. */
  predicate Crashes(db: Db, e: Event, cfg: Settings) {
    Clashes(db, e) || SyncOverflows(db, e, cfg)
  }

  /** One attempt at the row in position i. A crash makes the whole transaction fail: nothing is
      stored. */
  function Process(db: Db, i: nat, e: Event, cfg: Settings, now: int): (Db, Reply)
    requires i < |db.events|
  {
    var row := db.events[i];
    var user := ResolveUser(db.users, e);
    if Skipped(e) then
      var code := if e.externalId == "" then "missing_external_event_id" else "unsupported_event";
      (db.(events := db.events[i := Attempted(row, Ignored, code, cfg)]), Status(Ignored))
    else if user.None? then
      (db.(events := db.events[i := Attempted(row, Failed, "mapping_failed", cfg)]), Status(Failed))
    else if Crashes(db, e, cfg) then (db, Crash)
    else
      var pick := ChooseSub(db.subs, e, user.value);
      (db.(events := db.events[i := Attempted(row, Processed, "", cfg)],
           subs := UpsertAt(db.subs, e, user.value, pick, cfg.grace, now)), Status(Processed))
  }

  /** What a replay adds: enough attempts make the row dead letter whatever its status. */
  function Replayed(row: EventRow, cfg: Settings): EventRow {
    if row.attempts >= cfg.deadLetterAttempts then row.(deadLetter := true) else row
  }

  function ReplayAt(db: Db, i: nat, cfg: Settings, now: int): (Db, Reply)
    ensures |ReplayAt(db, i, cfg, now).0.events| == |db.events|
  {
    if i >= |db.events| then (db, NotFound)
    else if db.events[i].payload.None? then (db, NoPayload)
    else if db.events[i].provider !in cfg.providers then (db, UnknownProvider)
    else
      var (db', reply) := Process(db, i, db.events[i].payload.value, cfg, now);
      if reply.Crash? then (db, Crash)
      else (db'.(events := db'.events[i := Replayed(db'.events[i], cfg)]), reply)
  }

  // ----- batch replay -----

  /** `provider` is empty for all providers. */
  predicate Candidate(row: EventRow, provider: string) {
    row.status == Failed && !row.deadLetter && (provider == "" || row.provider == provider)
  }

  /** The first `limit` candidate positions, in table order. */
  function Candidates(events: seq<EventRow>, provider: string, limit: nat): (todo: seq<nat>)
    ensures |todo| <= limit
    ensures forall k :: 0 <= k < |todo| ==> todo[k] < |events| && Candidate(events[todo[k]], provider)
    ensures forall j, k :: 0 <= j < k < |todo| ==> todo[j] < todo[k]
    ensures limit > 0 && (exists row :: row in events && Candidate(row, provider)) ==> todo != []
  {
    if events == [] then [] else
    var n := |events| - 1;
    assert events == events[..n] + [events[n]];
    var before := Candidates(events[..n], provider, limit);
    if |before| < limit && Candidate(events[n], provider) then before + [n] else before
  }

  /** Replay the listed positions in order; a crash ends the batch. */
  function ReplayAll(db: Db, todo: seq<nat>, cfg: Settings, now: int): (Db, bool)
    requires forall k :: 0 <= k < |todo| ==> todo[k] < |db.events|
    decreases |todo|
  {
    if todo == [] then (db, false) else
    var (db', reply) := ReplayAt(db, todo[0], cfg, now);
    if reply.Crash? then (db', true) else ReplayAll(db', todo[1..], cfg, now)
  }

  function ReplayFailedEvents(db: Db, provider: string, limit: nat, cfg: Settings, now: int): (Db, bool) {
    ReplayAll(db, Candidates(db.events, provider, limit), cfg, now)
  }

  // ----- intake, undelete and cleanup -----

  predicate SameEvent(row: EventRow, e: Event) {
    row.provider == e.provider && row.externalId == e.externalId
  }

  function NewRow(e: Event, emptyPayload: bool, now: int): EventRow {
    EventRow(e.provider, e.externalId, if emptyPayload then None else Some(e), Received, 0, false, now, "")
  }

  /** The row with the event's fields, but with the entitlement it had. */
  function HalfSynced(was: Sub, e: Event, user: nat, now: int): Sub {
    var s := Sub(user, e.provider, e.customer, e.subscription, Or(e.status, "unknown"), Or(e.plan, was.plan),
                 e.periodEnd, e.cancelAtEnd, was.entitled, was.updatedAt);
    if s == was then was else s.(updatedAt := now)
  }

  function HalfUpserted(subs: seq<Sub>, e: Event, user: nat, pick: nat, now: int): seq<Sub>
    requires pick <= |subs|
  {
    if pick == |subs|
    then subs + [HalfSynced(Sub(user, e.provider, None, None, "", "unknown_plan", None, false, false, now),
           e, user, now)]
    else subs[pick := HalfSynced(subs[pick], e, user, now)]
  }

  /** A delivery's attempt raises something other than a key violation. */
  predicate Raises(db: Db, e: Event, fault: Fault, cfg: Settings) {
    (!Skipped(e) && fault == OnLookup) || SyncOverflows(db, e, cfg)
  }

  /** What the error handler then commits: the row stays received, and whatever the attempt had
      written stays written. */
  function Interrupted(db: Db, i: nat, e: Event, fault: Fault, cfg: Settings, now: int): Db
    requires i < |db.events| && Raises(db, e, fault, cfg)
  {
    var row := db.events[i].(attempts := db.events[i].attempts + 1, errorCode := "processing_error");
    var stored := if row.attempts >= cfg.deadLetterAttempts then row.(deadLetter := true) else row;
    var after := db.(events := db.events[i := stored]);
    if fault == OnLookup then after
    else
      var user := ResolveUser(db.users, e).value;
      after.(subs := HalfUpserted(db.subs, e, user, ChooseSub(db.subs, e, user), now))
  }

  /** A webhook delivery. The row and the effects of its first attempt commit together, or, when
      the unique key would break, not at all. */
  function Intake(db: Db, e: Event, emptyPayload: bool, fault: Fault, cfg: Settings, now: int): (Db, Reply) {
    var more := db.(events := db.events + [NewRow(e, emptyPayload, now)]);
    if e.provider !in cfg.providers then (db, Status(Ignored))
    else if exists row :: row in db.events && SameEvent(row, e) then (db, Status(Idempotent))
    else if Raises(more, e, fault, cfg) then
      if fault == NoFault && Clashes(db, e) then (db, Crash)
      else (Interrupted(more, |db.events|, e, fault, cfg, now), ServerError)
    else
      var (db', reply) := Process(more, |db.events|, e, cfg, now);
      if reply.Crash? then (db, Crash) else (db', reply)
  }

  function Undelete(db: Db, i: nat): (Db, Reply) {
    if i >= |db.events| then (db, NotFound)
    else (db.(events := db.events[i := db.events[i].(deadLetter := false, errorCode := "")]),
          Status(db.events[i].status))
  }

  predicate Expired(row: EventRow, cutoff: int) {
    row.receivedAt < cutoff && (row.status == Processed || row.status == Ignored || row.status == Idempotent)
  }

  function Kept(events: seq<EventRow>, cutoff: int): (kept: seq<EventRow>)
    ensures |kept| <= |events|
  {
    if events == [] then [] else
    var n := |events| - 1;
    var before := Kept(events[..n], cutoff);
    if Expired(events[n], cutoff) then before else before + [events[n]]
  }

  /** A cleanup removes exactly the rows received before the cutoff that are not received or failed. */
  lemma {:induction false} CleanupKeeps(events: seq<EventRow>, cutoff: int)
    ensures forall row :: row in Kept(events, cutoff) <==>
      row in events && (row.receivedAt >= cutoff || row.status == Received || row.status == Failed)
  {
    if events != [] {
      var n := |events| - 1;
      CleanupKeeps(events[..n], cutoff);
      assert events == events[..n] + [events[n]];
    }
  }

  // ----- the service as the code has it -----

  class Service {
    var users: seq<User>
    var events: seq<EventRow>
    var subs: seq<Sub>
    const cfg: Settings

    constructor (cfg: Settings)
      ensures State() == Db([], [], []) && this.cfg == cfg
    {
      users, events, subs := [], [], [];
      this.cfg := cfg;
    }

    function State(): Db
      reads this
    {
      Db(users, events, subs)
    }

    method FindUser(e: Event) returns (user: Option<nat>)
      ensures user == ResolveUser(users, e)
    {
      if e.userHint.Some? {
        for i := 0 to |users|
          invariant forall j :: 0 <= j < i ==> users[j].id != e.userHint.value
        {
          if users[i].id == e.userHint.value {
            return e.userHint;
          }
        }
      }
      if Truthy(e.customer) {
        for i := 0 to |users|
          invariant FirstUser(users, e, 0) == FirstUser(users, e, i)
        {
          if users[i].customer == e.customer {
            return Some(users[i].id);
          }
        }
      }
      return None;
    }

    method FindSubscription(e: Event, user: nat) returns (pick: nat)
      ensures pick == ChooseSub(subs, e, user)
    {
      if Truthy(e.subscription) {
        for i := 0 to |subs|
          invariant FirstBySubscription(subs, e, 0) == FirstBySubscription(subs, e, i)
        {
          if BySubscription(subs[i], e) {
            return i;
          }
        }
      }
      if Truthy(e.customer) {
        for i := 0 to |subs|
          invariant FirstByCustomer(subs, e, user, 0) == FirstByCustomer(subs, e, user, i)
        {
          if ByCustomer(subs[i], e, user) {
            return i;
          }
        }
      }
      return |subs|;
    }

    /** Assign the row's fields, then flush: `ok` is false when that raises. */
    method UpsertSubscription(e: Event, user: nat, now: int) returns (ok: bool)
      modifies this`subs
      ensures var pick := ChooseSub(old(subs), e, user);
        && ok == !(Clash(old(subs), e, pick) || Overflows(e, cfg.grace))
        && subs == if ok then UpsertAt(old(subs), e, user, pick, cfg.grace, now) else old(subs)
    {
      var pick := FindSubscription(e, user);
      var saved := subs;
      if pick == |subs| {
        subs := subs + [Sub(user, e.provider, None, None, Or(e.status, "unknown"), Or(e.plan, "unknown_plan"),
                            None, false, false, now)];
      }
      var sub := subs[pick];
      sub := sub.(user := user, provider := e.provider, customer := e.customer, subscription := e.subscription);
      sub := sub.(status := Or(e.status, "unknown"), plan := Or(e.plan, sub.plan));
      sub := sub.(periodEnd := e.periodEnd, cancelAtEnd := e.cancelAtEnd);
      if Overflows(e, cfg.grace) {
        subs := saved;
        return false;
      }
      sub := sub.(entitled := Entitled(sub.status, sub.periodEnd, cfg.grace, now), updatedAt := now);
      subs := subs[pick := sub];
      assert subs == UpsertAt(saved, e, user, pick, cfg.grace, now);
      ok := true;
      if Clash(saved, e, pick) {
        subs := saved;
        ok := false;
      }
    }

    method ProcessEvent(i: nat, e: Event, now: int) returns (reply: Reply)
      requires i < |events|
      modifies this
      ensures (State(), reply) == Process(old(State()), i, e, cfg, now)
    {
      var saved := events;
      events := events[i := events[i].(attempts := events[i].attempts + 1, errorCode := "")];
      if e.externalId == "" {
        events := events[i := events[i].(status := Ignored, errorCode := "missing_external_event_id")];
        assert events == saved[i := Attempted(saved[i], Ignored, "missing_external_event_id", cfg)];
        return Status(Ignored);
      }
      if e.status.None? && e.eventType != "" {
        events := events[i := events[i].(status := Ignored, errorCode := "unsupported_event")];
        assert events == saved[i := Attempted(saved[i], Ignored, "unsupported_event", cfg)];
        return Status(Ignored);
      }
      var user := FindUser(e);
      if user.None? {
        events := events[i := events[i].(status := Failed, errorCode := "mapping_failed")];
        if events[i].attempts >= cfg.deadLetterAttempts {
          events := events[i := events[i].(deadLetter := true)];
        }
        assert events == saved[i := Attempted(saved[i], Failed, "mapping_failed", cfg)];
        return Status(Failed);
      }
      var ok := UpsertSubscription(e, user.value, now);
      if !ok {
        events := saved;
        return Crash;
      }
      events := events[i := events[i].(status := Processed)];
      assert events == saved[i := Attempted(saved[i], Processed, "", cfg)];
      return Status(Processed);
    }

    method ReplayEvent(i: nat, now: int) returns (reply: Reply)
      modifies this
      ensures (State(), reply) == ReplayAt(old(State()), i, cfg, now)
    {
      if i >= |events| {
        return NotFound;
      }
      if events[i].payload.None? {
        return NoPayload;
      }
      if events[i].provider !in cfg.providers {
        return UnknownProvider;
      }
      reply := ProcessEvent(i, events[i].payload.value, now);
      if reply.Crash? {
        return;
      }
      ghost var processed := events;
      if events[i].attempts >= cfg.deadLetterAttempts {
        events := events[i := events[i].(deadLetter := true)];
      }
      assert events == processed[i := Replayed(processed[i], cfg)];
    }

    method ReplayFailed(provider: string, limit: nat, now: int) returns (replayed: nat, crashed: bool)
      modifies this
      ensures (State(), crashed) == ReplayFailedEvents(old(State()), provider, limit, cfg, now)
    {
      var todo := SelectCandidates(provider, limit);
      replayed, crashed := 0, false;
      for k := 0 to |todo|
        invariant !crashed && replayed == k && |events| == |old(events)|
        invariant ReplayAll(old(State()), todo, cfg, now) == ReplayAll(State(), todo[k..], cfg, now)
      {
        var reply := ReplayEvent(todo[k], now);
        assert todo[k..][1..] == todo[k + 1..];
        if reply.Crash? {
          crashed := true;
          return;
        }
        replayed := replayed + 1;
      }
    }

    method Receive(e: Event, emptyPayload: bool, fault: Fault, now: int) returns (reply: Reply)
      modifies this
      ensures (State(), reply) == Intake(old(State()), e, emptyPayload, fault, cfg, now)
    {
      if e.provider !in cfg.providers {
        return Status(Ignored);
      }
      for i := 0 to |events|
        invariant forall j :: 0 <= j < i ==> !SameEvent(events[j], e)
      {
        if SameEvent(events[i], e) {
          return Status(Idempotent);
        }
      }
      var saved := events;
      events := events + [NewRow(e, emptyPayload, now)];
      if Raises(State(), e, fault, cfg) {
        reply := ProcessInterrupted(|events| - 1, e, fault, now);
      } else {
        reply := ProcessEvent(|events| - 1, e, now);
      }
      if reply.Crash? {
        events := saved;
      }
    }

    /** An attempt that a fault interrupts, and the error handler after it. */
    method ProcessInterrupted(i: nat, e: Event, fault: Fault, now: int) returns (reply: Reply)
      requires i < |events| && Raises(State(), e, fault, cfg)
      modifies this
      ensures reply == if fault == NoFault && Clashes(old(State()), e) then Crash else ServerError
      ensures State() == if reply == Crash then old(State()) else Interrupted(old(State()), i, e, fault, cfg, now)
    {
      var savedEvents, savedSubs := events, subs;
      events := events[i := events[i].(attempts := events[i].attempts + 1, errorCode := "")];
      if fault == NoFault {
        var user := FindUser(e);
        var pick := AssignSubscription(e, user.value, now);
        if Clash(savedSubs, e, pick) {
          events, subs := savedEvents, savedSubs;
          return Crash;
        }
      }
      events := events[i := events[i].(errorCode := "processing_error")];
      if events[i].attempts >= cfg.deadLetterAttempts {
        events := events[i := events[i].(deadLetter := true)];
      }
      assert events == Interrupted(old(State()), i, e, fault, cfg, now).events;
      return ServerError;
    }

    /** Assign the fields that precede the entitlement. */
    method AssignSubscription(e: Event, user: nat, now: int) returns (pick: nat)
      modifies this`subs
      ensures pick == ChooseSub(old(subs), e, user) && subs == HalfUpserted(old(subs), e, user, pick, now)
    {
      pick := FindSubscription(e, user);
      if pick == |subs| {
        subs := subs + [Sub(user, e.provider, None, None, "", "unknown_plan", None, false, false, now)];
      }
      var before := subs[pick];
      var sub := before.(user := user, provider := e.provider, customer := e.customer, subscription := e.subscription);
      sub := sub.(status := Or(e.status, "unknown"), plan := Or(e.plan, sub.plan));
      sub := sub.(periodEnd := e.periodEnd, cancelAtEnd := e.cancelAtEnd);
      if sub != before {
        sub := sub.(updatedAt := now);
      }
      subs := subs[pick := sub];
    }

    method UndeleteDeadLetter(i: nat) returns (reply: Reply)
      modifies this
      ensures (State(), reply) == Undelete(old(State()), i)
    {
      if i >= |events| {
        return NotFound;
      }
      events := events[i := events[i].(deadLetter := false, errorCode := "")];
      return Status(events[i].status);
    }

    method CleanupOldEvents(now: int) returns (deleted: nat)
      modifies this
      ensures State() == old(State()).(events :=
          Kept(old(events), now - (if cfg.retention > 0 then cfg.retention else 0)))
      ensures deleted == |old(events)| - |events|
    {
      var cutoff := now - if cfg.retention > 0 then cfg.retention else 0;
      var all := events;
      var kept: seq<EventRow> := [];
      for i := 0 to |all|
        invariant kept == Kept(all[..i], cutoff)
      {
        assert all[..i + 1][..i] == all[..i];
        if !Expired(all[i], cutoff) {
          kept := kept + [all[i]];
        }
      }
      assert all[..|all|] == all;
      deleted := |all| - |kept|;
      events := kept;
    }

    method SelectCandidates(provider: string, limit: nat) returns (todo: seq<nat>)
      ensures todo == Candidates(events, provider, limit)
    {
      todo := [];
      for i := 0 to |events|
        invariant todo == Candidates(events[..i], provider, limit)
      {
        assert events[..i + 1][..i] == events[..i];
        if |todo| < limit && Candidate(events[i], provider) {
          todo := todo + [i];
        }
      }
      assert events[..|events|] == events;
    }
  }
}
