/** src/casino_bot/services/game_round_service.py as a protocol between concurrent clients.

  Each client holds a database transaction and plays rounds in it, one `execute_game_round` call
  at a time, broken into the steps at which other clients can interleave: read, insert, adjust,
  set the status, record a failure, poll, commit, roll back. Readers see committed rows and their
  own pending ones. An insert waits while another transaction has a pending row of the same key,
  and conflicts with a committed one; the account row is locked from the adjustment to the end of
  the transaction. Before a call the engine's balance gate may load the account into the session
  (games/service.py:91); the locking read then returns that object with the balance it was loaded
  with, because the query does not ask for existing objects to be refreshed. */
module RoundProtocol {
  import opened Common
  import opened Ledger
  import opened Compliance
  import opened GameRounds

  datatype Pc =
    | Idle
    | Reading(call: Call)
    | Inserting(call: Call)
    | Inserted(call: Call, row: Round)
    | Adjusted(call: Call, row: Round)
    | Failing(call: Call)
    | Polling(call: Call)

  /** What a call returned, as seen by its caller. */
  datatype Result = Result(key: Key, round: Round)

  /** A client with its pending writes. `locked` are the users whose accounts it holds, `loaded`
      the balances its session read from the database, `accounts` the balances it has written;
      `results` are the calls that returned within this transaction. */
  datatype Client = Client(pc: Pc, rounds: seq<Round>, ledger: seq<Entry>, locked: set<nat>,
                           loaded: map<nat, int>, accounts: map<nat, int>, results: seq<Result>)

  /** `confirmed` collects the results of committed transactions; no client reads it. */
  datatype World = World(db: Db, clients: seq<Client>, confirmed: set<Result>)

  datatype Step =
    | CreateUser(user: nat)
    | Begin(c: nat, call: Call)
    | Read(c: nat)
    | Insert(c: nat, foreignKeys: bool)
    | Adjust(c: nat)
    | Finish(c: nat, now: int)
    | Raise(c: nat)
    | RecordFailed(c: nat, foreignKeys: bool, fault: bool)
    | Poll(c: nat)
    | GiveUp(c: nat)
    | Load(c: nat, user: nat)
    | AdminAdjust(c: nat, user: nat, delta: int, text: string)
    | Commit(c: nat)
    | Rollback(c: nat)

  // ----- what a client sees -----

  function PendingRows(cl: Client): seq<Round> {
    cl.rounds + if cl.pc.Inserted? || cl.pc.Adjusted? then [cl.pc.row] else []
  }

  /** Another transaction has a pending row of this key. */
  predicate KeyBlocked(w: World, c: nat, key: Key) {
    exists j :: 0 <= j < |w.clients| && j != c && Find(PendingRows(w.clients[j]), key).Some?
  }

  /** Another transaction has locked this user's account. */
  predicate AccountLocked(w: World, c: nat, user: nat) {
    exists j :: 0 <= j < |w.clients| && j != c && user in w.clients[j].locked
  }

  function Cleared(pc: Pc): Client {
    Client(pc, [], [], {}, map[], map[], [])
  }

  function Returned(cl: Client, key: Key, round: Round): Client {
    cl.(pc := Idle, results := cl.results + [Result(key, round)])
  }

  /** The balance the session's account object shows. */
  function Seen(cl: Client, user: nat): int {
    if user in cl.accounts then cl.accounts[user] else if user in cl.loaded then cl.loaded[user] else 0
  }

  // ----- the steps -----

  function ReadStep(db: Db, cl: Client, call: Call): Client {
    var found := Find(db.rounds + cl.rounds, call.key);
    if found.Some? then Returned(cl, call.key, found.value)
    else if call.bet <= 0 || call.bet > MAX_BET_AMOUNT then cl.(pc := Idle)
    else cl.(pc := Inserting(call))
  }

  /** The new row is flushed with status "failed" and the attempted payout. A key or foreign-key
      violation rolls the whole transaction back. */
  function InsertStep(db: Db, cl: Client, call: Call, foreignKeys: bool, scale: int): Client {
    if Find(db.rounds + cl.rounds, call.key).Some? || (foreignKeys && call.key.user !in db.users)
    then Cleared(Polling(call))
    else cl.(pc := Inserted(call, FlushedRow(db, call, scale)))
  }

  /** An account object enters the session with the committed balance, unless it is there. */
  function LoadStep(db: Db, cl: Client, user: nat): Client {
    if user in cl.loaded || user !in db.accounts then cl else cl.(loaded := cl.loaded[user := db.accounts[user]])
  }

  /** Select the account for update, creating a missing one. */
  function LockStep(db: Db, cl: Client, user: nat): Client {
    var holder := cl.(locked := cl.locked + {user});
    if user !in db.accounts && user !in cl.accounts
    then holder.(loaded := cl.loaded[user := 0], accounts := cl.accounts[user := 0])
    else if user in cl.loaded then holder
    else holder.(loaded := cl.loaded[user := Balance(db.accounts, user)])
  }

  /** Write the new balance, if it is a new one, and the ledger entry. */
  function Booked(cl: Client, e: Entry): Client {
    cl.(ledger := cl.ledger + [e],
        accounts := if e.delta == 0 then cl.accounts else cl.accounts[e.user := Seen(cl, e.user) + e.delta])
  }

  function AdjustStep(db: Db, cl: Client, call: Call, row: Round): Client {
    var user := call.key.user;
    var holder := LockStep(db, cl, user);
    if user !in db.users then Cleared(Failing(call))
    else if !DeltaAllowed(Seen(holder, user), row.payoutUnits) then
      var rejected := row.(status := Rejected, payoutUnits := 0);
      Returned(holder.(rounds := cl.rounds + [rejected]), call.key, rejected)
    else Booked(holder, Booking(row)).(pc := Adjusted(call, row))
  }

  function FinishStep(cl: Client, call: Call, row: Round, now: int): Client {
    var committed := row.(status := Committed, committedAt := Some(now));
    Returned(cl.(rounds := cl.rounds + [committed]), call.key, committed)
  }

  function PollStep(db: Db, cl: Client, call: Call): Client {
    var found := Find(db.rounds, call.key);
    if found.Some? then Returned(cl, call.key, found.value) else cl
  }

  function AdminStep(db: Db, cl: Client, user: nat, delta: int, text: string): Client {
    var holder := LockStep(db, cl, user);
    if user !in db.users then cl
    else if !DeltaAllowed(Seen(holder, user), delta) then holder
    else Booked(holder, Entry(user, delta, Other(text)))
  }

  function Merged(db: Db, cl: Client): Db {
    db.(accounts := db.accounts + cl.accounts, ledger := db.ledger + cl.ledger, rounds := db.rounds + cl.rounds)
  }

  /** The step may be taken: the client is at the right point and need not wait. */
  predicate Enabled(w: World, s: Step) {
    match s
    case CreateUser(user) => user !in w.db.users && user !in w.db.accounts
    case _ =>
      && s.c < |w.clients|
      && var pc := w.clients[s.c].pc;
         match s
         case Begin(_, _) => pc.Idle?
         case Read(_) => pc.Reading?
         case Insert(c, _) => pc.Inserting? && !KeyBlocked(w, c, pc.call.key)
         case Adjust(c) => pc.Inserted? && !AccountLocked(w, c, pc.call.key.user)
         case Finish(_, _) => pc.Adjusted?
         case Raise(_) => pc.Inserting? || pc.Inserted? || pc.Adjusted?
         case RecordFailed(c, _, _) => pc.Failing? && !KeyBlocked(w, c, pc.call.key)
         case Poll(_) => pc.Polling?
         case GiveUp(_) => pc.Polling?
         case Load(_, _) => pc.Idle?
         case AdminAdjust(c, user, _, _) => pc.Idle? && !AccountLocked(w, c, user)
         case Commit(_) => pc.Idle?
         case Rollback(_) => true
         case CreateUser(_) => false
  }

  function SetClient(w: World, c: nat, cl: Client): World
    requires c < |w.clients|
  {
    w.(clients := w.clients[c := cl])
  }

  function Next(w: World, s: Step, scale: int): World {
    if !Enabled(w, s) then w else
    match s
    case CreateUser(user) => w.(db := w.db.(users := w.db.users + {user}, accounts := w.db.accounts[user := 0]))
    case Begin(c, call) => SetClient(w, c, w.clients[c].(pc := Reading(call)))
    case Read(c) => SetClient(w, c, ReadStep(w.db, w.clients[c], w.clients[c].pc.call))
    case Insert(c, fk) =>
      SetClient(w, c, InsertStep(w.db, w.clients[c], w.clients[c].pc.call, fk, scale))
        .(db := w.db.(nextId := w.db.nextId + 1))
    case Adjust(c) => SetClient(w, c, AdjustStep(w.db, w.clients[c], w.clients[c].pc.call, w.clients[c].pc.row))
    case Finish(c, now) => SetClient(w, c, FinishStep(w.clients[c], w.clients[c].pc.call, w.clients[c].pc.row, now))
    case Raise(c) => SetClient(w, c, Cleared(Failing(w.clients[c].pc.call)))
    case RecordFailed(c, fk, fault) =>
      SetClient(w, c, Cleared(Idle)).(db := GameRounds.RecordFailed(w.db, w.clients[c].pc.call, fk, fault, scale))
    case Poll(c) => SetClient(w, c, PollStep(w.db, w.clients[c], w.clients[c].pc.call))
    case GiveUp(c) => SetClient(w, c, w.clients[c].(pc := Idle))
    case Load(c, user) => SetClient(w, c, LoadStep(w.db, w.clients[c], user))
    case AdminAdjust(c, user, delta, text) => SetClient(w, c, AdminStep(w.db, w.clients[c], user, delta, text))
    case Commit(c) =>
      SetClient(w, c, Cleared(Idle)).(db := Merged(w.db, w.clients[c]),
                                      confirmed := w.confirmed + set p | p in w.clients[c].results)
    case Rollback(c) => SetClient(w, c, Cleared(Idle))
  }

  function Run(w: World, steps: seq<Step>, scale: int): World {
    if steps == [] then w else Next(Run(w, steps[..|steps| - 1], scale), steps[|steps| - 1], scale)
  }

  /** An empty database and n clients with nothing pending. */
  function Initial(n: nat): World {
    World(Db({}, map[], [], [], 0), seq(n, _ => Cleared(Idle)), {})
  }

  // ----- the invariant -----

  /** What holds of the database in every run, however stale the balances that were loaded. */
  ghost predicate Orderly(db: Db) {
    && Matched(db.rounds, db.ledger)
    && (forall u :: Balance(db.accounts, u) >= 0)
    && forall r :: r in db.rounds ==> r.id < db.nextId
  }

  /** A written balance is the loaded one plus the pending entries of its user. */
  ghost predicate AccountsAgree(cl: Client) {
    && cl.accounts.Keys <= cl.locked <= cl.loaded.Keys
    && (forall u :: u in cl.loaded ==> cl.loaded[u] >= 0)
    && (forall u :: u in cl.accounts ==> cl.accounts[u] == cl.loaded[u] + Sum(cl.ledger, u) && cl.accounts[u] >= 0)
    && (forall u :: u !in cl.accounts ==> Sum(cl.ledger, u) == 0)
  }

  /** The pending rounds and ledger entries correspond, except that between the adjustment and
      the setting of the status the last entry books the row in progress. */
  ghost predicate PendingMatched(cl: Client) {
    if cl.pc.Adjusted?
    then cl.ledger != [] && cl.ledger[|cl.ledger| - 1] == Booking(cl.pc.row) &&
         Matched(cl.rounds, cl.ledger[..|cl.ledger| - 1])
    else Matched(cl.rounds, cl.ledger)
  }

  ghost predicate InProgress(cl: Client) {
    match cl.pc
    case Inserted(call, row) =>
      row.key == call.key && row.key !in Keys(cl.rounds) && row.id !in Ids(cl.rounds)
    case Adjusted(call, row) =>
      row.key == call.key && row.key !in Keys(cl.rounds) && row.id !in Ids(cl.rounds)
    case Failing(_) => cl == Cleared(cl.pc)
    case _ => true
  }

  ghost predicate ClientOk(db: Db, cl: Client) {
    && AccountsAgree(cl) && PendingMatched(cl) && InProgress(cl)
    && Keys(PendingRows(cl)) !! Keys(db.rounds) && Ids(PendingRows(cl)) !! Ids(db.rounds)
    && (forall r :: r in PendingRows(cl) ==> r.id < db.nextId)
    && (forall p :: p in cl.results ==> p.round.key == p.key && (p.round in db.rounds || p.round in cl.rounds))
  }

  ghost predicate Apart(a: Client, b: Client) {
    && Keys(PendingRows(a)) !! Keys(PendingRows(b)) && Ids(PendingRows(a)) !! Ids(PendingRows(b))
    && a.locked !! b.locked
  }

  ghost predicate Inv(w: World) {
    && Orderly(w.db)
    && (forall i :: 0 <= i < |w.clients| ==> ClientOk(w.db, w.clients[i]))
    && (forall i, j :: 0 <= i < j < |w.clients| ==> Apart(w.clients[i], w.clients[j]))
    && (forall p :: p in w.confirmed ==> p.round in w.db.rounds && p.round.key == p.key)
  }

  lemma {:induction false} FindFinds(rounds: seq<Round>, key: Key)
    ensures Find(rounds, key).Some? <==> key in Keys(rounds)
    ensures Find(rounds, key).Some? ==> Find(rounds, key).value in rounds && Find(rounds, key).value.key == key
  {
    if rounds != [] {
      FindFinds(rounds[1..], key);
      assert rounds == [rounds[0]] + rounds[1..];
      assert Keys(rounds) == {rounds[0].key} + Keys(rounds[1..]);
    }
  }

  lemma KeysJoin(a: seq<Round>, b: seq<Round>)
    ensures Keys(a + b) == Keys(a) + Keys(b) && Ids(a + b) == Ids(a) + Ids(b)
  {
  }

  lemma IdsBelow(db: Db, cl: Client)
    requires Orderly(db) && ClientOk(db, cl)
    ensures db.nextId !in Ids(db.rounds) && db.nextId !in Ids(PendingRows(cl))
  {
  }

  /** Replacing one client, possibly with a larger database, keeps the invariant. */
  lemma SetClientInv(w: World, c: nat, cl: Client, db: Db, confirmed: set<Result>)
    requires Inv(w) && c < |w.clients| && Orderly(db) && ClientOk(db, cl)
    requires forall j :: 0 <= j < |w.clients| && j != c ==> ClientOk(db, w.clients[j]) && Apart(cl, w.clients[j])
    requires forall p :: p in confirmed ==> p.round in db.rounds && p.round.key == p.key
    ensures Inv(World(db, w.clients[c := cl], confirmed))
  {
    var clients := w.clients[c := cl];
    forall i, j | 0 <= i < j < |clients|
      ensures Apart(clients[i], clients[j])
    {
      if i == c {
      } else if j == c {
        assert Apart(cl, w.clients[i]);
      } else {
        assert Apart(w.clients[i], w.clients[j]);
      }
    }
  }

  lemma ApartOthers(w: World, c: nat, j: nat)
    requires Inv(w) && c < |w.clients| && j < |w.clients| && j != c
    ensures Apart(w.clients[c], w.clients[j])
  {
    if c < j {
      assert Apart(w.clients[c], w.clients[j]);
    } else {
      assert Apart(w.clients[j], w.clients[c]);
    }
  }

  /** A step that changes one client and, of the database, at most the id counter. */
  lemma LocalStep(w: World, c: nat, cl: Client, nextId: nat)
    requires Inv(w) && c < |w.clients| && nextId >= w.db.nextId
    requires ClientOk(w.db.(nextId := nextId), cl)
    requires forall j :: 0 <= j < |w.clients| && j != c ==> Apart(cl, w.clients[j])
    ensures Inv(SetClient(w, c, cl).(db := w.db.(nextId := nextId)))
  {
    forall j | 0 <= j < |w.clients| && j != c
      ensures ClientOk(w.db.(nextId := nextId), w.clients[j])
    {
      assert ClientOk(w.db, w.clients[j]);
    }
    SetClientInv(w, c, cl, w.db.(nextId := nextId), w.confirmed);
  }

  lemma ClearedOk(db: Db, pc: Pc)
    requires !pc.Inserted? && !pc.Adjusted?
    ensures ClientOk(db, Cleared(pc))
  {
    MatchedEmpty();
    assert PendingRows(Cleared(pc)) == [];
    assert Keys([]) == {} && Ids([]) == {};
  }

  /** A client that keeps its pending rows and accounts keeps its distance. */
  lemma SamePendingApart(w: World, c: nat, cl: Client)
    requires Inv(w) && c < |w.clients|
    requires Keys(PendingRows(cl)) <= Keys(PendingRows(w.clients[c]))
    requires Ids(PendingRows(cl)) <= Ids(PendingRows(w.clients[c]))
    requires cl.locked <= w.clients[c].locked
    ensures forall j :: 0 <= j < |w.clients| && j != c ==> Apart(cl, w.clients[j])
  {
    forall j | 0 <= j < |w.clients| && j != c
      ensures Apart(cl, w.clients[j])
    {
      ApartOthers(w, c, j);
    }
  }

  // ----- every step keeps the invariant -----

  lemma BeginInv(w: World, c: nat, call: Call, scale: int)
    requires Inv(w) && Enabled(w, Begin(c, call))
    ensures Inv(Next(w, Begin(c, call), scale))
  {
    var cl := w.clients[c].(pc := Reading(call));
    assert PendingRows(cl) == PendingRows(w.clients[c]);
    SamePendingApart(w, c, cl);
    LocalStep(w, c, cl, w.db.nextId);
  }

  lemma ReadInv(w: World, c: nat, scale: int)
    requires Inv(w) && Enabled(w, Read(c))
    ensures Inv(Next(w, Read(c), scale))
  {
    var was := w.clients[c];
    var call := was.pc.call;
    var cl := ReadStep(w.db, was, call);
    FindFinds(w.db.rounds + was.rounds, call.key);
    assert PendingRows(cl) == PendingRows(was);
    SamePendingApart(w, c, cl);
    LocalStep(w, c, cl, w.db.nextId);
  }

  /** The client after its row of this key went in. */
  function WithRow(cl: Client, call: Call, row: Round): Client {
    cl.(pc := Inserted(call, row))
  }

  lemma RowKeys(cl: Client, call: Call, row: Round)
    requires cl.pc.Inserting?
    ensures PendingRows(cl) == cl.rounds && PendingRows(WithRow(cl, call, row)) == cl.rounds + [row]
    ensures Keys(cl.rounds + [row]) == Keys(cl.rounds) + {row.key}
    ensures Ids(cl.rounds + [row]) == Ids(cl.rounds) + {row.id}
  {
    KeysJoin(cl.rounds, [row]);
    assert Keys([row]) == {row.key} && Ids([row]) == {row.id};
  }

  lemma InsertedOk(db: Db, cl: Client, call: Call, row: Round)
    requires Orderly(db) && ClientOk(db, cl) && cl.pc == Inserting(call)
    requires row.key == call.key && row.id == db.nextId && row.key !in Keys(db.rounds) + Keys(cl.rounds)
    ensures ClientOk(db.(nextId := db.nextId + 1), WithRow(cl, call, row))
  {
    RowKeys(cl, call, row);
    IdsBelow(db, cl);
  }

  lemma InsertedApart(w: World, c: nat, call: Call, row: Round)
    requires Inv(w) && c < |w.clients| && w.clients[c].pc == Inserting(call) && !KeyBlocked(w, c, call.key)
    requires row.key == call.key && row.id == w.db.nextId
    ensures forall j :: 0 <= j < |w.clients| && j != c ==> Apart(WithRow(w.clients[c], call, row), w.clients[j])
  {
    RowKeys(w.clients[c], call, row);
    forall j | 0 <= j < |w.clients| && j != c
      ensures Apart(WithRow(w.clients[c], call, row), w.clients[j])
    {
      ApartOthers(w, c, j);
      FindFinds(PendingRows(w.clients[j]), call.key);
      IdsBelow(w.db, w.clients[j]);
    }
  }

  lemma InsertInv(w: World, c: nat, fk: bool, scale: int)
    requires Inv(w) && Enabled(w, Insert(c, fk))
    ensures Inv(Next(w, Insert(c, fk), scale))
  {
    var was := w.clients[c];
    var call := was.pc.call;
    var cl := InsertStep(w.db, was, call, fk, scale);
    FindFinds(w.db.rounds + was.rounds, call.key);
    KeysJoin(w.db.rounds, was.rounds);
    if cl.pc.Polling? {
      ClearedOk(w.db.(nextId := w.db.nextId + 1), cl.pc);
      SamePendingApart(w, c, cl);
    } else {
      InsertedOk(w.db, was, call, cl.pc.row);
      InsertedApart(w, c, call, cl.pc.row);
    }
    LocalStep(w, c, cl, w.db.nextId + 1);
  }

  /** Locking an account keeps the client's books, whatever balance it shows. */
  lemma LockedAccounts(db: Db, cl: Client, user: nat)
    requires Orderly(db) && AccountsAgree(cl)
    ensures AccountsAgree(LockStep(db, cl, user)) && Seen(LockStep(db, cl, user), user) >= 0
  {
    assert Balance(db.accounts, user) >= 0;
  }

  lemma BookedAccounts(cl: Client, e: Entry)
    requires AccountsAgree(cl) && e.user in cl.locked && DeltaAllowed(Seen(cl, e.user), e.delta)
    ensures AccountsAgree(Booked(cl, e))
  {
    AdjustmentAllowedIff(Context(Seen(cl, e.user), e.delta, false, false));
    forall u
      ensures Sum(cl.ledger + [e], u) == Sum(cl.ledger, u) + if e.user == u then e.delta else 0
    {
      assert (cl.ledger + [e])[..|cl.ledger|] == cl.ledger;
    }
  }

  /** A finished row, with its booking when it is committed, extends a matched transaction. */
  lemma FinishMatched(rounds: seq<Round>, ledger: seq<Entry>, r: Round)
    requires Matched(rounds, ledger) && Final(r) && r.key !in Keys(rounds) && r.id !in Ids(rounds)
    ensures Matched(rounds + [r], ledger + if r.status == Committed then [Booking(r)] else [])
  {
    MatchedSingle(r);
    assert Keys([r]) == {r.key} && Ids([r]) == {r.id};
    MatchedJoin(rounds, ledger, [r], if r.status == Committed then [Booking(r)] else []);
  }

  /** The client keeps its pending rows' keys and ids, and at most locks one more account. */
  ghost predicate OneMoreLock(cl: Client, cl': Client, user: nat) {
    && Keys(PendingRows(cl')) == Keys(PendingRows(cl)) && Ids(PendingRows(cl')) == Ids(PendingRows(cl))
    && cl'.locked <= cl.locked + {user}
  }

  lemma LockedOk(db: Db, cl: Client, user: nat)
    requires Orderly(db) && ClientOk(db, cl) && !cl.pc.Failing?
    ensures ClientOk(db, LockStep(db, cl, user)) && OneMoreLock(cl, LockStep(db, cl, user), user)
  {
    LockedAccounts(db, cl, user);
    assert PendingRows(LockStep(db, cl, user)) == PendingRows(cl);
  }

  lemma RejectedOk(db: Db, cl: Client, call: Call, row: Round)
    requires ClientOk(db, cl) && cl.pc == Inserted(call, row)
    ensures var rejected := row.(status := Rejected, payoutUnits := 0);
            var cl' := Returned(cl.(rounds := cl.rounds + [rejected]), call.key, rejected);
      ClientOk(db, cl') && OneMoreLock(cl, cl', call.key.user)
  {
    var rejected := row.(status := Rejected, payoutUnits := 0);
    FinishMatched(cl.rounds, cl.ledger, rejected);
    assert cl.ledger + [] == cl.ledger;
    RowOutcome(cl, rejected);
  }

  lemma AdjustedOk(db: Db, cl: Client, call: Call, row: Round)
    requires ClientOk(db, cl) && cl.pc == Inserted(call, row) && call.key.user in cl.locked
    requires DeltaAllowed(Seen(cl, call.key.user), row.payoutUnits)
    ensures var cl' := Booked(cl, Booking(row)).(pc := Adjusted(call, row));
      ClientOk(db, cl') && OneMoreLock(cl, cl', call.key.user)
  {
    BookedAccounts(cl, Booking(row));
    var cl' := Booked(cl, Booking(row)).(pc := Adjusted(call, row));
    assert cl'.ledger[..|cl'.ledger| - 1] == cl.ledger;
    assert PendingRows(cl') == PendingRows(cl);
  }

  lemma AdjustInv(w: World, c: nat, scale: int)
    requires Inv(w) && Enabled(w, Adjust(c))
    ensures Inv(Next(w, Adjust(c), scale))
  {
    var was := w.clients[c];
    var call, row := was.pc.call, was.pc.row;
    var cl := AdjustStep(w.db, was, call, row);
    if cl.pc.Failing? {
      ClearInv(w, c, cl.pc);
    } else {
      var holder := LockStep(w.db, was, call.key.user);
      LockedOk(w.db, was, call.key.user);
      if cl.pc.Idle? {
        RejectedOk(w.db, holder, call, row);
      } else {
        AdjustedOk(w.db, holder, call, row);
      }
      LockApart(w, c, cl, call.key.user);
      LocalStep(w, c, cl, w.db.nextId);
    }
  }

  /** Finishing the row in progress keeps the client's pending keys and ids. */
  lemma RowOutcome(cl: Client, r: Round)
    requires (cl.pc.Inserted? || cl.pc.Adjusted?) && r.key == cl.pc.row.key && r.id == cl.pc.row.id
    ensures Keys(cl.rounds + [r]) == Keys(PendingRows(cl)) && Ids(cl.rounds + [r]) == Ids(PendingRows(cl))
  {
    KeysJoin(cl.rounds, [r]);
    KeysJoin(cl.rounds, [cl.pc.row]);
    assert Keys([r]) == {r.key} == Keys([cl.pc.row]) && Ids([r]) == {r.id} == Ids([cl.pc.row]);
  }

  lemma LockApart(w: World, c: nat, cl: Client, user: nat)
    requires Inv(w) && c < |w.clients| && !AccountLocked(w, c, user)
    requires OneMoreLock(w.clients[c], cl, user)
    ensures forall j :: 0 <= j < |w.clients| && j != c ==> Apart(cl, w.clients[j])
  {
    forall j | 0 <= j < |w.clients| && j != c
      ensures Apart(cl, w.clients[j])
    {
      ApartOthers(w, c, j);
    }
  }

  lemma FinishInv(w: World, c: nat, now: int, scale: int)
    requires Inv(w) && Enabled(w, Finish(c, now))
    ensures Inv(Next(w, Finish(c, now), scale))
  {
    var was := w.clients[c];
    var call, row := was.pc.call, was.pc.row;
    var committed := row.(status := Committed, committedAt := Some(now));
    var cl := FinishStep(was, call, row, now);
    var before := was.ledger[..|was.ledger| - 1];
    assert was.ledger == before + [Booking(committed)];
    FinishMatched(was.rounds, before, committed);
    RowOutcome(was, committed);
    assert PendingRows(cl) == was.rounds + [committed];
    SamePendingApart(w, c, cl);
    LocalStep(w, c, cl, w.db.nextId);
  }

  lemma ClearInv(w: World, c: nat, pc: Pc)
    requires Inv(w) && c < |w.clients| && !pc.Inserted? && !pc.Adjusted?
    ensures Inv(SetClient(w, c, Cleared(pc)))
  {
    ClearedOk(w.db, pc);
    SamePendingApart(w, c, Cleared(pc));
    LocalStep(w, c, Cleared(pc), w.db.nextId);
  }

  lemma PollInv(w: World, c: nat, scale: int)
    requires Inv(w) && Enabled(w, Poll(c))
    ensures Inv(Next(w, Poll(c), scale))
  {
    var cl := PollStep(w.db, w.clients[c], w.clients[c].pc.call);
    FindFinds(w.db.rounds, w.clients[c].pc.call.key);
    assert PendingRows(cl) == PendingRows(w.clients[c]);
    SamePendingApart(w, c, cl);
    LocalStep(w, c, cl, w.db.nextId);
  }

  lemma GiveUpInv(w: World, c: nat, scale: int)
    requires Inv(w) && Enabled(w, GiveUp(c))
    ensures Inv(Next(w, GiveUp(c), scale))
  {
    var cl := w.clients[c].(pc := Idle);
    assert PendingRows(cl) == PendingRows(w.clients[c]);
    SamePendingApart(w, c, cl);
    LocalStep(w, c, cl, w.db.nextId);
  }

  lemma LoadInv(w: World, c: nat, user: nat, scale: int)
    requires Inv(w) && Enabled(w, Load(c, user))
    ensures Inv(Next(w, Load(c, user), scale))
  {
    var cl := LoadStep(w.db, w.clients[c], user);
    assert Balance(w.db.accounts, user) >= 0;
    assert PendingRows(cl) == PendingRows(w.clients[c]);
    SamePendingApart(w, c, cl);
    LocalStep(w, c, cl, w.db.nextId);
  }

  lemma AdminInv(w: World, c: nat, user: nat, delta: int, text: string, scale: int)
    requires Inv(w) && Enabled(w, AdminAdjust(c, user, delta, text))
    ensures Inv(Next(w, AdminAdjust(c, user, delta, text), scale))
  {
    var was := w.clients[c];
    var holder, e := LockStep(w.db, was, user), Entry(user, delta, Other(text));
    var cl := AdminStep(w.db, was, user, delta, text);
    LockedAccounts(w.db, was, user);
    if user in w.db.users && DeltaAllowed(Seen(holder, user), delta) {
      BookedAccounts(holder, e);
      MatchedOther(was.rounds, was.ledger, e);
    }
    assert PendingRows(cl) == PendingRows(was);
    LockApart(w, c, cl, user);
    LocalStep(w, c, cl, w.db.nextId);
  }

  /** Committing a client's transaction keeps the database orderly. */
  lemma MergedOrderly(db: Db, cl: Client)
    requires Orderly(db) && ClientOk(db, cl) && cl.pc.Idle?
    ensures Orderly(Merged(db, cl))
  {
    assert PendingRows(cl) == cl.rounds;
    MatchedJoin(db.rounds, db.ledger, cl.rounds, cl.ledger);
    forall u
      ensures Balance(Merged(db, cl).accounts, u) >= 0
    {
      assert Balance(db.accounts, u) >= 0;
    }
  }

  /** Another client's commit does not disturb a transaction that is apart from it. */
  lemma MergedOther(db: Db, cl: Client, other: Client)
    requires ClientOk(db, cl) && ClientOk(db, other) && Apart(cl, other) && cl.pc.Idle?
    ensures ClientOk(Merged(db, cl), other)
  {
    assert PendingRows(cl) == cl.rounds;
    KeysJoin(db.rounds, cl.rounds);
  }

  lemma CommitInv(w: World, c: nat, scale: int)
    requires Inv(w) && Enabled(w, Commit(c))
    ensures Inv(Next(w, Commit(c), scale))
  {
    var cl := w.clients[c];
    var db := Merged(w.db, cl);
    MergedOrderly(w.db, cl);
    ClearedOk(db, Idle);
    SamePendingApart(w, c, Cleared(Idle));
    forall j | 0 <= j < |w.clients| && j != c
      ensures ClientOk(db, w.clients[j])
    {
      ApartOthers(w, c, j);
      MergedOther(w.db, cl, w.clients[j]);
    }
    SetClientInv(w, c, Cleared(Idle), db, w.confirmed + set p | p in cl.results);
  }

  function WithRound(db: Db, r: Round): Db {
    db.(rounds := db.rounds + [r], nextId := db.nextId + 1)
  }

  lemma RecordedOrderly(db: Db, r: Round)
    requires Orderly(db) && Final(r) && r.status != Committed && r.id == db.nextId && r.key !in Keys(db.rounds)
    ensures Orderly(WithRound(db, r))
  {
    assert r.id !in Ids(db.rounds);
    FinishMatched(db.rounds, db.ledger, r);
    assert db.ledger + [] == db.ledger;
  }

  lemma RecordedOther(db: Db, r: Round, other: Client)
    requires ClientOk(db, other) && r.id == db.nextId && r.key !in Keys(PendingRows(other))
    ensures ClientOk(WithRound(db, r), other)
  {
    KeysJoin(db.rounds, [r]);
    assert Keys([r]) == {r.key} && Ids([r]) == {r.id};
    assert r.id !in Ids(PendingRows(other));
  }

  /** A failed row recorded on its own is a committed transaction of one row. */
  lemma RecordFailedInv(w: World, c: nat, fk: bool, fault: bool, scale: int)
    requires Inv(w) && Enabled(w, RecordFailed(c, fk, fault))
    ensures Inv(Next(w, RecordFailed(c, fk, fault), scale))
  {
    var call := w.clients[c].pc.call;
    var db := GameRounds.RecordFailed(w.db, call, fk, fault, scale);
    FindFinds(w.db.rounds, call.key);
    if db == w.db {
      ClearInv(w, c, Idle);
    } else {
      var r := FlushedRow(w.db, call, scale).(payoutUnits := 0);
      RecordedOrderly(w.db, r);
      ClearedOk(db, Idle);
      SamePendingApart(w, c, Cleared(Idle));
      forall j | 0 <= j < |w.clients| && j != c
        ensures ClientOk(db, w.clients[j])
      {
        FindFinds(PendingRows(w.clients[j]), call.key);
        RecordedOther(w.db, r, w.clients[j]);
      }
      SetClientInv(w, c, Cleared(Idle), db, w.confirmed);
    }
  }

  lemma CreateUserInv(w: World, user: nat, scale: int)
    requires Inv(w) && Enabled(w, CreateUser(user))
    ensures Inv(Next(w, CreateUser(user), scale))
  {
    var db := w.db.(users := w.db.users + {user}, accounts := w.db.accounts[user := 0]);
    forall u
      ensures Balance(db.accounts, u) >= 0
    {
      assert Balance(w.db.accounts, u) >= 0;
    }
    forall j | 0 <= j < |w.clients|
      ensures ClientOk(db, w.clients[j])
    {
      assert ClientOk(w.db, w.clients[j]);
    }
    assert Next(w, CreateUser(user), scale) == World(db, w.clients, w.confirmed);
  }

  lemma StepInv(w: World, s: Step, scale: int)
    requires Inv(w)
    ensures Inv(Next(w, s, scale))
  {
    if Enabled(w, s) {
      match s
      case CreateUser(user) => CreateUserInv(w, user, scale);
      case Begin(c, call) => BeginInv(w, c, call, scale);
      case Read(c) => ReadInv(w, c, scale);
      case Insert(c, fk) => InsertInv(w, c, fk, scale);
      case Adjust(c) => AdjustInv(w, c, scale);
      case Finish(c, now) => FinishInv(w, c, now, scale);
      case Raise(c) => ClearInv(w, c, Failing(w.clients[c].pc.call));
      case RecordFailed(c, fk, fault) => RecordFailedInv(w, c, fk, fault, scale);
      case Poll(c) => PollInv(w, c, scale);
      case GiveUp(c) => GiveUpInv(w, c, scale);
      case Load(c, user) => LoadInv(w, c, user, scale);
      case AdminAdjust(c, user, delta, text) => AdminInv(w, c, user, delta, text, scale);
      case Commit(c) => CommitInv(w, c, scale);
      case Rollback(c) => ClearInv(w, c, Idle);
    }
  }

  // ----- every run -----

  lemma {:induction false} RunInv(w: World, steps: seq<Step>, scale: int)
    requires Inv(w)
    ensures Inv(Run(w, steps, scale))
  {
    if steps != [] {
      RunInv(w, steps[..|steps| - 1], scale);
      StepInv(Run(w, steps[..|steps| - 1], scale), steps[|steps| - 1], scale);
    }
  }

  lemma InitialInv(n: nat)
    ensures Inv(Initial(n))
  {
    MatchedEmpty();
    var w := Initial(n);
    forall i | 0 <= i < n
      ensures ClientOk(w.db, w.clients[i])
    {
      ClearedOk(w.db, Idle);
    }
    assert PendingRows(Cleared(Idle)) == [] && Keys([]) == {} && Ids([]) == {};
  }

  /** In every state of every run of any number of clients: committed rounds and game-round
      entries correspond one to one in user, game and amount, rejected and failed rounds pay
      nothing and have no entry, and no balance is negative. */
  lemma RoundsMatchLedger(n: nat, steps: seq<Step>, scale: int)
    ensures Orderly(Run(Initial(n), steps, scale).db)
  {
    InitialInv(n);
    RunInv(Initial(n), steps, scale);
  }

  /** Idempotency. In every state of every run: a key has at most one committed round and that
      round at most one ledger entry, and all calls for the key that returned normally in
      transactions that committed were given that same committed round. */
  lemma RoundsAreIdempotent(n: nat, steps: seq<Step>, scale: int)
    ensures var w := Run(Initial(n), steps, scale);
      && (forall r, q :: r in w.db.rounds && q in w.db.rounds && r.key == q.key ==> r == q)
      && (forall p :: p in w.confirmed ==> p.round in w.db.rounds && p.round.key == p.key)
      && (forall p, q :: p in w.confirmed && q in w.confirmed && p.key == q.key ==> p.round == q.round)
      && (forall r :: r in w.db.rounds ==> AtMostOneEntry(w.db.ledger, r.id))
  {
    InitialInv(n);
    RunInv(Initial(n), steps, scale);
    var w := Run(Initial(n), steps, scale);
    forall r, q | r in w.db.rounds && q in w.db.rounds && r.key == q.key
      ensures r == q
    {
      SameKeySameRound(w.db.rounds, w.db.ledger, r, q);
    }
    forall r | r in w.db.rounds
      ensures AtMostOneEntry(w.db.ledger, r.id)
    {
      forall i: nat, j: nat | i < |w.db.ledger| && j < |w.db.ledger| &&
        IsFor(w.db.ledger[i], r.id) && IsFor(w.db.ledger[j], r.id)
        ensures i == j
      {
        EntryIsUnique(w.db.ledger, r.id, i, j);
      }
    }
  }

  ghost predicate AtMostOneEntry(ledger: seq<Entry>, id: nat) {
    forall i, j :: 0 <= i < |ledger| && 0 <= j < |ledger| && IsFor(ledger[i], id) && IsFor(ledger[j], id) ==> i == j
  }

  lemma SameKeySameRound(rounds: seq<Round>, ledger: seq<Entry>, r: Round, q: Round)
    requires Matched(rounds, ledger) && r in rounds && q in rounds && r.key == q.key
    ensures r == q
  {
    var i :| 0 <= i < |rounds| && rounds[i] == r;
    var j :| 0 <= j < |rounds| && rounds[j] == q;
    assert !(i < j) && !(j < i);
  }

  /** Stability. Committed rounds and ledger entries are never changed or removed: what is
      committed at any moment of a run is a prefix of what is committed later. */
  lemma {:induction false} CommittedIsForever(w: World, steps: seq<Step>, scale: int)
    ensures w.db.rounds <= Run(w, steps, scale).db.rounds
    ensures w.db.ledger <= Run(w, steps, scale).db.ledger
    ensures w.confirmed <= Run(w, steps, scale).confirmed
  {
    if steps != [] {
      CommittedIsForever(w, steps[..|steps| - 1], scale);
    }
  }

  /** The step undoes its client's transaction: a rollback, an exception, or an insert whose key is
      committed already or whose user is refused by the foreign key. */
  predicate Undoes(w: World, s: Step) {
    && Enabled(w, s)
    && match s
       case Rollback(_) => true
       case Raise(_) => true
       case Insert(c, foreignKeys) =>
         var key := w.clients[c].pc.call.key;
         (exists r :: r in w.db.rounds && r.key == key) || (foreignKeys && key.user !in w.db.users)
       case _ => false
  }

  /** Of an undone transaction nothing is left: no pending round, entry or balance, no lock, no
      result for the caller, and no effect on the tables. */
  lemma UndoneLeavesNothing(w: World, s: Step, scale: int)
    requires Undoes(w, s)
    ensures var w' := Next(w, s, scale);
            var cl := w'.clients[s.c];
      && cl.rounds == [] && cl.ledger == [] && cl.accounts == map[] && cl.loaded == map[]
      && cl.locked == {} && cl.results == [] && PendingRows(cl) == []
      && w'.db == w.db.(nextId := w'.db.nextId) && w'.confirmed == w.confirmed
      && (forall j :: 0 <= j < |w.clients| && j != s.c ==> w'.clients[j] == w.clients[j])
  {
    if s.Insert? {
      FindFinds(w.db.rounds, w.clients[s.c].pc.call.key);
      FindInJoin(w.db.rounds, w.clients[s.c].rounds, w.clients[s.c].pc.call.key);
    }
  }

  // ----- a lost race always finds its winner -----

  /** Every call in progress is for a known user and a key its own transaction has not used, and
      a polling client's key is already committed. */
  ghost predicate RacesSettled(w: World) {
    forall i :: 0 <= i < |w.clients| ==> Settled(w.db, w.clients[i])
  }

  ghost predicate Settled(db: Db, cl: Client) {
    !cl.pc.Idle? ==>
      && cl.pc.call.key.user in db.users
      && (cl.pc.Inserting? ==> Find(cl.rounds, cl.pc.call.key).None?)
      && (cl.pc.Polling? ==> Find(db.rounds, cl.pc.call.key).Some?)
  }

  lemma {:induction false} FindInJoin(a: seq<Round>, b: seq<Round>, key: Key)
    ensures Find(a + b, key) == if Find(a, key).Some? then Find(a, key) else Find(b, key)
  {
    if a == [] {
      assert a + b == b;
    } else {
      assert (a + b)[1..] == a[1..] + b;
      FindInJoin(a[1..], b, key);
    }
  }

  /** A committed key stays committed. */
  lemma KeyStays(w: World, s: Step, scale: int, key: Key)
    requires Find(w.db.rounds, key).Some?
    ensures Find(Next(w, s, scale).db.rounds, key).Some?
  {
    var rounds := Next(w, s, scale).db.rounds;
    assert w.db.rounds <= rounds;
    assert rounds == w.db.rounds + rounds[|w.db.rounds|..];
    FindInJoin(w.db.rounds, rounds[|w.db.rounds|..], key);
  }

  /** The client's own call after its step. */
  lemma ActorSettled(w: World, s: Step, scale: int)
    requires RacesSettled(w) && (s.Begin? ==> s.call.key.user in w.db.users) && Enabled(w, s) && !s.CreateUser?
    ensures Settled(Next(w, s, scale).db, Next(w, s, scale).clients[s.c])
  {
    var w' := Next(w, s, scale);
    assert Settled(w.db, w.clients[s.c]);
    if s.Read? || s.Insert? {
      FindInJoin(w.db.rounds, w.clients[s.c].rounds, w.clients[s.c].pc.call.key);
    }
    if s.Load? || s.AdminAdjust? || s.Poll? {
      assert w'.db == w.db;
    }
  }

  lemma OtherSettled(w: World, s: Step, scale: int, i: nat)
    requires i < |w.clients| && Settled(w.db, w.clients[i])
    ensures Settled(Next(w, s, scale).db, w.clients[i])
  {
    assert w.db.users <= Next(w, s, scale).db.users;
    if w.clients[i].pc.Polling? {
      KeyStays(w, s, scale, w.clients[i].pc.call.key);
    }
  }

  lemma StepSettles(w: World, s: Step, scale: int)
    requires RacesSettled(w) && (s.Begin? ==> s.call.key.user in w.db.users)
    ensures RacesSettled(Next(w, s, scale))
  {
    if Enabled(w, s) {
      var w' := Next(w, s, scale);
      forall i | 0 <= i < |w'.clients|
        ensures Settled(w'.db, w'.clients[i])
      {
        assert Settled(w.db, w.clients[i]);
        if !s.CreateUser? && i == s.c {
          ActorSettled(w, s, scale);
        } else {
          OtherSettled(w, s, scale, i);
          assert w'.clients[i] == w.clients[i];
        }
      }
    }
  }

  /** When users exist before they play, a client whose insert lost the race to another
      transaction finds the winner's round with its first poll: the poll never has to give up. */
  lemma {:induction false} LostRaceFindsWinner(w: World, steps: seq<Step>, scale: int)
    requires RacesSettled(w)
    requires forall s :: s in steps && s.Begin? ==> s.call.key.user in w.db.users
    ensures RacesSettled(Run(w, steps, scale)) && w.db.users <= Run(w, steps, scale).db.users
  {
    if steps != [] {
      LostRaceFindsWinner(w, steps[..|steps| - 1], scale);
      StepSettles(Run(w, steps[..|steps| - 1], scale), steps[|steps| - 1], scale);
    }
  }

  /** That poll returns to the caller the committed round of its key. */
  lemma PollReturnsWinner(w: World, steps: seq<Step>, scale: int, c: nat)
    requires RacesSettled(w)
    requires forall s :: s in steps && s.Begin? ==> s.call.key.user in w.db.users
    requires c < |Run(w, steps, scale).clients| && Run(w, steps, scale).clients[c].pc.Polling?
    ensures var now := Run(w, steps, scale);
            var key := now.clients[c].pc.call.key;
            var cl := Next(now, Poll(c), scale).clients[c];
      && cl.pc.Idle?
      && exists r :: r in now.db.rounds && r.key == key && cl.results == now.clients[c].results + [Result(key, r)]
  {
    LostRaceFindsWinner(w, steps, scale);
    var now := Run(w, steps, scale);
    assert Settled(now.db, now.clients[c]);
    FindFinds(now.db.rounds, now.clients[c].pc.call.key);
    var r := Find(now.db.rounds, now.clients[c].pc.call.key).value;
    assert r in now.db.rounds;
  }
}
