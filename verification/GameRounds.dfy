/** src/casino_bot/services/economy_service.py and game_round_service.py as one client sees them:
    the database changed in place by one call at a time. */
module GameRounds {
  import opened Common
  import opened Ledger
  import opened Compliance

  const MAX_BET_AMOUNT := 10_000

  /** One `execute_game_round` call: `payout` is payout_delta_units, None for the stake debit. */
  datatype Call = Call(key: Key, bet: int, payout: Option<int>, outcome: string)

  /** Where, if anywhere, an exception other than an integrity error strikes the transaction. */
  datatype Fault = NoFault | OnInsert | AfterInsert | AfterAdjust

  /** What the call meets: the clock, faults, and whether the database enforces foreign keys. */
  datatype Env = Env(now: int, fault: Fault, recordFault: bool, foreignKeys: bool)

  datatype Exec = Played(round: Round) | BadBet | IntegrityFailure | Raised

  datatype Adjustment = Applied(balance: int) | NoSuchUser | Violation

  function Find(rounds: seq<Round>, key: Key): Option<Round> {
    if rounds == [] then None
    else if rounds[0].key == key then Some(rounds[0])
    else Find(rounds[1..], key)
  }

  function Attempted(call: Call, scale: int): int {
    if call.payout.Some? then call.payout.value else -(call.bet * scale)
  }

  function Booking(r: Round): Entry {
    Entry(r.key.user, r.payoutUnits, GameRound(r.key.game, r.id))
  }

  predicate DeltaAllowed(balance: int, delta: int) {
    Allowed(OperationFor(delta), Context(balance, delta, false, false))
  }

  /** A ledger adjustment: the account exists afterwards, and changes only if every check passes. */
  function Adjust(db: Db, user: nat, delta: int, reason: Reason, pendingTransfer: bool,
      pendingCashOut: bool): (Db, Adjustment) {
    var balance := Balance(db.accounts, user);
    if user !in db.users then (db, NoSuchUser)
    else if !Allowed(OperationFor(delta), Context(balance, delta, pendingTransfer, pendingCashOut))
    then (db.(accounts := db.accounts[user := balance]), Violation)
    else (db.(accounts := db.accounts[user := balance + delta], ledger := db.ledger + [Entry(user, delta, reason)]),
          Applied(balance + delta))
  }

  /** The new row as first flushed. */
  function FlushedRow(db: Db, call: Call, scale: int): Round {
    Round(db.nextId, call.key, call.bet * scale, Attempted(call, scale), Failed, None, call.outcome)
  }

  /** The failed row, in a transaction of its own; nothing if it cannot be written. */
  function RecordFailed(db: Db, call: Call, foreignKeys: bool, fault: bool, scale: int): Db {
    if fault || Find(db.rounds, call.key).Some? || (foreignKeys && call.key.user !in db.users) then db
    else db.(rounds := db.rounds + [FlushedRow(db, call, scale).(payoutUnits := 0)], nextId := db.nextId + 1)
  }

  /** What one call does to the committed database when no other client interferes and its
      transaction is committed (or, after an exception, rolled back). */
  function Execute(db: Db, call: Call, env: Env, scale: int): (Db, Exec) {
    var found := Find(db.rounds, call.key);
    var row := FlushedRow(db, call, scale);
    var tried := db.(nextId := db.nextId + 1);
    if found.Some? then (db, Played(found.value))
    else if call.bet <= 0 || call.bet > MAX_BET_AMOUNT then (db, BadBet)
    else if env.fault.OnInsert? then (RecordFailed(db, call, env.foreignKeys, env.recordFault, scale), Raised)
    else if env.foreignKeys && call.key.user !in db.users then (tried, IntegrityFailure)
    else if env.fault != NoFault || call.key.user !in db.users
    then (RecordFailed(tried, call, env.foreignKeys, env.recordFault, scale), Raised)
    else
      var (after, adjustment) := Adjust(tried, call.key.user, row.payoutUnits,
        GameRound(call.key.game, row.id), false, false);
      var final := if adjustment.Applied? then row.(status := Committed, committedAt := Some(env.now))
                   else row.(status := Rejected, payoutUnits := 0);
      (after.(rounds := db.rounds + [final]), Played(final))
  }

  /** The database, changed in place. Rollback restores the fields saved before the transaction. */
  class Store {
    var users: set<nat>
    var accounts: map<nat, int>
    var ledger: seq<Entry>
    var rounds: seq<Round>
    var nextId: nat
    const scale: int

    constructor (scale: int)
      ensures State() == Db({}, map[], [], [], 0) && this.scale == scale
    {
      users, accounts, ledger, rounds, nextId := {}, map[], [], [], 0;
      this.scale := scale;
    }

    function State(): Db
      reads this
    {
      Db(users, accounts, ledger, rounds, nextId)
    }

    /** `user` is the id the database assigns. */
    method CreateUser(user: nat)
      requires user !in users && user !in accounts
      modifies this
      ensures State() == old(State()).(users := old(users) + {user}, accounts := old(accounts)[user := 0])
    {
      users := users + {user};
      accounts := accounts[user := 0];
    }

    method AdjustUserTokens(user: nat, delta: int, reason: Reason, pendingTransfer: bool, pendingCashOut: bool)
      returns (r: Adjustment)
      modifies this
      ensures (State(), r) == Adjust(old(State()), user, delta, reason, pendingTransfer, pendingCashOut)
    {
      if user !in users {
        return NoSuchUser;
      }
      if user !in accounts {
        accounts := accounts[user := 0];
      }
      var operation := if delta >= 0 then TokenCredit else TokenDebit;
      var ok, _ := ValidateOperation(operation, Context(accounts[user], delta, pendingTransfer, pendingCashOut));
      if !ok {
        assert accounts == old(accounts)[user := Balance(old(accounts), user)];
        return Violation;
      }
      accounts := accounts[user := accounts[user] + delta];
      ledger := ledger + [Entry(user, delta, reason)];
      assert accounts == old(accounts)[user := Balance(old(accounts), user) + delta];
      return Applied(accounts[user]);
    }

    method FindRound(key: Key) returns (found: Option<Round>)
      ensures found == Find(rounds, key)
    {
      for i := 0 to |rounds|
        invariant Find(rounds, key) == Find(rounds[i..], key)
      {
        if rounds[i].key == key {
          return Some(rounds[i]);
        }
      }
      return None;
    }

    method ExecuteGameRound(call: Call, env: Env) returns (r: Exec)
      modifies this
      ensures (State(), r) == Execute(old(State()), call, env, scale)
    {
      var existing := FindRound(call.key);
      if existing.Some? {
        return Played(existing.value);
      }
      if call.bet <= 0 || call.bet > MAX_BET_AMOUNT {
        return BadBet;
      }
      var betUnits := call.bet * scale;
      var attempted := if call.payout.Some? then call.payout.value else -betUnits;
      var saved := State();
      if env.fault == OnInsert {
        RecordFailure(call, betUnits, env);
        return Raised;
      }
      var row := Round(nextId, call.key, betUnits, attempted, Failed, None, call.outcome);
      nextId := nextId + 1;
      if env.foreignKeys && call.key.user !in users {
        // The integrity handler rolls back, polls for a row of this key and finds none.
        return IntegrityFailure;
      }
      rounds := rounds + [row];
      if env.fault == AfterInsert {
        Rollback(saved);
        RecordFailure(call, betUnits, env);
        return Raised;
      }
      var adjustment := AdjustUserTokens(call.key.user, attempted, GameRound(call.key.game, row.id), false, false);
      if adjustment == NoSuchUser || env.fault == AfterAdjust {
        Rollback(saved);
        RecordFailure(call, betUnits, env);
        return Raised;
      }
      if adjustment == Violation {
        row := row.(status := Rejected, payoutUnits := 0);
      } else {
        row := row.(status := Committed, committedAt := Some(env.now));
      }
      rounds := rounds[|rounds| - 1 := row];
      assert rounds == old(rounds) + [row];
      return Played(row);
    }

    /** Undo everything the transaction wrote; ids already drawn are not reused. */
    method Rollback(saved: Db)
      modifies this
      ensures State() == saved.(nextId := old(nextId))
    {
      users, accounts, ledger, rounds := saved.users, saved.accounts, saved.ledger, saved.rounds;
    }

    method RecordFailure(call: Call, betUnits: int, env: Env)
      requires betUnits == call.bet * scale
      modifies this
      ensures State() == RecordFailed(old(State()), call, env.foreignKeys, env.recordFault, scale)
    {
      var existing := FindRound(call.key);
      if env.recordFault || existing.Some? || (env.foreignKeys && call.key.user !in users) {
        return;
      }
      rounds := rounds + [Round(nextId, call.key, betUnits, 0, Failed, None, call.outcome)];
      nextId := nextId + 1;
    }
  }
}
