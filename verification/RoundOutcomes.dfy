/** What one adjustment and one game round call do to the database, in terms of its contents. */
module RoundOutcomes {
  import opened Common
  import opened Ledger
  import opened Compliance
  import opened GameRounds
  import Protocol = RoundProtocol

  /** An adjustment of a known user's tokens goes through exactly when a debit is covered and no
      request is pending against a change. It then moves the balance by the delta, reports the new
      balance and writes one entry; otherwise it at most creates the missing account. */
  lemma AdjustmentMeans(db: Db, user: nat, delta: int, reason: Reason, pendingTransfer: bool, pendingCashOut: bool)
    ensures var (db', answer) := Adjust(db, user, delta, reason, pendingTransfer, pendingCashOut);
            var balance := if user in db.accounts then db.accounts[user] else 0;
            var ok := (delta >= 0 || balance + delta >= 0) && (delta == 0 || !(pendingTransfer || pendingCashOut));
      && (user !in db.users ==> db' == db && answer == NoSuchUser)
      && (user in db.users ==>
            && answer == (if ok then Applied(balance + delta) else Violation)
            && db'.ledger == db.ledger + (if ok then [Entry(user, delta, reason)] else [])
            && db'.accounts.Keys == db.accounts.Keys + {user}
            && db'.accounts[user] == (if ok then balance + delta else balance)
            && (forall u :: u in db.accounts && u != user ==> db'.accounts[u] == db.accounts[u])
            && db'.users == db.users && db'.rounds == db.rounds && db'.nextId == db.nextId)
  {
    AdjustmentAllowedIff(Context(Balance(db.accounts, user), delta, pendingTransfer, pendingCashOut));
    assert db.ledger + [] == db.ledger;
  }

  /** Where the call's key is free and its bet allowed, and nothing goes wrong: the round it leaves. */
  function Finished(db: Db, call: Call, now: int, scale: int): Round {
    var delta := if call.payout.Some? then call.payout.value else 0 - call.bet * scale;
    var balance := if call.key.user in db.accounts then db.accounts[call.key.user] else 0;
    if delta >= 0 || balance + delta >= 0
    then Round(db.nextId, call.key, call.bet * scale, delta, Committed, Some(now), call.outcome)
    else Round(db.nextId, call.key, call.bet * scale, 0, Rejected, None, call.outcome)
  }

  function BookingsOf(r: Round): seq<Entry> {
    if r.status == Committed then [Entry(r.key.user, r.payoutUnits, GameRound(r.key.game, r.id))] else []
  }

  ghost predicate Repeated(db: Db, call: Call) {
    exists r :: r in db.rounds && r.key == call.key
  }

  lemma FindIffRepeated(db: Db, call: Call)
    ensures Find(db.rounds, call.key).Some? <==> Repeated(db, call)
    ensures Repeated(db, call) ==>
      Find(db.rounds, call.key).value in db.rounds && Find(db.rounds, call.key).value.key == call.key
  {
    Protocol.FindFinds(db.rounds, call.key);
  }

  /** A repeated key gets a row it already has; a bet outside 1 to 10000 tokens is refused. Neither
      changes anything. */
  lemma RoundIsRefused(db: Db, call: Call, env: Env, scale: int)
    ensures var (db', exec) := Execute(db, call, env, scale);
      && (Repeated(db, call) ==> db' == db && exec.Played? && exec.round in db.rounds && exec.round.key == call.key)
      && (exec == BadBet <==> !Repeated(db, call) && !(1 <= call.bet <= 10_000))
      && (exec == BadBet ==> db' == db)
  {
    FindIffRepeated(db, call);
  }

  /** A new round of a known user without faults is committed with the payout, or the debit of its
      stake, when the balance covers it, and rejected otherwise. Exactly a committed one moves the
      user's balance and has a ledger entry. */
  lemma RoundMeans(db: Db, call: Call, env: Env, scale: int)
    requires !Repeated(db, call) && 1 <= call.bet <= 10_000 && env.fault == NoFault && call.key.user in db.users
    ensures var (db', exec) := Execute(db, call, env, scale);
            var r := Finished(db, call, env.now, scale);
      && exec == Played(r) && db'.rounds == db.rounds + [r] && db'.nextId == db.nextId + 1
      && db'.ledger == db.ledger + BookingsOf(r)
      && db'.users == db.users && db'.accounts.Keys == db.accounts.Keys + {call.key.user}
      && (forall u :: u in db'.accounts ==>
            db'.accounts[u] == (if u in db.accounts then db.accounts[u] else 0)
                               + if u == call.key.user then r.payoutUnits else 0)
  {
    FindIffRepeated(db, call);
    var tried := db.(nextId := db.nextId + 1);
    AdjustmentMeans(tried, call.key.user, Attempted(call, scale), GameRound(call.key.game, db.nextId), false, false);
  }

  /** A new round that meets a fault or an unknown user moves no balance and books nothing. It
      leaves a failed row that pays nothing, unless that cannot be written or the database itself
      refused the unknown user. */
  lemma RoundFails(db: Db, call: Call, env: Env, scale: int)
    requires !Repeated(db, call) && 1 <= call.bet <= 10_000
    requires env.fault != NoFault || call.key.user !in db.users
    ensures var (db', exec) := Execute(db, call, env, scale);
            var foreign := env.foreignKeys && call.key.user !in db.users;
      && exec == (if foreign && env.fault != OnInsert then IntegrityFailure else Raised)
      && db'.users == db.users && db'.accounts == db.accounts && db'.ledger == db.ledger && db'.nextId >= db.nextId
      && (if foreign || env.recordFault then db'.rounds == db.rounds
          else |db'.rounds| == |db.rounds| + 1 && db'.rounds[..|db.rounds|] == db.rounds &&
               var r := db'.rounds[|db.rounds|];
               r == Round(r.id, call.key, call.bet * scale, 0, Failed, None, call.outcome) && db.nextId <= r.id)
  {
    FindIffRepeated(db, call);
  }
}
