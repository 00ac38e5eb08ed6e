/** The sequential model of a game round call is a run of the concurrent protocol with one client,
    so what holds of every run holds of it. */
module RoundExecution {
  import opened Ledger
  import opened GameRounds
  import opened RoundProtocol
  import opened RoundConservation

  /** A database and one client with nothing pending. */
  function Alone(db: Db): World {
    World(db, [Cleared(Idle)], {})
  }

  function One(db: Db, cl: Client): World {
    World(db, [cl], {})
  }

  /** The steps lead from one state to the other, without loading an account before its lock. */
  ghost predicate Leads(w0: World, steps: seq<Step>, w: World, scale: int) {
    NoLoads(steps) && Run(w0, steps, scale) == w
  }

  lemma Then(w0: World, steps: seq<Step>, w: World, s: Step, scale: int) returns (longer: seq<Step>)
    requires Leads(w0, steps, w, scale) && !s.Load?
    ensures Leads(w0, longer, Next(w, s, scale), scale)
  {
    longer := steps + [s];
    assert longer[..|steps|] == steps;
  }

  lemma NobodyElse(w: World, key: Key, user: nat)
    requires |w.clients| == 1
    ensures !KeyBlocked(w, 0, key) && !AccountLocked(w, 0, user)
  {
  }

  // ----- the steps of a single client -----

  lemma ReadAlone(db: Db, call: Call, scale: int)
    ensures Next(Next(Alone(db), Begin(0, call), scale), Read(0), scale)
      == One(db, ReadStep(db, Cleared(Reading(call)), call))
  {
    assert Next(Alone(db), Begin(0, call), scale) == One(db, Cleared(Reading(call)));
  }

  lemma RaiseAlone(db: Db, cl: Client, scale: int)
    requires cl.pc.Inserting? || cl.pc.Inserted?
    ensures Next(One(db, cl), Raise(0), scale) == One(db, Cleared(Failing(cl.pc.call)))
  {
  }

  lemma InsertAlone(db: Db, call: Call, foreignKeys: bool, scale: int)
    ensures Next(One(db, Cleared(Inserting(call))), Insert(0, foreignKeys), scale)
         == One(db.(nextId := db.nextId + 1), InsertStep(db, Cleared(Inserting(call)), call, foreignKeys, scale))
  {
    NobodyElse(One(db, Cleared(Inserting(call))), call.key, call.key.user);
  }

  lemma AdjustAlone(db: Db, call: Call, row: Round, scale: int)
    ensures Next(One(db, Cleared(Inserted(call, row))), Step.Adjust(0), scale)
         == One(db, AdjustStep(db, Cleared(Inserted(call, row)), call, row))
  {
    NobodyElse(One(db, Cleared(Inserted(call, row))), call.key, call.key.user);
  }

  lemma FinishAlone(db: Db, cl: Client, now: int, scale: int)
    requires cl.pc.Adjusted?
    ensures Next(One(db, cl), Finish(0, now), scale) == One(db, FinishStep(cl, cl.pc.call, cl.pc.row, now))
  {
  }

  lemma GiveUpAlone(db: Db, call: Call, scale: int)
    ensures Next(One(db, Cleared(Polling(call))), GiveUp(0), scale) == Alone(db)
  {
  }

  lemma FailAlone(db: Db, call: Call, foreignKeys: bool, fault: bool, scale: int)
    ensures Next(One(db, Cleared(Failing(call))), Step.RecordFailed(0, foreignKeys, fault), scale)
         == Alone(GameRounds.RecordFailed(db, call, foreignKeys, fault, scale))
  {
    NobodyElse(One(db, Cleared(Failing(call))), call.key, call.key.user);
  }

  lemma CommitAlone(db: Db, cl: Client, scale: int)
    requires cl.pc.Idle?
    ensures Next(One(db, cl), Commit(0), scale)
         == World(Merged(db, cl), [Cleared(Idle)], set p | p in cl.results)
  {
  }

  // ----- the sequential call as a run of one client -----

  /** The state a call leaves when the only client runs it to its end. */
  function Executed(db: Db, call: Call, env: Env, scale: int): World {
    var (db', exec) := Execute(db, call, env, scale);
    World(db', [Cleared(Idle)], if exec.Played? then {Result(call.key, exec.round)} else {})
  }

  /** The sequential model of a call is a run of the protocol with one client. */
  lemma ExecuteIsARun(db: Db, call: Call, env: Env, scale: int) returns (steps: seq<Step>)
    ensures NoLoads(steps) && Run(Alone(db), steps, scale) == Executed(db, call, env, scale)
  {
    assert Leads(Alone(db), [], Alone(db), scale);
    steps := Then(Alone(db), [], Alone(db), Begin(0, call), scale);
    steps := Then(Alone(db), steps, Next(Alone(db), Begin(0, call), scale), Read(0), scale);
    ReadAlone(db, call, scale);
    steps := AfterRead(db, steps, call, env, scale);
  }

  lemma AfterRead(db: Db, steps0: seq<Step>, call: Call, env: Env, scale: int) returns (steps: seq<Step>)
    requires Leads(Alone(db), steps0, One(db, ReadStep(db, Cleared(Reading(call)), call)), scale)
    ensures Leads(Alone(db), steps, Executed(db, call, env, scale), scale)
  {
    assert db.rounds + [] == db.rounds;
    var cl := ReadStep(db, Cleared(Reading(call)), call);
    if cl.pc.Idle? {
      steps := Then(Alone(db), steps0, One(db, cl), Commit(0), scale);
      CommitAlone(db, cl, scale);
      ReadIsExecute(db, call, env, scale);
    } else {
      steps := AfterInserting(db, steps0, call, env, scale);
    }
  }

  lemma ReadIsExecute(db: Db, call: Call, env: Env, scale: int)
    requires ReadStep(db, Cleared(Reading(call)), call).pc.Idle?
    ensures var cl := ReadStep(db, Cleared(Reading(call)), call);
      World(Merged(db, cl), [Cleared(Idle)], set p | p in cl.results) == Executed(db, call, env, scale)
  {
    assert db.rounds + [] == db.rounds && db.ledger + [] == db.ledger && db.accounts + map[] == db.accounts;
  }

  lemma AfterInserting(db: Db, steps0: seq<Step>, call: Call, env: Env, scale: int) returns (steps: seq<Step>)
    requires Find(db.rounds, call.key).None? && 0 < call.bet <= MAX_BET_AMOUNT
    requires Leads(Alone(db), steps0, One(db, Cleared(Inserting(call))), scale)
    ensures Leads(Alone(db), steps, Executed(db, call, env, scale), scale)
  {
    var w := One(db, Cleared(Inserting(call)));
    if env.fault.OnInsert? {
      RaiseAlone(db, Cleared(Inserting(call)), scale);
      steps := Then(Alone(db), steps0, w, Raise(0), scale);
      steps := AfterFailing(db, steps, db, call, env, scale);
    } else {
      assert db.rounds + [] == db.rounds;
      InsertAlone(db, call, env.foreignKeys, scale);
      steps := Then(Alone(db), steps0, w, Insert(0, env.foreignKeys), scale);
      steps := AfterInsert(db, steps, call, env, scale);
    }
  }

  /** A failing call ends by recording its failure, in the database as it is then. */
  lemma AfterFailing(db0: Db, steps0: seq<Step>, db: Db, call: Call, env: Env, scale: int) returns (steps: seq<Step>)
    requires Leads(Alone(db0), steps0, One(db, Cleared(Failing(call))), scale)
    ensures Leads(Alone(db0), steps,
      Alone(GameRounds.RecordFailed(db, call, env.foreignKeys, env.recordFault, scale)), scale)
  {
    FailAlone(db, call, env.foreignKeys, env.recordFault, scale);
    steps := Then(Alone(db0), steps0, One(db, Cleared(Failing(call))),
                  Step.RecordFailed(0, env.foreignKeys, env.recordFault), scale);
  }

  lemma AfterInsert(db: Db, steps0: seq<Step>, call: Call, env: Env, scale: int) returns (steps: seq<Step>)
    requires Find(db.rounds, call.key).None? && 0 < call.bet <= MAX_BET_AMOUNT && !env.fault.OnInsert?
    requires var tried := db.(nextId := db.nextId + 1);
      var cl := if env.foreignKeys && call.key.user !in db.users then Cleared(Polling(call))
                else Cleared(Inserted(call, FlushedRow(db, call, scale)));
      Leads(Alone(db), steps0, One(tried, cl), scale)
    ensures Leads(Alone(db), steps, Executed(db, call, env, scale), scale)
  {
    var tried := db.(nextId := db.nextId + 1);
    var cl := Cleared(Inserted(call, FlushedRow(db, call, scale)));
    if env.foreignKeys && call.key.user !in db.users {
      GiveUpAlone(tried, call, scale);
      steps := Then(Alone(db), steps0, One(tried, Cleared(Polling(call))), GiveUp(0), scale);
    } else if env.fault != NoFault {
      RaiseAlone(tried, cl, scale);
      steps := Then(Alone(db), steps0, One(tried, cl), Raise(0), scale);
      steps := AfterFailing(db, steps, tried, call, env, scale);
    } else {
      AdjustAlone(tried, call, FlushedRow(db, call, scale), scale);
      steps := Then(Alone(db), steps0, One(tried, cl), Step.Adjust(0), scale);
      if call.key.user !in db.users {
        steps := AfterFailing(db, steps, tried, call, env, scale);
      } else {
        steps := AfterAdjust(db, steps, call, env, scale);
      }
    }
  }

  /** Set the status of a committed row, and commit. */
  lemma AfterAdjust(db: Db, steps0: seq<Step>, call: Call, env: Env, scale: int) returns (steps: seq<Step>)
    requires Find(db.rounds, call.key).None? && 0 < call.bet <= MAX_BET_AMOUNT && env.fault.NoFault?
    requires call.key.user in db.users
    requires var tried := db.(nextId := db.nextId + 1);
      var row := FlushedRow(db, call, scale);
      Leads(Alone(db), steps0, One(tried, AdjustStep(tried, Cleared(Inserted(call, row)), call, row)), scale)
    ensures Leads(Alone(db), steps, Executed(db, call, env, scale), scale)
  {
    var tried := db.(nextId := db.nextId + 1);
    var row := FlushedRow(db, call, scale);
    var cl := AdjustStep(tried, Cleared(Inserted(call, row)), call, row);
    steps := steps0;
    if cl.pc.Adjusted? {
      FinishAlone(tried, cl, env.now, scale);
      steps := Then(Alone(db), steps, One(tried, cl), Finish(0, env.now), scale);
      cl := FinishStep(cl, call, row, env.now);
    }
    CommitAlone(tried, cl, scale);
    steps := Then(Alone(db), steps, One(tried, cl), Commit(0), scale);
    MergedIsExecute(db, call, env, cl, scale);
  }

  /** Locking and writing one account of an otherwise empty transaction, as the database sees it. */
  lemma MergedAccounts(db: Db, cl: Client, e: Entry)
    requires cl.loaded == map[] && cl.accounts == map[]
    ensures var holder := LockStep(db, cl, e.user);
      && Seen(holder, e.user) == Balance(db.accounts, e.user)
      && db.accounts + holder.accounts == db.accounts[e.user := Balance(db.accounts, e.user)]
      && db.accounts + Booked(holder, e).accounts == db.accounts[e.user := Balance(db.accounts, e.user) + e.delta]
  {
  }

  lemma MergedIsExecute(db: Db, call: Call, env: Env, cl: Client, scale: int)
    requires Find(db.rounds, call.key).None? && 0 < call.bet <= MAX_BET_AMOUNT && env.fault.NoFault?
    requires call.key.user in db.users
    requires var tried := db.(nextId := db.nextId + 1);
      var row := FlushedRow(db, call, scale);
      var cl' := AdjustStep(tried, Cleared(Inserted(call, row)), call, row);
      cl == if cl'.pc.Adjusted? then FinishStep(cl', call, row, env.now) else cl'
    ensures var (db', exec) := Execute(db, call, env, scale);
      && Merged(db.(nextId := db.nextId + 1), cl) == db' && exec.Played?
      && cl.results == [Result(call.key, exec.round)]
  {
    var row := FlushedRow(db, call, scale);
    var tried := db.(nextId := db.nextId + 1);
    MergedAccounts(tried, Cleared(Inserted(call, row)), Booking(row));
    assert db.ledger + [] == db.ledger;
  }

  /** An admin's adjustment, alone and committed, is the sequential adjustment. */
  lemma AdminIsAdjust(db: Db, user: nat, delta: int, text: string, scale: int)
    ensures Run(Alone(db), [AdminAdjust(0, user, delta, text), Commit(0)], scale)
         == Alone(GameRounds.Adjust(db, user, delta, Other(text), false, false).0)
  {
    var s, t := AdminAdjust(0, user, delta, text), Commit(0);
    NobodyElse(Alone(db), Key(user, "", ""), user);
    assert [s, t][..1] == [s] && [s][..0] == [];
    assert Run(Alone(db), [], scale) == Alone(db);
    assert Run(Alone(db), [s], scale) == Next(Alone(db), s, scale);
    var cl := AdminStep(db, Cleared(Idle), user, delta, text);
    assert Next(Alone(db), s, scale) == One(db, cl);
    CommitAlone(db, cl, scale);
    AdminMerged(db, user, delta, text);
  }

  lemma AdminMerged(db: Db, user: nat, delta: int, text: string)
    ensures var cl := AdminStep(db, Cleared(Idle), user, delta, text);
      cl.results == [] && Merged(db, cl) == GameRounds.Adjust(db, user, delta, Other(text), false, false).0
  {
    MergedAccounts(db, Cleared(Idle), Entry(user, delta, Other(text)));
    assert db.ledger + [] == db.ledger && db.rounds + [] == db.rounds && db.accounts + map[] == db.accounts;
  }

  /** So every sequential call keeps the ledger and the rounds consistent, whatever fault it meets. */
  lemma ExecuteConsistent(db: Db, call: Call, env: Env, scale: int)
    requires Consistent(db)
    ensures Consistent(Execute(db, call, env, scale).0)
  {
    var steps := ExecuteIsARun(db, call, env, scale);
    ClearedOk(db, Idle);
    ConsistentIsOrderly(db);
    NoLoadsNoStaleLocks(Alone(db), steps, scale);
    RunConserved(Alone(db), steps, scale);
  }

  lemma ConsistentIsOrderly(db: Db)
    requires Consistent(db)
    ensures Orderly(db)
  {
    forall u
      ensures Balance(db.accounts, u) >= 0
    {
      assert Balance(db.accounts, u) == Sum(db.ledger, u);
    }
  }
}
