/** src/casino_bot/services/game_round_service.py and economy_service.py: when the concurrent
    protocol keeps every balance equal to the sum of its user's ledger entries. */
module RoundConservation {
  import opened Common
  import opened Compliance
  import opened Ledger
  import opened GameRounds
  import opened RoundProtocol

  /** The transaction writes a balance computed from a loaded one that is not the committed one. */
  predicate WritesStale(db: Db, cl: Client) {
    exists u :: u in cl.accounts && u in cl.loaded && cl.loaded[u] != Balance(db.accounts, u)
  }

  /** Committing keeps every balance equal to its ledger sum unless it writes a stale balance. */
  lemma CommitBalancedIff(db: Db, cl: Client)
    requires AccountsAgree(cl) && Balanced(db.accounts, db.ledger)
    ensures Balanced(Merged(db, cl).accounts, Merged(db, cl).ledger) <==> !WritesStale(db, cl)
  {
    var after := Merged(db, cl);
    forall u
      ensures Sum(after.ledger, u) == Sum(db.ledger, u) + Sum(cl.ledger, u)
      ensures Balance(db.accounts, u) == Sum(db.ledger, u) >= 0
      ensures u in cl.accounts ==> Balance(after.accounts, u) == cl.loaded[u] + Sum(cl.ledger, u) >= 0
      ensures u !in cl.accounts ==> Balance(after.accounts, u) == Balance(db.accounts, u)
    {
      SumSplit(db.ledger, cl.ledger, u);
    }
    if u :| u in cl.accounts && u in cl.loaded && cl.loaded[u] != Balance(db.accounts, u) {
      assert Balance(after.accounts, u) != Sum(after.ledger, u);
    }
  }

  predicate Lossy(w: World, s: Step) {
    s.Commit? && Enabled(w, s) && WritesStale(w.db, w.clients[s.c])
  }

  lemma StepBalancedIff(w: World, s: Step, scale: int)
    requires Inv(w) && Balanced(w.db.accounts, w.db.ledger)
    ensures Balanced(Next(w, s, scale).db.accounts, Next(w, s, scale).db.ledger) <==> !Lossy(w, s)
  {
    if Enabled(w, s) && s.Commit? {
      CommitBalancedIff(w.db, w.clients[s.c]);
    } else {
      OnlyCommitsChange(w, s, scale);
    }
  }

  lemma SameBalances(w: World, s: Step, scale: int)
    requires !s.Commit?
    ensures forall u :: Balance(Next(w, s, scale).db.accounts, u) == Balance(w.db.accounts, u)
    ensures Next(w, s, scale).db.ledger == w.db.ledger
  {
  }

  lemma OnlyCommitsChange(w: World, s: Step, scale: int)
    requires Balanced(w.db.accounts, w.db.ledger) && !(Enabled(w, s) && s.Commit?)
    ensures Balanced(Next(w, s, scale).db.accounts, Next(w, s, scale).db.ledger)
  {
    if !s.Commit? {
      SameBalances(w, s, scale);
      forall u
        ensures Balance(Next(w, s, scale).db.accounts, u) == Sum(Next(w, s, scale).db.ledger, u) >= 0
      {
        assert Balance(w.db.accounts, u) == Sum(w.db.ledger, u) >= 0;
      }
    }
  }

  lemma ConsistentIff(db: Db)
    requires Orderly(db)
    ensures Consistent(db) <==> Balanced(db.accounts, db.ledger)
  {
  }

  lemma PrefixStep(w: World, steps: seq<Step>, k: nat, scale: int)
    requires k < |steps|
    ensures Run(w, steps[..k + 1], scale) == Next(Run(w, steps[..k], scale), steps[k], scale)
  {
    assert steps[..k + 1][..k] == steps[..k];
  }

  lemma {:induction false} ConservedUpTo(w: World, steps: seq<Step>, k: nat, scale: int)
    requires Inv(w) && Balanced(w.db.accounts, w.db.ledger) && k <= |steps|
    requires forall j: nat :: j < k ==> !Lossy(Run(w, steps[..j], scale), steps[j])
    ensures Consistent(Run(w, steps[..k], scale).db)
  {
    RunInv(w, steps[..k], scale);
    ConsistentIff(Run(w, steps[..k], scale).db);
    if k > 0 {
      ConservedUpTo(w, steps, k - 1, scale);
      RunInv(w, steps[..k - 1], scale);
      PrefixStep(w, steps, k - 1, scale);
      StepBalancedIff(Run(w, steps[..k - 1], scale), steps[k - 1], scale);
    } else {
      assert Run(w, steps[..0], scale) == w;
    }
  }

  /** Conservation, exactly. A run of any number of clients keeps every committed balance equal to
      the sum of its user's ledger entries (not negative, with rounds and entries in one-to-one
      correspondence) in all its states if and only if no step of it commits a transaction that
      wrote a balance computed from a stale load. */
  lemma ConservedIff(n: nat, steps: seq<Step>, scale: int)
    ensures (forall k: nat :: k <= |steps| ==> Consistent(Run(Initial(n), steps[..k], scale).db))
       <==> (forall k: nat :: k < |steps| ==> !Lossy(Run(Initial(n), steps[..k], scale), steps[k]))
  {
    var w := Initial(n);
    InitialInv(n);
    if forall k: nat :: k <= |steps| ==> Consistent(Run(w, steps[..k], scale).db) {
      forall k: nat | k < |steps|
        ensures !Lossy(Run(w, steps[..k], scale), steps[k])
      {
        assert Consistent(Run(w, steps[..k], scale).db) && Consistent(Run(w, steps[..k + 1], scale).db);
        RunInv(w, steps[..k], scale);
        PrefixStep(w, steps, k, scale);
        StepBalancedIff(Run(w, steps[..k], scale), steps[k], scale);
      }
    }
    if forall k: nat :: k < |steps| ==> !Lossy(Run(w, steps[..k], scale), steps[k]) {
      forall k: nat | k <= |steps|
        ensures Consistent(Run(w, steps[..k], scale).db)
      {
        ConservedUpTo(w, steps, k, scale);
      }
    }
  }

  // ----- what a caller can see when it takes the lock -----

  /** The step locks an account whose loaded balance is out of date. */
  predicate StaleLock(w: World, s: Step) {
    && Enabled(w, s)
    && match s
       case Adjust(c) => OutOfDate(w.db, w.clients[c], w.clients[c].pc.call.key.user)
       case AdminAdjust(c, user, _, _) => OutOfDate(w.db, w.clients[c], user)
       case _ => false
  }

  predicate OutOfDate(db: Db, cl: Client, user: nat) {
    user in cl.loaded && user !in cl.locked && cl.loaded[user] != Balance(db.accounts, user)
  }

  /** Every locked account was loaded as it is committed. */
  ghost predicate LocksFresh(db: Db, cl: Client) {
    forall u :: u in cl.locked ==> u in cl.loaded && cl.loaded[u] == Balance(db.accounts, u)
  }

  ghost predicate Fresh(w: World) {
    forall i :: 0 <= i < |w.clients| ==> LocksFresh(w.db, w.clients[i])
  }

  lemma LockFresh(db: Db, cl: Client, user: nat)
    requires LocksFresh(db, cl) && AccountsAgree(cl) && !OutOfDate(db, cl, user)
    ensures LocksFresh(db, LockStep(db, cl, user))
  {
  }

  lemma ActorFresh(w: World, s: Step, scale: int)
    requires Enabled(w, s) && !s.CreateUser? && !s.Commit? && !StaleLock(w, s)
    requires LocksFresh(w.db, w.clients[s.c]) && AccountsAgree(w.clients[s.c])
    ensures LocksFresh(w.db, Next(w, s, scale).clients[s.c])
  {
    match s
    case Adjust(c) => LockFresh(w.db, w.clients[c], w.clients[c].pc.call.key.user);
    case AdminAdjust(c, user, _, _) => LockFresh(w.db, w.clients[c], user);
    case _ =>
  }

  lemma CommitFresh(db: Db, cl: Client, other: Client)
    requires AccountsAgree(cl) && Apart(cl, other) && LocksFresh(db, other)
    ensures LocksFresh(Merged(db, cl), other)
  {
  }

  lemma CommitKeepsFresh(w: World, c: nat, scale: int)
    requires Inv(w) && Fresh(w) && Enabled(w, Commit(c))
    ensures Fresh(Next(w, Commit(c), scale)) && !Lossy(w, Commit(c))
  {
    var w' := Next(w, Commit(c), scale);
    forall i | 0 <= i < |w'.clients|
      ensures LocksFresh(w'.db, w'.clients[i])
    {
      if i != c {
        ApartOthers(w, c, i);
        CommitFresh(w.db, w.clients[c], w.clients[i]);
      }
    }
    assert LocksFresh(w.db, w.clients[c]);
  }

  lemma OtherStepKeepsFresh(w: World, s: Step, scale: int)
    requires Inv(w) && Fresh(w) && !StaleLock(w, s) && Enabled(w, s) && !s.Commit?
    ensures Fresh(Next(w, s, scale))
  {
    var w' := Next(w, s, scale);
    SameBalances(w, s, scale);
    forall i | 0 <= i < |w'.clients|
      ensures LocksFresh(w'.db, w'.clients[i])
    {
      assert LocksFresh(w.db, w.clients[i]);
      if !s.CreateUser? && i == s.c {
        ActorFresh(w, s, scale);
        SameBalancesFresh(w.db, w'.db, w'.clients[i]);
      } else {
        OnlyActorChanges(w, s, scale, i);
        SameBalancesFresh(w.db, w'.db, w.clients[i]);
      }
    }
  }

  lemma SameBalancesFresh(db: Db, db': Db, cl: Client)
    requires LocksFresh(db, cl) && forall u :: Balance(db'.accounts, u) == Balance(db.accounts, u)
    ensures LocksFresh(db', cl)
  {
  }

  lemma OnlyActorChanges(w: World, s: Step, scale: int, i: nat)
    requires i < |w.clients| && (s.CreateUser? || i != s.c)
    ensures |Next(w, s, scale).clients| == |w.clients| && Next(w, s, scale).clients[i] == w.clients[i]
  {
  }

  /** The lock keeps a fresh balance fresh until the transaction ends. */
  lemma StepFresh(w: World, s: Step, scale: int)
    requires Inv(w) && Fresh(w) && !StaleLock(w, s)
    ensures Fresh(Next(w, s, scale)) && !Lossy(w, s)
  {
    if Enabled(w, s) {
      if s.Commit? {
        CommitKeepsFresh(w, s.c, scale);
      } else {
        OtherStepKeepsFresh(w, s, scale);
      }
    }
  }

  lemma {:induction false} RunFresh(w: World, steps: seq<Step>, k: nat, scale: int)
    requires Inv(w) && Fresh(w) && k <= |steps|
    requires forall j: nat :: j < |steps| ==> !StaleLock(Run(w, steps[..j], scale), steps[j])
    ensures Fresh(Run(w, steps[..k], scale))
  {
    if k > 0 {
      RunFresh(w, steps, k - 1, scale);
      RunInv(w, steps[..k - 1], scale);
      PrefixStep(w, steps, k - 1, scale);
      StepFresh(Run(w, steps[..k - 1], scale), steps[k - 1], scale);
    } else {
      assert Run(w, steps[..0], scale) == w;
    }
  }

  lemma FreshNotLossy(w: World, steps: seq<Step>, k: nat, scale: int)
    requires Inv(w) && Fresh(w) && k < |steps|
    requires forall j: nat :: j < |steps| ==> !StaleLock(Run(w, steps[..j], scale), steps[j])
    ensures !Lossy(Run(w, steps[..k], scale), steps[k])
  {
    RunFresh(w, steps, k, scale);
    RunInv(w, steps[..k], scale);
    StepFresh(Run(w, steps[..k], scale), steps[k], scale);
  }

  lemma RunConserved(w: World, steps: seq<Step>, scale: int)
    requires Inv(w) && Fresh(w) && Balanced(w.db.accounts, w.db.ledger)
    requires forall k: nat :: k < |steps| ==> !StaleLock(Run(w, steps[..k], scale), steps[k])
    ensures Consistent(Run(w, steps, scale).db)
  {
    forall k: nat | k < |steps|
      ensures !Lossy(Run(w, steps[..k], scale), steps[k])
    {
      FreshNotLossy(w, steps, k, scale);
    }
    ConservedUpTo(w, steps, |steps|, scale);
    assert steps[..|steps|] == steps;
  }

  /** Conservation. If no adjustment locks an account that its session loaded before and that
      another transaction has changed since, every state of the run keeps each user's committed
      balance equal to the sum of that user's ledger entries and not negative, and rounds and
      entries in one-to-one correspondence. */
  lemma LedgerConserved(n: nat, steps: seq<Step>, scale: int)
    requires forall k: nat :: k < |steps| ==> !StaleLock(Run(Initial(n), steps[..k], scale), steps[k])
    ensures Consistent(Run(Initial(n), steps, scale).db)
  {
    InitialInv(n);
    RunConserved(Initial(n), steps, scale);
  }

  ghost predicate NoLoads(steps: seq<Step>) {
    forall s :: s in steps ==> !s.Load?
  }

  ghost predicate LoadsAreLocks(w: World) {
    forall i :: 0 <= i < |w.clients| ==> w.clients[i].loaded.Keys <= w.clients[i].locked
  }

  lemma {:induction false} NoLoadsNoStaleLocks(w: World, steps: seq<Step>, scale: int)
    requires LoadsAreLocks(w) && NoLoads(steps)
    ensures LoadsAreLocks(Run(w, steps, scale))
    ensures forall k: nat :: k < |steps| ==> !StaleLock(Run(w, steps[..k], scale), steps[k])
  {
    if steps != [] {
      var rest, s := steps[..|steps| - 1], steps[|steps| - 1];
      assert s in steps && forall r :: r in rest ==> r in steps;
      NoLoadsNoStaleLocks(w, rest, scale);
      LockOnlyLoads(Run(w, rest, scale), s, scale);
      forall k: nat | k < |steps|
        ensures !StaleLock(Run(w, steps[..k], scale), steps[k])
      {
        if k < |rest| {
          assert rest[..k] == steps[..k] && rest[k] == steps[k];
        } else {
          assert steps[..k] == rest;
        }
      }
    }
  }

  lemma ActorLoads(w: World, s: Step, scale: int)
    requires Enabled(w, s) && !s.CreateUser? && !s.Load? && w.clients[s.c].loaded.Keys <= w.clients[s.c].locked
    ensures Next(w, s, scale).clients[s.c].loaded.Keys <= Next(w, s, scale).clients[s.c].locked
  {
    match s
    case Adjust(c) => LocksWhatItLoads(w.db, w.clients[c], w.clients[c].pc.call.key.user);
    case AdminAdjust(c, user, _, _) => LocksWhatItLoads(w.db, w.clients[c], user);
    case _ =>
  }

  lemma LocksWhatItLoads(db: Db, cl: Client, user: nat)
    requires cl.loaded.Keys <= cl.locked
    ensures LockStep(db, cl, user).loaded.Keys <= LockStep(db, cl, user).locked
  {
  }

  lemma LockOnlyLoads(w: World, s: Step, scale: int)
    requires LoadsAreLocks(w) && !s.Load?
    ensures LoadsAreLocks(Next(w, s, scale)) && !StaleLock(w, s)
  {
    if Enabled(w, s) {
      var w' := Next(w, s, scale);
      forall i | 0 <= i < |w'.clients|
        ensures w'.clients[i].loaded.Keys <= w'.clients[i].locked
      {
        assert w.clients[i].loaded.Keys <= w.clients[i].locked;
        if !s.CreateUser? && i == s.c {
          ActorLoads(w, s, scale);
        } else {
          OnlyActorChanges(w, s, scale, i);
        }
      }
    }
  }

  /** So runs in which nobody loads an account before locking it always conserve. */
  lemma ConservedWithoutLoads(n: nat, steps: seq<Step>, scale: int)
    requires NoLoads(steps)
    ensures Consistent(Run(Initial(n), steps, scale).db)
  {
    NoLoadsNoStaleLocks(Initial(n), steps, scale);
    LedgerConserved(n, steps, scale);
  }

  // ----- a lost update -----

  lemma {:induction false} RunJoin(w: World, a: seq<Step>, b: seq<Step>, scale: int)
    ensures Run(w, a + b, scale) == Run(Run(w, a, scale), b, scale)
  {
    if b == [] {
      assert a + b == a;
    } else {
      assert (a + b)[..|a + b| - 1] == a + b[..|b| - 1];
      RunJoin(w, a, b[..|b| - 1], scale);
    }
  }

  lemma RunThree(w: World, a: Step, b: Step, c: Step, scale: int)
    ensures Run(w, [a, b, c], scale) == Next(Next(Next(w, a, scale), b, scale), c, scale)
  {
    assert [a, b, c][..2] == [a, b] && [a, b][..1] == [a] && [a][..0] == [];
    assert Run(w, [a], scale) == Next(w, a, scale);
    assert Run(w, [a, b], scale) == Next(Run(w, [a], scale), b, scale);
  }

  /** An idle client credits a user's account and commits. */
  lemma CreditCommitted(w: World, d: nat, user: nat, delta: int, text: string, scale: int)
    requires Inv(w) && Balanced(w.db.accounts, w.db.ledger)
    requires d < |w.clients| && w.clients[d] == Cleared(Idle) && !AccountLocked(w, d, user)
    requires user in w.db.users && user in w.db.accounts && w.db.accounts[user] >= 0 && delta > 0
    ensures var w' := Next(Next(w, AdminAdjust(d, user, delta, text), scale), Commit(d), scale);
      && w'.clients == w.clients && w'.db.users == w.db.users && w'.db.rounds == w.db.rounds
      && w'.db.accounts == w.db.accounts[user := w.db.accounts[user] + delta]
      && Inv(w') && Balanced(w'.db.accounts, w'.db.ledger)
  {
    CreditEffect(w, d, user, delta, text, scale);
    CreditKeeps(w, d, user, delta, text, scale);
  }

  lemma CreditKeeps(w: World, d: nat, user: nat, delta: int, text: string, scale: int)
    requires Inv(w) && Balanced(w.db.accounts, w.db.ledger)
    requires d < |w.clients| && w.clients[d] == Cleared(Idle) && !AccountLocked(w, d, user)
    requires user in w.db.users && user in w.db.accounts && w.db.accounts[user] >= 0 && delta > 0
    ensures var w' := Next(Next(w, AdminAdjust(d, user, delta, text), scale), Commit(d), scale);
      Inv(w') && Balanced(w'.db.accounts, w'.db.ledger)
  {
    var w1 := Next(w, AdminAdjust(d, user, delta, text), scale);
    CreditPending(w, d, user, delta, text, scale);
    StepInv(w, AdminAdjust(d, user, delta, text), scale);
    StepInv(w1, Commit(d), scale);
    StepBalancedIff(w1, Commit(d), scale);
  }

  lemma CreditEffect(w: World, d: nat, user: nat, delta: int, text: string, scale: int)
    requires d < |w.clients| && w.clients[d] == Cleared(Idle) && !AccountLocked(w, d, user)
    requires user in w.db.users && user in w.db.accounts && w.db.accounts[user] >= 0 && delta > 0
    ensures var w' := Next(Next(w, AdminAdjust(d, user, delta, text), scale), Commit(d), scale);
      && w'.clients == w.clients && w'.db.users == w.db.users && w'.db.rounds == w.db.rounds
      && w'.db.accounts == w.db.accounts[user := w.db.accounts[user] + delta]
  {
    CreditPending(w, d, user, delta, text, scale);
    var w1 := Next(w, AdminAdjust(d, user, delta, text), scale);
    var w' := Next(w1, Commit(d), scale);
    assert w'.db == Merged(w.db, w1.clients[d]) && w.db.rounds + [] == w.db.rounds;
    assert w'.clients == w1.clients[d := Cleared(Idle)];
  }

  lemma CreditPending(w: World, d: nat, user: nat, delta: int, text: string, scale: int)
    requires d < |w.clients| && w.clients[d] == Cleared(Idle) && !AccountLocked(w, d, user)
    requires user in w.db.users && user in w.db.accounts && w.db.accounts[user] >= 0 && delta > 0
    ensures var w1 := Next(w, AdminAdjust(d, user, delta, text), scale);
      && w1.db == w.db && w1.confirmed == w.confirmed && |w1.clients| == |w.clients|
      && (forall j :: 0 <= j < |w.clients| && j != d ==> w1.clients[j] == w.clients[j])
      && w1.clients[d] == Client(Idle, [], [Entry(user, delta, Other(text))], {user},
           map[user := w.db.accounts[user]], map[user := w.db.accounts[user] + delta], [])
  {
    AdjustmentAllowedIff(Context(w.db.accounts[user], delta, false, false));
  }

  /** A new round of a user whose account the session has loaded, but does not hold. */
  predicate MayPlay(w: World, c: nat, call: Call, payout: int) {
    && c < |w.clients| && w.clients[c].pc.Idle? && w.clients[c].rounds == [] && w.clients[c].accounts == map[]
    && call.payout == Some(payout) && payout != 0 && 0 < call.bet <= MAX_BET_AMOUNT
    && Find(w.db.rounds, call.key).None? && !KeyBlocked(w, c, call.key) && !AccountLocked(w, c, call.key.user)
    && call.key.user in w.db.users && call.key.user in w.db.accounts && call.key.user in w.clients[c].loaded
    && DeltaAllowed(w.clients[c].loaded[call.key.user], payout)
  }

  function Started(w: World, c: nat, call: Call, scale: int): World {
    Run(w, [Begin(c, call), Read(c), Insert(c, true)], scale)
  }

  lemma RowInserted(w: World, c: nat, call: Call, payout: int, scale: int)
    requires MayPlay(w, c, call, payout)
    ensures Started(w, c, call, scale)
         == SetClient(w, c, w.clients[c].(pc := Inserted(call, FlushedRow(w.db, call, scale))))
               .(db := w.db.(nextId := w.db.nextId + 1))
  {
    RunThree(w, Begin(c, call), Read(c), Insert(c, true), scale);
    assert w.db.rounds + [] == w.db.rounds;
    var w1 := Next(w, Begin(c, call), scale);
    assert w1 == SetClient(w, c, w.clients[c].(pc := Reading(call)));
    var w2 := Next(w1, Read(c), scale);
    assert w2 == SetClient(w, c, w.clients[c].(pc := Inserting(call)));
    StillFree(w, w2, c, call.key, call.key.user);
  }

  /** What other clients hold does not depend on the client itself. */
  lemma StillFree(w: World, w': World, c: nat, key: Key, user: nat)
    requires |w'.clients| == |w.clients|
    requires forall j :: 0 <= j < |w.clients| && j != c ==> w'.clients[j] == w.clients[j]
    ensures KeyBlocked(w', c, key) == KeyBlocked(w, c, key) && AccountLocked(w', c, user) == AccountLocked(w, c, user)
  {
  }

  /** The play ends ready to commit a balance computed from the loaded one. */
  lemma RoundPlayed(w: World, c: nat, call: Call, payout: int, now: int, scale: int)
    requires MayPlay(w, c, call, payout)
    ensures var w' := Next(Next(Started(w, c, call, scale), Adjust(c), scale), Finish(c, now), scale);
      && Enabled(w', Commit(c)) && w'.db.accounts == w.db.accounts && w'.db.ledger == w.db.ledger
      && call.key.user in w'.clients[c].accounts && w'.clients[c].loaded == w.clients[c].loaded
  {
    RowInserted(w, c, call, payout, scale);
    var w1 := Started(w, c, call, scale);
    StillFree(w, w1, c, call.key, call.key.user);
    var row := FlushedRow(w.db, call, scale);
    assert row.payoutUnits == payout;
    assert Enabled(w1, Adjust(c));
    var w2 := Next(w1, Adjust(c), scale);
    assert w2.clients[c].pc == Adjusted(call, row);
  }

  /** The balance gate of client c, and a credit that another client commits after it. */
  function Gate(c: nat, d: nat, user: nat, credit: int, text: string): seq<Step> {
    [Load(c, user), AdminAdjust(d, user, credit, text), Commit(d)]
  }

  function PlayOut(c: nat, call: Call, now: int): seq<Step> {
    [Begin(c, call), Read(c), Insert(c, true)] + [Adjust(c), Finish(c, now), Commit(c)]
  }

  lemma GateOutdated(w: World, c: nat, d: nat, call: Call, payout: int, credit: int, text: string, scale: int)
    requires Inv(w) && Balanced(w.db.accounts, w.db.ledger)
    requires c != d && d < |w.clients| && w.clients[d] == Cleared(Idle)
    requires MayPlay(Next(w, Load(c, call.key.user), scale), c, call, payout) && w.clients[c] == Cleared(Idle)
    requires credit > 0 && !AccountLocked(w, d, call.key.user)
    ensures var w' := Run(w, Gate(c, d, call.key.user, credit, text), scale);
      && Inv(w') && Balanced(w'.db.accounts, w'.db.ledger) && MayPlay(w', c, call, payout)
      && w'.clients[c].loaded[call.key.user] != Balance(w'.db.accounts, call.key.user)
  {
    var user := call.key.user;
    var w1 := Next(w, Load(c, user), scale);
    AccountLoaded(w, c, user, scale);
    RunThree(w, Load(c, user), AdminAdjust(d, user, credit, text), Commit(d), scale);
    RunInv(w, Gate(c, d, user, credit, text), scale);
    LoadLocksNothing(w, w1, d, user);
    CreditCommitted(w1, d, user, credit, text, scale);
    SameClientsMayPlay(w1, Run(w, Gate(c, d, user, credit, text), scale), c, call, payout);
  }

  lemma LoadLocksNothing(w: World, w': World, d: nat, user: nat)
    requires !AccountLocked(w, d, user)
    requires |w'.clients| == |w.clients|
    requires forall j :: 0 <= j < |w.clients| ==> w'.clients[j].locked == w.clients[j].locked
    ensures !AccountLocked(w', d, user)
  {
  }

  lemma AccountLoaded(w: World, c: nat, user: nat, scale: int)
    requires Inv(w) && Balanced(w.db.accounts, w.db.ledger)
    requires c < |w.clients| && w.clients[c] == Cleared(Idle) && user in w.db.accounts
    ensures var w' := Next(w, Load(c, user), scale);
      && Inv(w') && w' == SetClient(w, c, Cleared(Idle).(loaded := map[user := w.db.accounts[user]]))
      && w.db.accounts[user] >= 0
  {
    StepInv(w, Load(c, user), scale);
    assert Balance(w.db.accounts, user) >= 0;
  }

  lemma SameClientsMayPlay(w: World, w': World, c: nat, call: Call, payout: int)
    requires MayPlay(w, c, call, payout) && w'.clients == w.clients
    requires w'.db.users == w.db.users && w'.db.rounds == w.db.rounds && call.key.user in w'.db.accounts
    ensures MayPlay(w', c, call, payout)
  {
    StillFree(w, w', c, call.key, call.key.user);
  }

  lemma OutdatedPlayLoses(w: World, c: nat, call: Call, payout: int, now: int, scale: int)
    requires Inv(w) && Balanced(w.db.accounts, w.db.ledger) && MayPlay(w, c, call, payout)
    requires w.clients[c].loaded[call.key.user] != Balance(w.db.accounts, call.key.user)
    ensures !Consistent(Run(w, PlayOut(c, call, now), scale).db)
  {
    var w1 := Started(w, c, call, scale);
    RoundPlayed(w, c, call, payout, now, scale);
    RunJoin(w, [Begin(c, call), Read(c), Insert(c, true)], [Adjust(c), Finish(c, now), Commit(c)], scale);
    RunThree(w1, Adjust(c), Finish(c, now), Commit(c), scale);
    RunInv(w, [Begin(c, call), Read(c), Insert(c, true)], scale);
    StepInv(w1, Adjust(c), scale);
    StepInv(Next(w1, Adjust(c), scale), Finish(c, now), scale);
    StepBalancedIff(Next(Next(w1, Adjust(c), scale), Finish(c, now), scale), Commit(c), scale);
  }

  /** Whenever a user's credit commits between the engine's balance gate, which loads the account,
      and the lock of the same play, committing the play loses the credit. */
  lemma OverlappingCreditIsLost(w: World, c: nat, d: nat, call: Call, payout: int, credit: int, text: string,
      now: int, scale: int)
    requires Inv(w) && Balanced(w.db.accounts, w.db.ledger)
    requires c != d && d < |w.clients| && w.clients[d] == Cleared(Idle)
    requires MayPlay(Next(w, Load(c, call.key.user), scale), c, call, payout) && w.clients[c] == Cleared(Idle)
    requires credit > 0 && !AccountLocked(w, d, call.key.user)
    ensures !Consistent(Run(w, Gate(c, d, call.key.user, credit, text) + PlayOut(c, call, now), scale).db)
  {
    GateOutdated(w, c, d, call, payout, credit, text, scale);
    RunJoin(w, Gate(c, d, call.key.user, credit, text), PlayOut(c, call, now), scale);
    OutdatedPlayLoses(Run(w, Gate(c, d, call.key.user, credit, text), scale), c, call, payout, now, scale);
  }

  /** And it does happen: from the empty database, a play that wins 10 on a balance of 100 while
      a credit of 50 commits between its gate and its lock. */
  lemma CreditIsLost() returns (steps: seq<Step>)
    ensures steps == [CreateUser(1), AdminAdjust(0, 1, 100, "grant"), Commit(0)]
                     + (Gate(0, 1, 1, 50, "gift") + PlayOut(0, Call(Key(1, "coin_flip", "k"), 10, Some(10), "win"), 0))
    ensures !Consistent(Run(Initial(2), steps, 1).db)
  {
    var fund := [CreateUser(1), AdminAdjust(0, 1, 100, "grant"), Commit(0)];
    var flip := Call(Key(1, "coin_flip", "k"), 10, Some(10), "win");
    FundedUser(2, 1, 100, 1);
    var w := Run(Initial(2), fund, 1);
    AccountLoaded(w, 0, 1, 1);
    AdjustmentAllowedIff(Context(100, 10, false, false));
    assert MayPlay(Next(w, Load(0, 1), 1), 0, flip, 10);
    OverlappingCreditIsLost(w, 0, 1, flip, 10, 50, "gift", 0, 1);
    RunJoin(Initial(2), fund, Gate(0, 1, 1, 50, "gift") + PlayOut(0, flip, 0), 1);
    steps := fund + (Gate(0, 1, 1, 50, "gift") + PlayOut(0, flip, 0));
  }

  lemma FundedUser(n: nat, user: nat, amount: int, scale: int)
    requires amount > 0 && n > 0
    ensures var w := Run(Initial(n), [CreateUser(user), AdminAdjust(0, user, amount, "grant"), Commit(0)], scale);
      && Inv(w) && Balanced(w.db.accounts, w.db.ledger) && w.clients == Initial(n).clients
      && w.db.users == {user} && w.db.accounts == map[user := amount] && w.db.rounds == []
  {
    NewUser(n, user, scale);
    RunThree(Initial(n), CreateUser(user), AdminAdjust(0, user, amount, "grant"), Commit(0), scale);
    CreditCommitted(Next(Initial(n), CreateUser(user), scale), 0, user, amount, "grant", scale);
  }

  lemma NewUser(n: nat, user: nat, scale: int)
    requires n > 0
    ensures var w := Next(Initial(n), CreateUser(user), scale);
      && Inv(w) && Balanced(w.db.accounts, w.db.ledger) && w.clients == Initial(n).clients
      && w.db.users == {user} && w.db.accounts == map[user := 0] && w.db.rounds == [] && !AccountLocked(w, 0, user)
  {
    InitialInv(n);
    StepInv(Initial(n), CreateUser(user), scale);
    StepBalancedIff(Initial(n), CreateUser(user), scale);
  }
}
