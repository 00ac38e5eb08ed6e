/** What the game engine guarantees over whole serial runs. */
module EngineLaws {
  import opened Common
  import opened Ledger
  import opened Compliance
  import opened GameRounds
  import opened Engine
  import opened Games
  import Protocol = RoundProtocol
  import RoundExecution

  // ----- one call -----

  /** The foreign key from accounts to users. */
  predicate AccountsHaveUsers(db: Db) {
    db.accounts.Keys <= db.users
  }

  /** The engine lets a fresh round through to the round service, which accepts its bet. */
  predicate PassesGates(db: Db, cfg: Settings, req: Request) {
    && req.game in cfg.enabled && cfg.HasStakePolicy(req.game)
    && cfg.LimitsOf(req.game).minBet <= req.bet <= cfg.LimitsOf(req.game).maxBet && req.bet <= MAX_BET_AMOUNT
    && Find(db.rounds, req.Key()).None? && StakeGates(db, cfg, req).None?
  }

  /** What a draw means for a stake: the coin wins even money below one half; the wheel loses the
      stake below 0.55 and pays half of it below 0.80, all of it below 0.92, else five halves. */
  predicate DrawPays(game: string, stake: int, draw: real, outcome: string, payout: int) {
    if game == "coin_flip" then
      if draw < 0.5 then outcome == "win" && payout == stake else outcome == "lose" && payout == -stake
    else
      if draw < 0.55 then outcome == "bust" && payout == -stake
      else if draw < 0.80 then outcome == "bronze" && payout == stake / 2
      else if draw < 0.92 then outcome == "silver" && payout == stake
      else outcome == "gold" && payout == (stake * 5) / 2
  }

  /** The game named by the request decides its draw. */
  lemma DrawDecides(game: string, stake: nat, draw: real)
    requires game in {"coin_flip", "bonus_wheel"}
    ensures DrawPays(game, stake, draw, OutcomeOf(game, stake, draw).name, OutcomeOf(game, stake, draw).payout)
  {
    SpinPays(stake, draw);
  }

  /** A round that passes the engine's gates passes the ledger's checks: without faults it always
      ends committed with the outcome of its draw, pays between minus the stake and two and a half
      times it, and leaves a balance that is not negative. */
  lemma PassedGatesCommit(db: Db, cfg: Settings, req: Request)
    requires cfg.Valid() && Consistent(db) && AccountsHaveUsers(db)
    requires req.env.fault == NoFault && req.bet <= MAX_BET_AMOUNT
    ensures var (db', reply) := RunInner(db, cfg, req);
      && reply != Error && Consistent(db') && AccountsHaveUsers(db')
      && (reply.Done? && !reply.replay ==>
           var stake := req.bet * cfg.scale;
           && reply.round.status == Committed && reply.round.key == req.Key() && reply.round.betUnits == stake
           && req.bet >= 1 && req.game in {"coin_flip", "bonus_wheel"}
           && reply.round.committedAt == Some(req.env.now)
           && DrawPays(req.game, stake, req.draw, reply.round.outcome, reply.round.payoutUnits)
           && -stake <= reply.round.payoutUnits <= (stake * 5) / 2
           && Balance(db'.accounts, req.user) == Balance(db.accounts, req.user) + reply.round.payoutUnits >= 0
           && db'.rounds == db.rounds + [reply.round] && db'.ledger == db.ledger + [Booking(reply.round)])
  {
    if PassesGates(db, cfg, req) {
      GatesGiveStake(db, cfg, req);
      DrawDecides(req.game, req.bet * cfg.scale, req.draw);
      ExecuteCommits(db, CallOf(cfg, req), req.env, cfg.scale);
    }
  }

  /** A call for a known user with an affordable payout commits. */
  lemma ExecuteCommits(db: Db, call: Call, env: Env, scale: int)
    requires Consistent(db) && AccountsHaveUsers(db) && call.key.user in db.users
    requires env.fault == NoFault && Find(db.rounds, call.key).None? && 0 < call.bet <= MAX_BET_AMOUNT
    requires call.payout.Some? && Balance(db.accounts, call.key.user) + call.payout.value >= 0
    ensures var (db', exec) := Execute(db, call, env, scale);
      && Consistent(db') && AccountsHaveUsers(db') && exec.Played?
      && exec.round.status == Committed && exec.round.key == call.key && exec.round.payoutUnits == call.payout.value
      && exec.round.betUnits == call.bet * scale && exec.round.outcome == call.outcome
      && exec.round.committedAt == Some(env.now)
      && Balance(db'.accounts, call.key.user) == Balance(db.accounts, call.key.user) + call.payout.value
      && db'.rounds == db.rounds + [exec.round] && db'.ledger == db.ledger + [Booking(exec.round)]
  {
    RoundExecution.ExecuteConsistent(db, call, env, scale);
    AdjustmentAllowedIff(Context(Balance(db.accounts, call.key.user), call.payout.value, false, false));
  }

  lemma GatesGiveStake(db: Db, cfg: Settings, req: Request)
    requires cfg.Valid() && StakeGates(db, cfg, req).None?
    ensures Balance(db.accounts, req.user) >= req.bet * cfg.scale && req.user in db.accounts
  {
    assert cfg.accessMin * cfg.scale >= 1;
  }

  /** The request may be repeated: its game is enabled and its bet within the game's limits. */
  predicate MayRepeat(cfg: Settings, req: Request) {
    && req.game in cfg.enabled
    && (cfg.HasStakePolicy(req.game) ==> cfg.LimitsOf(req.game).minBet <= req.bet <= cfg.LimitsOf(req.game).maxBet)
  }

  /** A repeated request for an allowed bet on an enabled game returns the round it already has
      and changes nothing stored, whatever the balance, the cooldown or faults; only the timing
      histogram notices. */
  lemma ReplayChangesNothing(db: Db, cfg: Settings, req: Request, m: Metrics)
    requires cfg.Valid() && MayRepeat(cfg, req) && Find(db.rounds, req.Key()).Some?
    ensures RunInner(db, cfg, req) == (db, Done(Find(db.rounds, req.Key()).value, true))
    ensures var m' := Record(m, req.game, RunInner(db, cfg, req).1, cfg.scale);
            m' == m.(durations := m'.durations)
  {
  }

  /** The reported wait is exact: after that many seconds the same request is not refused for
      the cooldown, and one second earlier it still is. */
  lemma WaitIsExact(db: Db, cfg: Settings, req: Request, wait: int)
    requires cfg.Valid() && RunInner(db, cfg, req).1 == Refused(CooldownActive, wait)
    ensures wait >= 1
    ensures !CooldownRefused(RunInner(db, cfg, req.(checkAt := req.checkAt + wait * SECOND)).1)
    ensures CooldownRefused(RunInner(db, cfg, req.(checkAt := req.checkAt + (wait - 1) * SECOND)).1)
  {
  }

  predicate CooldownRefused(reply: Reply) {
    reply.Refused? && reply.code == CooldownActive
  }

  // ----- serial runs -----

  datatype Op = Play(req: Request) | NewUser(user: nat) | Credit(user: nat, delta: int, text: string)

  datatype World = World(db: Db, metrics: Metrics)

  function Next(w: World, cfg: Settings, op: Op): World
    requires cfg.Valid()
  {
    match op
    case Play(req) =>
      var (db, reply) := RunInner(w.db, cfg, req);
      World(db, Record(w.metrics, req.game, reply, cfg.scale))
    case NewUser(user) =>
      if user in w.db.users || user in w.db.accounts then w
      else w.(db := w.db.(users := w.db.users + {user}, accounts := w.db.accounts[user := 0]))
    case Credit(user, delta, text) => w.(db := Adjust(w.db, user, delta, Other(text), false, false).0)
  }

  function Run(ops: seq<Op>, cfg: Settings): World
    requires cfg.Valid()
  {
    if ops == [] then World(Db({}, map[], [], [], 0), NO_METRICS)
    else Next(Run(ops[..|ops| - 1], cfg), cfg, ops[|ops| - 1])
  }

  /** Plays follow one another on a non-decreasing clock and are over by `now`. */
  ghost predicate InTime(ops: seq<Op>, now: int) {
    if ops == [] then true else
    var last := ops[|ops| - 1];
    if last.Play? then last.req.checkAt <= last.req.env.now <= now && InTime(ops[..|ops| - 1], last.req.checkAt)
    else InTime(ops[..|ops| - 1], now)
  }

  /** A play leaves the rounds alone or appends one, which is the round it reports unless it
      failed; a committed one carries the commit time. */
  lemma PlayAppends(db: Db, cfg: Settings, req: Request)
    requires cfg.Valid()
    ensures var (db', reply) := RunInner(db, cfg, req);
      && db.rounds <= db'.rounds && |db'.rounds| <= |db.rounds| + 1
      && (db'.rounds == db.rounds <==> !(|db'.rounds| == |db.rounds| + 1))
      && (|db'.rounds| == |db.rounds| + 1 ==>
           var r := db'.rounds[|db.rounds|];
           && r.key == req.Key() && r.betUnits == req.bet * cfg.scale
           && StakeGates(db, cfg, req).None? && cfg.HasStakePolicy(req.game)
           && (if r.status == Failed then reply == Error else reply == Done(r, false))
           && (r.status == Committed ==> r.committedAt == Some(req.env.now)))
      && (reply.Done? && !reply.replay ==> |db'.rounds| == |db.rounds| + 1)
  {
  }

  /** Whatever a play reported for a key, in any state, is in the table under that key. */
  lemma ReportedIsStored(db: Db, cfg: Settings, req: Request)
    requires cfg.Valid() && RunInner(db, cfg, req).1.Done?
    ensures Find(RunInner(db, cfg, req).0.rounds, req.Key()) == Some(RunInner(db, cfg, req).1.round)
  {
    var rounds := RunInner(db, cfg, req).0.rounds;
    PlayAppends(db, cfg, req);
    if !RunInner(db, cfg, req).1.replay {
      var r := rounds[|db.rounds|];
      assert rounds == db.rounds + [r] && [r][0] == r;
      Protocol.FindInJoin(db.rounds, [r], req.Key());
    }
  }

  lemma StepKeepsRound(w: World, cfg: Settings, op: Op, key: Ledger.Key)
    requires cfg.Valid() && Find(w.db.rounds, key).Some?
    ensures Find(Next(w, cfg, op).db.rounds, key) == Find(w.db.rounds, key)
  {
    if op.Play? {
      PlayAppends(w.db, cfg, op.req);
      var rounds := RunInner(w.db, cfg, op.req).0.rounds;
      assert rounds == w.db.rounds + rounds[|w.db.rounds|..];
      Protocol.FindInJoin(w.db.rounds, rounds[|w.db.rounds|..], key);
    }
  }

  lemma {:induction false} RoundStays(ops: seq<Op>, more: seq<Op>, cfg: Settings, key: Ledger.Key)
    requires cfg.Valid() && Find(Run(ops, cfg).db.rounds, key).Some?
    ensures Find(Run(ops + more, cfg).db.rounds, key) == Find(Run(ops, cfg).db.rounds, key)
  {
    if more == [] {
      assert ops + more == ops;
    } else {
      var n := |more| - 1;
      RoundStays(ops, more[..n], cfg, key);
      assert (ops + more)[..|ops + more| - 1] == ops + more[..n];
      StepKeepsRound(Run(ops + more[..n], cfg), cfg, more[n], key);
    }
  }

  /** Once a key has a row, whichever play put it there, every later play of that key with an
      allowed bet, after any further plays, faults, users and credits, reports that same row and
      changes nothing stored and no counter, whatever the balance, the cooldown or faults. */
  lemma ReplaysReportFirstRound(ops: seq<Op>, more: seq<Op>, again: Request, cfg: Settings)
    requires cfg.Valid() && MayRepeat(cfg, again) && Find(Run(ops, cfg).db.rounds, again.Key()).Some?
    ensures var w := Run(ops + more, cfg);
            var w' := Next(w, cfg, Play(again));
      && RunInner(w.db, cfg, again).1 == Done(Find(Run(ops, cfg).db.rounds, again.Key()).value, true)
      && w'.db == w.db && w'.metrics == w.metrics.(durations := w'.metrics.durations)
  {
    RoundStays(ops, more, cfg, again.Key());
    var w := Run(ops + more, cfg);
    ReplayChangesNothing(w.db, cfg, again, w.metrics);
  }

  lemma PlayConsistent(db: Db, cfg: Settings, req: Request)
    requires cfg.Valid() && Consistent(db) && AccountsHaveUsers(db)
    ensures Consistent(RunInner(db, cfg, req).0) && AccountsHaveUsers(RunInner(db, cfg, req).0)
  {
    if RunInner(db, cfg, req).0 != db {
      RoundExecution.ExecuteConsistent(db, CallOf(cfg, req), req.env, cfg.scale);
    }
  }

  /** Every serial run, with faults of any kind, keeps the ledger, balances and rounds
      consistent, so PassedGatesCommit applies to each of its states. */
  lemma {:induction false} SerialRunConsistent(ops: seq<Op>, cfg: Settings)
    requires cfg.Valid()
    ensures Consistent(Run(ops, cfg).db) && AccountsHaveUsers(Run(ops, cfg).db)
  {
    if ops == [] {
      MatchedEmpty();
    } else {
      var rest, op := ops[..|ops| - 1], ops[|ops| - 1];
      SerialRunConsistent(rest, cfg);
      var db := Run(rest, cfg).db;
      match op
      case Play(req) => PlayConsistent(db, cfg, req);
      case NewUser(user) =>
        if user !in db.users && user !in db.accounts {
          assert Balance(db.accounts, user) == Sum(db.ledger, user);
        }
      case Credit(user, delta, text) => AdjustConsistent(db, user, delta, text);
    }
  }

  lemma AdjustConsistent(db: Db, user: nat, delta: int, text: string)
    requires Consistent(db)
    ensures Consistent(Adjust(db, user, delta, Other(text), false, false).0)
  {
    var balance := Balance(db.accounts, user);
    assert balance == Sum(db.ledger, user);
    AdjustmentAllowedIff(Context(balance, delta, false, false));
    var e := Entry(user, delta, Other(text));
    MatchedOther(db.rounds, db.ledger, e);
    forall u
      ensures Sum(db.ledger + [e], u) == Sum(db.ledger, u) + if u == user then delta else 0
    {
      assert (db.ledger + [e])[..|db.ledger|] == db.ledger;
    }
    forall u
      ensures Balance(db.accounts, u) == Sum(db.ledger, u)
    {
    }
  }

  // ----- cooldown -----

  /** Committed rounds of the user and game, in table order, are at least `gap` apart. */
  ghost predicate Spaced(rounds: seq<Round>, user: nat, game: string, gap: int) {
    forall i, j :: 0 <= i < j < |rounds| && PlayedBy(rounds[i], user, game) && PlayedBy(rounds[j], user, game) ==>
      rounds[j].committedAt.value - rounds[i].committedAt.value >= gap
  }

  ghost predicate PlayedBefore(rounds: seq<Round>, user: nat, game: string, now: int) {
    forall r :: r in rounds && PlayedBy(r, user, game) ==> r.committedAt.value <= now
  }

  lemma {:induction false} LastIsLatest(rounds: seq<Round>, user: nat, game: string)
    ensures forall r :: r in rounds && PlayedBy(r, user, game) ==>
      LastCommitted(rounds, user, game).Some? && r.committedAt.value <= LastCommitted(rounds, user, game).value
  {
    if rounds != [] {
      LastIsLatest(rounds[..|rounds| - 1], user, game);
      assert rounds == rounds[..|rounds| - 1] + [rounds[|rounds| - 1]];
    }
  }

  lemma PlayKeepsSpacing(db: Db, cfg: Settings, req: Request, user: nat, game: string)
    requires cfg.Valid() && cfg.HasStakePolicy(game) && cfg.Cooldown(game) > 0 && req.checkAt <= req.env.now
    requires Spaced(db.rounds, user, game, cfg.Cooldown(game) * SECOND)
    requires PlayedBefore(db.rounds, user, game, req.checkAt)
    ensures Spaced(RunInner(db, cfg, req).0.rounds, user, game, cfg.Cooldown(game) * SECOND)
    ensures PlayedBefore(RunInner(db, cfg, req).0.rounds, user, game, req.env.now)
  {
    PlayAppends(db, cfg, req);
    var rounds := RunInner(db, cfg, req).0.rounds;
    if |rounds| == |db.rounds| + 1 {
      var r := rounds[|db.rounds|];
      assert rounds == db.rounds + [r];
      LastIsLatest(db.rounds, user, game);
      if PlayedBy(r, user, game) {
        forall i | 0 <= i < |db.rounds| && PlayedBy(db.rounds[i], user, game)
          ensures r.committedAt.value - db.rounds[i].committedAt.value >= cfg.Cooldown(game) * SECOND
        {
          assert db.rounds[i] in db.rounds;
        }
      }
    } else {
      assert rounds == db.rounds;
    }
  }

  /** Over every serial run the committed rounds of one user and one game are at least one
      cooldown apart. */
  lemma {:induction false} CooldownKept(ops: seq<Op>, cfg: Settings, user: nat, game: string, now: int)
    requires cfg.Valid() && cfg.HasStakePolicy(game) && cfg.Cooldown(game) > 0 && InTime(ops, now)
    ensures Spaced(Run(ops, cfg).db.rounds, user, game, cfg.Cooldown(game) * SECOND)
    ensures PlayedBefore(Run(ops, cfg).db.rounds, user, game, now)
  {
    if ops != [] {
      var rest, op := ops[..|ops| - 1], ops[|ops| - 1];
      CooldownKept(rest, cfg, user, game, if op.Play? then op.req.checkAt else now);
      if op.Play? {
        PlayKeepsSpacing(Run(rest, cfg).db, cfg, op.req, user, game);
      }
    }
  }

  function PlayedWithin(rounds: seq<Round>, user: nat, game: string, from: int, to: int): nat {
    if rounds == [] then 0 else
    var r := rounds[|rounds| - 1];
    PlayedWithin(rounds[..|rounds| - 1], user, game, from, to)
    + if PlayedBy(r, user, game) && from <= r.committedAt.value <= to then 1 else 0
  }

  /** k spaced rounds from `from` on end no earlier than from + (k - 1) gaps. */
  lemma {:induction false} SpacedCount(rounds: seq<Round>, user: nat, game: string, gap: int, from: int,
      to: int) returns (i: nat)
    requires Spaced(rounds, user, game, gap) && PlayedWithin(rounds, user, game, from, to) > 0
    ensures i < |rounds| && PlayedBy(rounds[i], user, game) && rounds[i].committedAt.value <= to
    ensures rounds[i].committedAt.value >= from + (PlayedWithin(rounds, user, game, from, to) - 1) * gap
  {
    var n := |rounds| - 1;
    var r := rounds[n];
    var before := PlayedWithin(rounds[..n], user, game, from, to);
    if before > 0 {
      i := SpacedCount(rounds[..n], user, game, gap, from, to);
      if PlayedBy(r, user, game) && from <= r.committedAt.value <= to {
        assert r.committedAt.value - rounds[i].committedAt.value >= gap;
        OneMoreGap(before, gap, from, rounds[i].committedAt.value, r.committedAt.value);
        i := n;
      }
    } else {
      i := n;
    }
  }

  lemma OneMoreGap(before: int, gap: int, from: int, last: int, at: int)
    requires last >= from + (before - 1) * gap && at - last >= gap
    ensures at >= from + before * gap
  {
    assert (before - 1) * gap + gap == before * gap;
  }

  /** So a stretch of any length holds at most length / cooldown + 1 committed rounds. */
  lemma CooldownBound(ops: seq<Op>, cfg: Settings, user: nat, game: string, now: int, from: int, length: nat)
    requires cfg.Valid() && cfg.HasStakePolicy(game) && cfg.Cooldown(game) > 0 && InTime(ops, now)
    ensures PlayedWithin(Run(ops, cfg).db.rounds, user, game, from, from + length)
         <= length / (cfg.Cooldown(game) * SECOND) + 1
  {
    CooldownKept(ops, cfg, user, game, now);
    SpacedBound(Run(ops, cfg).db.rounds, user, game, cfg.Cooldown(game) * SECOND, from, length);
  }

  lemma SpacedBound(rounds: seq<Round>, user: nat, game: string, gap: int, from: int, length: nat)
    requires Spaced(rounds, user, game, gap) && gap > 0
    ensures PlayedWithin(rounds, user, game, from, from + length) <= length / gap + 1
  {
    var k := PlayedWithin(rounds, user, game, from, from + length);
    if k > 0 {
      var i := SpacedCount(rounds, user, game, gap, from, from + length);
      QuotientBound(k - 1, gap, length);
    }
  }

  lemma QuotientBound(k: nat, gap: int, length: nat)
    requires gap > 0 && k * gap <= length
    ensures k <= length / gap
  {
    var q := length / gap;
    assert (q + 1) * gap > length;
    TimesMonotone(q + 1, k, gap);
  }

  // ----- counters -----

  /** What the table says the counters should be. */
  function RowCount(rounds: seq<Round>, tag: Tag): nat {
    if rounds == [] then 0 else
    RowCount(rounds[..|rounds| - 1], tag) + if TagOf(rounds[|rounds| - 1]) == tag then 1 else 0
  }

  function Staked(rounds: seq<Round>, game: string): int {
    if rounds == [] then 0 else
    var r := rounds[|rounds| - 1];
    Staked(rounds[..|rounds| - 1], game) + if r.status == Committed && r.key.game == game then r.betUnits else 0
  }

  function PaidOut(rounds: seq<Round>, game: string): int {
    if rounds == [] then 0 else
    var r := rounds[|rounds| - 1];
    PaidOut(rounds[..|rounds| - 1], game)
    + if r.status == Committed && r.key.game == game && r.payoutUnits > 0 then r.payoutUnits else 0
  }

  /** Counters and table agree, except that failed rounds are not counted. */
  ghost predicate Agrees(m: Metrics, rounds: seq<Round>, scale: int) {
    && (forall tag: Tag :: Count(m.rounds, tag) == if tag.1 == Failed then 0 else RowCount(rounds, tag))
    && (forall game :: Count(m.stake, game) * scale == Staked(rounds, game))
    && (forall game :: Count(m.payout, game) == PaidOut(rounds, game))
  }

  lemma RecordAgrees(m: Metrics, rounds: seq<Round>, r: Round, bet: int, scale: int)
    requires scale >= 1 && Agrees(m, rounds, scale) && r.status != Failed && r.betUnits == bet * scale
    ensures Agrees(RecordCompletion(m, r, false, scale), rounds + [r], scale)
  {
    WholeQuotient(bet, scale);
    StakesAgree(m, rounds, r, bet, scale);
    TagsAgree(m, rounds, r, scale);
    assert (rounds + [r])[..|rounds|] == rounds;
  }

  lemma StakesAgree(m: Metrics, rounds: seq<Round>, r: Round, bet: int, scale: int)
    requires scale >= 1 && r.betUnits == bet * scale && r.betUnits / scale == bet && r.status != Failed
    requires forall game :: Count(m.stake, game) * scale == Staked(rounds, game)
    ensures forall game :: Count(RecordCompletion(m, r, false, scale).stake, game) * scale == Staked(rounds + [r], game)
  {
    assert (rounds + [r])[..|rounds|] == rounds;
    var m' := RecordCompletion(m, r, false, scale);
    forall game
      ensures Count(m'.stake, game) * scale == Staked(rounds + [r], game)
    {
      OneMoreStake(Count(m.stake, game), Count(m'.stake, game), bet, scale);
    }
  }

  lemma TagsAgree(m: Metrics, rounds: seq<Round>, r: Round, scale: int)
    requires scale >= 1 && r.status != Failed
    requires forall tag: Tag :: Count(m.rounds, tag) == if tag.1 == Failed then 0 else RowCount(rounds, tag)
    ensures forall tag: Tag :: Count(RecordCompletion(m, r, false, scale).rounds, tag)
                            == if tag.1 == Failed then 0 else RowCount(rounds + [r], tag)
  {
    assert (rounds + [r])[..|rounds|] == rounds;
  }

  lemma OneMoreStake(before: int, after: int, bet: int, scale: int)
    ensures after == before + bet ==> after * scale == before * scale + bet * scale
  {
  }

  lemma FailedAgrees(m: Metrics, rounds: seq<Round>, r: Round, scale: int)
    requires Agrees(m, rounds, scale) && r.status == Failed
    ensures Agrees(m, rounds + [r], scale)
  {
    assert (rounds + [r])[..|rounds|] == rounds;
  }

  lemma PlayKeepsCounters(w: World, cfg: Settings, req: Request)
    requires cfg.Valid() && Agrees(w.metrics, w.db.rounds, cfg.scale)
    ensures Agrees(Next(w, cfg, Play(req)).metrics, Next(w, cfg, Play(req)).db.rounds, cfg.scale)
  {
    var w' := Next(w, cfg, Play(req));
    PlayAppends(w.db, cfg, req);
    if |w'.db.rounds| == |w.db.rounds| + 1 {
      var r := w'.db.rounds[|w.db.rounds|];
      assert w'.db.rounds == w.db.rounds + [r];
      if r.status == Failed {
        FailedAgrees(w.metrics, w.db.rounds, r, cfg.scale);
      } else {
        RecordAgrees(w.metrics, w.db.rounds, r, req.bet, cfg.scale);
      }
    } else {
      assert w'.db.rounds == w.db.rounds;
    }
  }

  /** After every serial run, of plays with any outcome, new users and other adjustments: the
      stake counter times the scale is the sum of committed bets, the payout counter the sum of
      positive payouts, and the per-outcome counters are the row counts of the committed and
      rejected rounds. In a serial run failed rounds are never counted. */
  lemma {:induction false} CountersAgree(ops: seq<Op>, cfg: Settings)
    requires cfg.Valid()
    ensures Agrees(Run(ops, cfg).metrics, Run(ops, cfg).db.rounds, cfg.scale)
  {
    if ops != [] {
      var rest, op := ops[..|ops| - 1], ops[|ops| - 1];
      CountersAgree(rest, cfg);
      if op.Play? {
        PlayKeepsCounters(Run(rest, cfg), cfg, op.req);
      }
    }
  }

  /** The play meets a fault behind the gates, and its failed row can be written. */
  predicate LeavesFailedRow(db: Db, cfg: Settings, req: Request) {
    PassesGates(db, cfg, req) && req.env.fault != NoFault && !req.env.recordFault
  }

  ghost predicate HasFailed(rounds: seq<Round>) {
    exists i :: 0 <= i < |rounds| && rounds[i].status == Failed
  }

  /** Which plays leave a failed row: those that pass the gates and then meet a fault. */
  lemma FailedRowIff(db: Db, cfg: Settings, req: Request)
    requires cfg.Valid() && Consistent(db) && AccountsHaveUsers(db)
    ensures var rounds := RunInner(db, cfg, req).0.rounds;
      (exists r :: rounds == db.rounds + [r] && r.status == Failed) <==> LeavesFailedRow(db, cfg, req)
  {
    var rounds := RunInner(db, cfg, req).0.rounds;
    if PassesGates(db, cfg, req) {
      GatesGiveStake(db, cfg, req);
      if req.env.fault == NoFault {
        PassedGatesCommit(db, cfg, req);
        assert rounds[|db.rounds|].status == Committed;
      } else if !req.env.recordFault {
        assert rounds == db.rounds + [rounds[|db.rounds|]] && rounds[|db.rounds|].status == Failed;
      }
    } else {
      assert rounds == db.rounds;
    }
  }

  /** The k-th operation of a run is a play that, where the run has got to, leaves a failed row. */
  predicate LeavesOneAt(ops: seq<Op>, cfg: Settings, k: nat)
    requires cfg.Valid()
  {
    k < |ops| && ops[k].Play? && LeavesFailedRow(Run(ops[..k], cfg).db, cfg, ops[k].req)
  }

  lemma LeavesOneBefore(ops: seq<Op>, cfg: Settings, n: nat, k: nat)
    requires cfg.Valid() && k < n <= |ops|
    ensures LeavesOneAt(ops[..n], cfg, k) == LeavesOneAt(ops, cfg, k)
  {
    assert ops[..n][..k] == ops[..k];
  }

  /** A serial run has a failed row exactly when one of its plays left one. */
  lemma {:induction false} FailedRowsIff(ops: seq<Op>, cfg: Settings)
    requires cfg.Valid()
    ensures HasFailed(Run(ops, cfg).db.rounds) <==> exists k :: LeavesOneAt(ops, cfg, k)
    decreases |ops|
  {
    if ops != [] {
      var n := |ops| - 1;
      FailedRowsIff(ops[..n], cfg);
      forall k: nat | k < n
        ensures LeavesOneAt(ops[..n], cfg, k) == LeavesOneAt(ops, cfg, k)
      {
        LeavesOneBefore(ops, cfg, n, k);
      }
      LastFailedRow(Run(ops[..n], cfg), cfg, ops[n], ops[..n]);
      assert LeavesOneAt(ops, cfg, n) <==> ops[n].Play? && LeavesFailedRow(Run(ops[..n], cfg).db, cfg, ops[n].req);
    }
  }

  lemma FailedInJoin(rounds: seq<Round>, r: Round)
    ensures HasFailed(rounds + [r]) <==> HasFailed(rounds) || r.status == Failed
  {
    var all := rounds + [r];
    assert all[|rounds|] == r;
    assert forall i :: 0 <= i < |rounds| ==> all[i] == rounds[i];
  }

  lemma PlayedFailedRow(db: Db, cfg: Settings, req: Request)
    requires cfg.Valid() && Consistent(db) && AccountsHaveUsers(db)
    ensures HasFailed(RunInner(db, cfg, req).0.rounds) <==> HasFailed(db.rounds) || LeavesFailedRow(db, cfg, req)
  {
    PlayAppends(db, cfg, req);
    FailedRowIff(db, cfg, req);
    var rounds := RunInner(db, cfg, req).0.rounds;
    if |rounds| == |db.rounds| + 1 {
      var r := rounds[|db.rounds|];
      assert rounds == db.rounds + [r];
      FailedInJoin(db.rounds, r);
    } else {
      assert rounds == db.rounds;
    }
  }

  lemma LastFailedRow(w: World, cfg: Settings, op: Op, before: seq<Op>)
    requires cfg.Valid() && w == Run(before, cfg)
    ensures HasFailed(Next(w, cfg, op).db.rounds)
       <==> HasFailed(w.db.rounds) || (op.Play? && LeavesFailedRow(w.db, cfg, op.req))
  {
    SerialRunConsistent(before, cfg);
    if op.Play? {
      PlayedFailedRow(w.db, cfg, op.req);
    }
  }

  /** In a serial run the counters of failed rounds agree with the table exactly when no play of
      the run meets a fault behind the gates and then writes its failed row. */
  lemma FailedCounterAgreesIff(ops: seq<Op>, cfg: Settings)
    requires cfg.Valid()
    ensures var w := Run(ops, cfg);
      (forall tag: Tag :: tag.1 == Failed ==> Count(w.metrics.rounds, tag) == RowCount(w.db.rounds, tag))
      <==> (forall k :: !LeavesOneAt(ops, cfg, k))
  {
    CountersAgree(ops, cfg);
    FailedRowsIff(ops, cfg);
    var rounds := Run(ops, cfg).db.rounds;
    if HasFailed(rounds) {
      var i :| 0 <= i < |rounds| && rounds[i].status == Failed;
      RowIsCounted(rounds, rounds[i]);
    } else {
      forall tag: Tag | tag.1 == Failed
        ensures RowCount(rounds, tag) == 0
      {
        NoRows(rounds, tag);
      }
    }
  }

  lemma {:induction false} RowIsCounted(rounds: seq<Round>, r: Round)
    requires r in rounds
    ensures RowCount(rounds, TagOf(r)) > 0
  {
    if rounds[|rounds| - 1] != r {
      assert rounds == rounds[..|rounds| - 1] + [rounds[|rounds| - 1]];
      RowIsCounted(rounds[..|rounds| - 1], r);
    }
  }

  lemma {:induction false} NoRows(rounds: seq<Round>, tag: Tag)
    requires forall r :: r in rounds ==> r.status != tag.1
    ensures RowCount(rounds, tag) == 0
  {
    if rounds != [] {
      NoRows(rounds[..|rounds| - 1], tag);
    }
  }

  /** A fault does leave such an uncounted row: one faulty flip by a funded user. */
  lemma FaultIsNotCounted(cfg: Settings)
    requires cfg.Valid() && COIN_FLIP in cfg.enabled && cfg.coin.minBet <= MAX_BET_AMOUNT
    ensures var units := (cfg.accessMin + cfg.coin.minBet) * cfg.scale;
            var flip := Request(1, COIN_FLIP, cfg.coin.minBet, "k", 0.0, 0, Env(0, AfterInsert, false, true));
            var w := Run([NewUser(1), Credit(1, units, "grant"), Play(flip)], cfg);
            && |w.db.rounds| == 1 && w.db.rounds[0].status == Failed && w.metrics == NO_METRICS
  {
    var units := (cfg.accessMin + cfg.coin.minBet) * cfg.scale;
    var flip := Request(1, COIN_FLIP, cfg.coin.minBet, "k", 0.0, 0, Env(0, AfterInsert, false, true));
    var ops := [NewUser(1), Credit(1, units, "grant"), Play(flip)];
    assert ops[..2] == [NewUser(1), Credit(1, units, "grant")];
    assert ops[..2][..1] == [NewUser(1)] && ops[..2][..1][..0] == [];
    var w0 := Run([], cfg);
    assert w0.db == Db({}, map[], [], [], 0) && w0.metrics == NO_METRICS;
    var w1 := Run(ops[..2][..1], cfg);
    assert w1 == Next(w0, cfg, NewUser(1));
    assert w1.db == Db({1}, map[1 := 0], [], [], 0);
    assert units == cfg.accessMin * cfg.scale + cfg.coin.minBet * cfg.scale;
    assert cfg.accessMin * cfg.scale >= 1 && cfg.coin.minBet * cfg.scale >= 1;
    AdjustmentAllowedIff(Context(0, units, false, false));
    var w2 := Run(ops[..2], cfg);
    assert w2.db == Db({1}, map[1 := units], [Entry(1, units, Other("grant"))], [], 0);
    assert StakeGates(w2.db, cfg, flip).None?;
  }
}
