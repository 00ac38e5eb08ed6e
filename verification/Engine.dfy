/** src/casino_bot/games/service.py, policy.py and core/metrics.py: the gates in front of a round
    and the counters behind it, for serial play. */
module Engine {
  import opened Common
  import opened Ledger
  import opened GameRounds
  import opened Games

  const COIN_FLIP := "coin_flip"
  const BONUS_WHEEL := "bonus_wheel"

  /** Clock readings are in microseconds, the resolution of datetime. */
  const SECOND := 1_000_000

  datatype Limits = Limits(minBet: int, maxBet: int, cooldown: int, allowZeroCooldown: bool)

  datatype Settings = Settings(enabled: set<string>, coin: Limits, wheel: Limits, production: bool,
                               accessMin: int, scale: int)
  {
    /** What the settings validators guarantee. */
    predicate Valid() {
      && ValidLimits(coin) && ValidLimits(wheel) && accessMin >= 1 && scale >= 1
    }

    static predicate ValidLimits(l: Limits) {
      1 <= l.minBet <= l.maxBet && l.cooldown >= 0
    }

    predicate HasStakePolicy(game: string) {
      game == COIN_FLIP || game == BONUS_WHEEL
    }

    function LimitsOf(game: string): Limits {
      if game == COIN_FLIP then coin else wheel
    }

    /** In production a zero cooldown means three seconds unless explicitly allowed. */
    function Cooldown(game: string): int {
      var l := LimitsOf(game);
      if !production || l.cooldown > 0 then l.cooldown else if l.allowZeroCooldown then 0 else 3
    }
  }

  /** One call of run_game_detailed. The cooldown is checked at `checkAt`, the round committed
      at `env.now`; `draw` is the random number in [0, 1). */
  datatype Request = Request(user: nat, game: string, bet: int, idem: string, draw: real, checkAt: int, env: Env)
  {
    function Key(): Ledger.Key { Ledger.Key(user, game, idem) }
  }

  datatype Code =
    | GameDisabled | BetBelowMin | BetAboveMax | AccessTokensRequired
    | CooldownActive | InsufficientBalance | UnknownGame

  /** `waitSeconds` is reported with CooldownActive only. `Error` is any other exception. */
  datatype Reply = Refused(code: Code, waitSeconds: int) | Done(round: Round, replay: bool) | Error

  /** The latest commit time of the user's committed rounds of a game. */
  function LastCommitted(rounds: seq<Round>, user: nat, game: string): Option<int> {
    if rounds == [] then None else
    var before := LastCommitted(rounds[..|rounds| - 1], user, game);
    var r := rounds[|rounds| - 1];
    if !PlayedBy(r, user, game) then before
    else if before.Some? && before.value >= r.committedAt.value then before
    else r.committedAt
  }

  predicate PlayedBy(r: Round, user: nat, game: string) {
    r.key.user == user && r.key.game == game && r.status == Committed && r.committedAt.Some?
  }

  /** Microseconds rounded up to whole seconds, at least one. */
  function WaitSeconds(micros: int): int {
    var s := (micros + SECOND - 1) / SECOND;
    if s > 1 then s else 1
  }

  function OutcomeOf(game: string, stake: nat, draw: real): Outcome {
    if game == COIN_FLIP then Flip(stake, draw) else Spin(stake, draw)
  }

  /** The gates that depend on balance and clock; None lets the round through. */
  function StakeGates(db: Db, cfg: Settings, req: Request): Option<Reply> {
    var balance := Balance(db.accounts, req.user);
    var last := LastCommitted(db.rounds, req.user, req.game);
    var cooldown := cfg.Cooldown(req.game);
    if balance < cfg.accessMin * cfg.scale then Some(Refused(AccessTokensRequired, 0))
    else if cooldown > 0 && last.Some? && req.checkAt - last.value < cooldown * SECOND
    then Some(Refused(CooldownActive, WaitSeconds(cooldown * SECOND - (req.checkAt - last.value))))
    else if balance < req.bet * cfg.scale then Some(Refused(InsufficientBalance, 0))
    else None
  }

  function CallOf(cfg: Settings, req: Request): Call
    requires req.bet >= 0 && cfg.scale >= 1
  {
    var outcome := OutcomeOf(req.game, req.bet * cfg.scale, req.draw);
    Call(req.Key(), req.bet, Some(outcome.payout), outcome.name)
  }

  function RunInner(db: Db, cfg: Settings, req: Request): (Db, Reply)
    requires cfg.Valid()
  {
    var l := cfg.LimitsOf(req.game);
    if req.game !in cfg.enabled then (db, Refused(GameDisabled, 0))
    else if cfg.HasStakePolicy(req.game) && req.bet < l.minBet then (db, Refused(BetBelowMin, 0))
    else if cfg.HasStakePolicy(req.game) && req.bet > l.maxBet then (db, Refused(BetAboveMax, 0))
    else
      var existing := Find(db.rounds, req.Key());
      if existing.Some? then (db, Done(existing.value, true))
      else if !cfg.HasStakePolicy(req.game) then (db, Refused(UnknownGame, 0))
      else
        var gate := StakeGates(db, cfg, req);
        if gate.Some? then (db, gate.value)
        else
          var (db', exec) := Execute(db, CallOf(cfg, req), req.env, cfg.scale);
          (db', if exec.Played? then Done(exec.round, false) else Error)
  }

  // ----- counters -----

  type Tag = (string, Status, string)

  /** Payout volume is kept in units: the counter in tokens times the scale. */
  datatype Metrics = Metrics(rounds: map<Tag, int>, refused: map<(string, Code), int>,
                             stake: map<string, int>, payout: map<string, int>, durations: map<string, int>)

  const NO_METRICS := Metrics(map[], map[], map[], map[], map[])

  function Count<K>(counter: map<K, int>, key: K): int {
    if key in counter then counter[key] else 0
  }

  function Bump<K>(counter: map<K, int>, key: K, n: int): map<K, int> {
    counter[key := Count(counter, key) + n]
  }

  function OutcomeLabel(r: Round): string {
    if r.status == Committed && r.outcome in {"win", "lose", "bust", "bronze", "silver", "gold"}
    then r.outcome else "unknown"
  }

  function TagOf(r: Round): Tag {
    (r.key.game, r.status, OutcomeLabel(r))
  }

  function RecordCompletion(m: Metrics, r: Round, replay: bool, scale: int): Metrics
    requires scale >= 1
  {
    var timed := m.(durations := Bump(m.durations, r.key.game, 1));
    if replay then timed
    else
      var counted := timed.(rounds := Bump(m.rounds, TagOf(r), 1));
      if r.status != Committed then counted
      else
        var staked := counted.(stake := Bump(m.stake, r.key.game, r.betUnits / scale));
        if r.payoutUnits > 0 then staked.(payout := Bump(m.payout, r.key.game, r.payoutUnits)) else staked
  }

  function RecordRefusal(m: Metrics, game: string, code: Code): Metrics {
    m.(refused := Bump(m.refused, (game, code), 1), durations := Bump(m.durations, game, 1))
  }

  function Record(m: Metrics, game: string, reply: Reply, scale: int): Metrics
    requires scale >= 1
  {
    match reply
    case Refused(code, _) => RecordRefusal(m, game, code)
    case Done(r, replay) => RecordCompletion(m, r, replay, scale)
    case Error => m
  }

  // ----- the engine as the code has it -----

  class GameEngine {
    const cfg: Settings
    const store: Store
    var metrics: Metrics

    constructor (cfg: Settings, store: Store)
      requires cfg.Valid() && store.scale == cfg.scale
      ensures this.cfg == cfg && this.store == store && metrics == NO_METRICS
    {
      this.cfg := cfg;
      this.store := store;
      metrics := NO_METRICS;
    }

    method LastCommittedAt(user: nat, game: string) returns (last: Option<int>)
      ensures last == LastCommitted(store.rounds, user, game)
    {
      last := None;
      for i := 0 to |store.rounds|
        invariant last == LastCommitted(store.rounds[..i], user, game)
      {
        var r := store.rounds[i];
        assert store.rounds[..i + 1][..i] == store.rounds[..i];
        if PlayedBy(r, user, game) && (last.None? || last.value < r.committedAt.value) {
          last := r.committedAt;
        }
      }
      assert store.rounds[..|store.rounds|] == store.rounds;
    }

    method DrawOutcome(game: string, stake: nat, draw: real) returns (o: Outcome)
      requires 0.0 <= draw < 1.0
      ensures o == OutcomeOf(game, stake, draw)
    {
      if game == COIN_FLIP {
        if draw < 0.5 {
          o := Outcome("win", stake);
        } else {
          o := Outcome("lose", 0 - stake);
        }
      } else {
        o := WheelOutcome(stake, draw);
      }
    }

    method RunGameInner(req: Request) returns (reply: Reply)
      requires cfg.Valid() && store.scale == cfg.scale && 0.0 <= req.draw < 1.0
      modifies store
      ensures (store.State(), reply) == RunInner(old(store.State()), cfg, req)
    {
      if req.game !in cfg.enabled {
        return Refused(GameDisabled, 0);
      }
      var limited := cfg.HasStakePolicy(req.game);
      var limits := cfg.LimitsOf(req.game);
      if limited {
        if req.bet < limits.minBet {
          return Refused(BetBelowMin, 0);
        }
        if req.bet > limits.maxBet {
          return Refused(BetAboveMax, 0);
        }
      }
      var existing := store.FindRound(req.Key());
      if existing.Some? {
        return Done(existing.value, true);
      }
      if !limited {
        return Refused(UnknownGame, 0);
      }
      var balance := if req.user in store.accounts then store.accounts[req.user] else 0;
      if balance < cfg.accessMin * cfg.scale {
        return Refused(AccessTokensRequired, 0);
      }
      var cooldown := cfg.Cooldown(req.game);
      if cooldown > 0 {
        var last := LastCommittedAt(req.user, req.game);
        if last.Some? {
          var elapsed := req.checkAt - last.value;
          if elapsed < cooldown * SECOND {
            return Refused(CooldownActive, WaitSeconds(cooldown * SECOND - elapsed));
          }
        }
      }
      var stake := req.bet * cfg.scale;
      if balance < stake {
        return Refused(InsufficientBalance, 0);
      }
      assert StakeGates(store.State(), cfg, req).None?;
      var outcome := DrawOutcome(req.game, stake, req.draw);
      var exec := store.ExecuteGameRound(Call(req.Key(), req.bet, Some(outcome.payout), outcome.name), req.env);
      if !exec.Played? {
        return Error;
      }
      return Done(exec.round, false);
    }

    method RunGameDetailed(req: Request) returns (reply: Reply)
      requires cfg.Valid() && store.scale == cfg.scale && 0.0 <= req.draw < 1.0
      modifies this, store
      ensures (store.State(), reply) == RunInner(old(store.State()), cfg, req)
      ensures metrics == Record(old(metrics), req.game, reply, cfg.scale)
    {
      reply := RunGameInner(req);
      match reply
      case Refused(code, _) =>
        metrics := RecordRefusal(metrics, req.game, code);
      case Done(r, replay) =>
        metrics := metrics.(durations := Bump(metrics.durations, r.key.game, 1));
        if !replay {
          metrics := metrics.(rounds := Bump(metrics.rounds, TagOf(r), 1));
          if r.status == Committed {
            metrics := metrics.(stake := Bump(metrics.stake, r.key.game, r.betUnits / cfg.scale));
            if r.payoutUnits > 0 {
              metrics := metrics.(payout := Bump(metrics.payout, r.key.game, r.payoutUnits));
            }
          }
        }
      case Error =>
    }
  }
}
