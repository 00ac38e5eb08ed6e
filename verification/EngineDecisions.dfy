/** Which plays the game engine refuses, and what its counters of refusals, durations and outcomes
    say about a run. */
module EngineDecisions {
  import opened Common
  import opened Ledger
  import opened Engine
  import opened EngineLaws
  import Protocol = RoundProtocol

  // ----- the gates as a table -----

  /** A committed round of the user and the game lies less than the cooldown back. */
  ghost predicate TooSoon(db: Db, req: Request, cooldown: int) {
    exists r :: r in db.rounds && r.key.user == req.user && r.key.game == req.game && r.status == Committed
             && r.committedAt.Some? && req.checkAt - r.committedAt.value < cooldown * 1_000_000
  }

  /** Why a play is refused, if it is: the first row of this table that applies. A stored round is
      returned before balance and cooldown are looked at, but not before the bet's limits are. */
  ghost function Verdict(db: Db, cfg: Settings, req: Request): Option<Code> {
    var l := if req.game == "coin_flip" then cfg.coin else cfg.wheel;
    var known := req.game == "coin_flip" || req.game == "bonus_wheel";
    var balance := if req.user in db.accounts then db.accounts[req.user] else 0;
    var cooldown := if cfg.production && l.cooldown == 0 && !l.allowZeroCooldown then 3 else l.cooldown;
    if req.game !in cfg.enabled then Some(GameDisabled)
    else if known && req.bet < l.minBet then Some(BetBelowMin)
    else if known && req.bet > l.maxBet then Some(BetAboveMax)
    else if exists r :: r in db.rounds && r.key == Key(req.user, req.game, req.idem) then None
    else if !known then Some(UnknownGame)
    else if balance < cfg.accessMin * cfg.scale then Some(AccessTokensRequired)
    else if cooldown > 0 && TooSoon(db, req, cooldown) then Some(CooldownActive)
    else if balance < req.bet * cfg.scale then Some(InsufficientBalance)
    else None
  }

  lemma {:induction false} LastIsPlayed(rounds: seq<Round>, user: nat, game: string)
    requires LastCommitted(rounds, user, game).Some?
    ensures exists r :: r in rounds && PlayedBy(r, user, game)
                     && r.committedAt == LastCommitted(rounds, user, game)
  {
    var n := |rounds| - 1;
    var r := rounds[n];
    if PlayedBy(r, user, game) && LastCommitted(rounds, user, game) == r.committedAt {
      assert r in rounds;
    } else {
      LastIsPlayed(rounds[..n], user, game);
      var q :| q in rounds[..n] && PlayedBy(q, user, game) && q.committedAt == LastCommitted(rounds, user, game);
      assert q in rounds;
    }
  }

  lemma TooSoonIff(db: Db, req: Request, cooldown: int)
    ensures var last := LastCommitted(db.rounds, req.user, req.game);
      TooSoon(db, req, cooldown) <==> last.Some? && req.checkAt - last.value < cooldown * SECOND
  {
    var last := LastCommitted(db.rounds, req.user, req.game);
    LastIsLatest(db.rounds, req.user, req.game);
    if last.Some? {
      LastIsPlayed(db.rounds, req.user, req.game);
      var r :| r in db.rounds && PlayedBy(r, req.user, req.game) && r.committedAt == last;
    }
  }

  /** A play is refused exactly as the table says, without any effect; a wait is reported with the
      cooldown only. */
  lemma RefusedIff(db: Db, cfg: Settings, req: Request)
    requires cfg.Valid()
    ensures var (db', reply) := RunInner(db, cfg, req);
      && (reply.Refused? <==> Verdict(db, cfg, req).Some?)
      && (reply.Refused? ==> db' == db && Some(reply.code) == Verdict(db, cfg, req))
      && (reply.Refused? && reply.code != CooldownActive ==> reply.waitSeconds == 0)
  {
    Protocol.FindFinds(db.rounds, req.Key());
    TooSoonIff(db, req, cfg.Cooldown(req.game));
  }

  // ----- counters of refusals and durations -----

  /** The plays of a game that a run refused with a code. */
  ghost function RefusedPlays(ops: seq<Op>, cfg: Settings, game: string, code: Code): nat
    requires cfg.Valid()
  {
    if ops == [] then 0 else
    var rest, op := ops[..|ops| - 1], ops[|ops| - 1];
    RefusedPlays(rest, cfg, game, code)
    + if op.Play? && op.req.game == game && Verdict(Run(rest, cfg).db, cfg, op.req) == Some(code) then 1 else 0
  }

  /** The plays of a game that ended in a refusal or in a round, not in an exception. */
  ghost function AnsweredPlays(ops: seq<Op>, cfg: Settings, game: string): nat
    requires cfg.Valid()
  {
    if ops == [] then 0 else
    var rest, op := ops[..|ops| - 1], ops[|ops| - 1];
    AnsweredPlays(rest, cfg, game)
    + if op.Play? && op.req.game == game && RunInner(Run(rest, cfg).db, cfg, op.req).1 != Error then 1 else 0
  }

  /** A reported round is a round of the game that was played. */
  lemma ReportedGame(db: Db, cfg: Settings, req: Request)
    requires cfg.Valid() && RunInner(db, cfg, req).1.Done?
    ensures RunInner(db, cfg, req).1.round.key.game == req.game
  {
    ReportedIsStored(db, cfg, req);
    Protocol.FindFinds(RunInner(db, cfg, req).0.rounds, req.Key());
  }

  lemma RefusalRecorded(m: Metrics, game: string, reply: Reply, scale: int, asked: string, code: Code)
    requires scale >= 1
    ensures Count(Record(m, game, reply, scale).refused, (asked, code))
         == Count(m.refused, (asked, code)) + if game == asked && reply.Refused? && reply.code == code then 1 else 0
  {
  }

  lemma DurationRecorded(m: Metrics, game: string, reply: Reply, scale: int, asked: string)
    requires scale >= 1 && (reply.Done? ==> reply.round.key.game == game)
    ensures Count(Record(m, game, reply, scale).durations, asked)
         == Count(m.durations, asked) + if game == asked && reply != Error then 1 else 0
  {
    match reply
    case Refused(_, _) =>
    case Done(r, replay) => TimedOnce(m, r, replay, scale);
    case Error =>
  }

  lemma TimedOnce(m: Metrics, r: Round, replay: bool, scale: int)
    requires scale >= 1
    ensures RecordCompletion(m, r, replay, scale).durations == Bump(m.durations, r.key.game, 1)
  {
  }

  /** After every serial run each refusal is counted once, by game and code, and the duration of
      each answered play is observed once. */
  lemma {:induction false} RefusalsCounted(ops: seq<Op>, cfg: Settings, game: string, code: Code)
    requires cfg.Valid()
    ensures Count(Run(ops, cfg).metrics.refused, (game, code)) == RefusedPlays(ops, cfg, game, code)
    ensures Count(Run(ops, cfg).metrics.durations, game) == AnsweredPlays(ops, cfg, game)
  {
    if ops != [] {
      var rest, op := ops[..|ops| - 1], ops[|ops| - 1];
      RefusalsCounted(rest, cfg, game, code);
      if op.Play? {
        var w := Run(rest, cfg);
        RefusedIff(w.db, cfg, op.req);
        var reply := RunInner(w.db, cfg, op.req).1;
        if reply.Done? {
          ReportedGame(w.db, cfg, op.req);
        }
        RefusalRecorded(w.metrics, op.req.game, reply, cfg.scale, game, code);
        DurationRecorded(w.metrics, op.req.game, reply, cfg.scale, game);
        assert Run(ops, cfg).metrics == Record(w.metrics, op.req.game, reply, cfg.scale);
      }
    }
  }

  // ----- counters of outcomes -----

  /** The rounds of a game with a status and, of the committed ones, an outcome. */
  function Rounds(rounds: seq<Round>, game: string, status: Status, outcome: Option<string>): nat {
    if rounds == [] then 0 else
    var r := rounds[|rounds| - 1];
    Rounds(rounds[..|rounds| - 1], game, status, outcome)
    + if r.key.game == game && r.status == status && (outcome.Some? ==> r.outcome == outcome.value) then 1 else 0
  }

  lemma {:induction false} RowsByOutcome(rounds: seq<Round>, game: string, outcome: string)
    requires outcome in {"win", "lose", "bust", "bronze", "silver", "gold"}
    ensures RowCount(rounds, (game, Committed, outcome)) == Rounds(rounds, game, Committed, Some(outcome))
  {
    assert |"unknown"| == 7 && |outcome| < 7;
    if rounds != [] {
      RowsByOutcome(rounds[..|rounds| - 1], game, outcome);
    }
  }

  lemma {:induction false} RejectedRows(rounds: seq<Round>, game: string)
    ensures RowCount(rounds, (game, Rejected, "unknown")) == Rounds(rounds, game, Rejected, None)
  {
    if rounds != [] {
      RejectedRows(rounds[..|rounds| - 1], game);
    }
  }

  /** After every serial run the counters show, for each game, how many committed rounds ended
      with each of the six outcomes, and how many rounds were rejected. */
  lemma OutcomesCounted(ops: seq<Op>, cfg: Settings, game: string)
    requires cfg.Valid()
    ensures var w := Run(ops, cfg);
      && Count(w.metrics.rounds, (game, Rejected, "unknown")) == Rounds(w.db.rounds, game, Rejected, None)
      && forall outcome :: outcome in {"win", "lose", "bust", "bronze", "silver", "gold"} ==>
           Count(w.metrics.rounds, (game, Committed, outcome))
             == Rounds(w.db.rounds, game, Committed, Some(outcome))
  {
    var w := Run(ops, cfg);
    CountersAgree(ops, cfg);
    RejectedRows(w.db.rounds, game);
    var rejected: Tag := (game, Rejected, "unknown");
    assert Count(w.metrics.rounds, rejected) == RowCount(w.db.rounds, rejected);
    forall outcome | outcome in {"win", "lose", "bust", "bronze", "silver", "gold"}
      ensures Count(w.metrics.rounds, (game, Committed, outcome))
           == Rounds(w.db.rounds, game, Committed, Some(outcome))
    {
      OutcomeCounted(w.metrics, w.db.rounds, cfg.scale, game, outcome);
    }
  }

  lemma OutcomeCounted(m: Metrics, rounds: seq<Round>, scale: int, game: string, outcome: string)
    requires Agrees(m, rounds, scale) && outcome in {"win", "lose", "bust", "bronze", "silver", "gold"}
    ensures Count(m.rounds, (game, Committed, outcome)) == Rounds(rounds, game, Committed, Some(outcome))
  {
    RowsByOutcome(rounds, game, outcome);
    var tag: Tag := (game, Committed, outcome);
    assert Count(m.rounds, tag) == RowCount(rounds, tag);
  }
}
