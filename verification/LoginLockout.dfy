/** src/casino_bot/admin/security_service.py: login failures, lockout and the login decision. */
module LoginLockout {
  import opened Common

  /** Clock readings and settings in one unit of time. */
  datatype Settings = Settings(maxAttempts: int, window: int, lockout: int)

  datatype Row = Row(attempts: int, first: int, last: int, lockedUntil: Option<int>)

  /** One row per (identity, ip address). */
  type Rows = map<(string, string), Row>

  datatype Outcome = Blocked | Refused | LoggedIn

  predicate LockApplies(key: (string, string), identity: string, ip: string) {
    key.0 == identity && (ip == "" || key.1 == ip || key.1 == "*")
  }

  predicate LockedAt(row: Row, now: int) {
    row.lockedUntil.Some? && row.lockedUntil.value > now
  }

  predicate ActiveLock(rows: Rows, identity: string, ip: string, now: int) {
    exists key :: key in rows && LockApplies(key, identity, ip) && LockedAt(rows[key], now)
  }

  /** A row after one more failed verification. */
  function Failed(row: Row, cfg: Settings, now: int): Row {
    var counted :=
      if row.first < now - cfg.window then row.(attempts := 1, first := now)
      else row.(attempts := row.attempts + 1);
    var stamped := counted.(last := now);
    if stamped.attempts >= cfg.maxAttempts then stamped.(lockedUntil := Some(now + cfg.lockout)) else stamped
  }

  function RowOf(rows: Rows, identity: string, ip: string, now: int): Row {
    if (identity, ip) in rows then rows[(identity, ip)] else Row(0, now, now, None)
  }

  function RecordFailure(rows: Rows, cfg: Settings, identity: string, ip: string, now: int): Rows {
    rows[(identity, ip) := Failed(RowOf(rows, identity, ip, now), cfg, now)]
  }

  /** The two clock readings at which a row's first and last attempt are reset. */
  type Readings = map<(string, string), (int, int)>

  function ClearedRow(key: (string, string), clock: Readings, now: int): Row {
    if key in clock then Row(0, clock[key].0, clock[key].1, None) else Row(0, now, now, None)
  }

  function ClearFailures(rows: Rows, identity: string, clock: Readings, now: int): Rows {
    map key | key in rows :: if key.0 == identity then ClearedRow(key, clock, now) else rows[key]
  }

  /** The rows while those in `todo` still wait to be cleared. */
  function Cleared(rows: Rows, identity: string, todo: set<(string, string)>, clock: Readings, now: int): Rows {
    map key | key in rows ::
      if key.0 == identity && key !in todo then ClearedRow(key, clock, now) else rows[key]
  }

  lemma ClearedStep(rows: Rows, identity: string, todo: set<(string, string)>,
      key: (string, string), clock: Readings, now: int)
    requires key in todo && key in rows && key.0 == identity
    ensures Cleared(rows, identity, todo - {key}, clock, now)
         == Cleared(rows, identity, todo, clock, now)[key := ClearedRow(key, clock, now)]
  {
  }

  /** One login attempt. The lock is checked at one clock reading and the attempt recorded at a
      later one; a login resets its rows at readings of their own, given by `clock` where they
      differ from `actAt`. `good` says whether the account exists, is active and the password
      matches. */
  datatype Attempt = Attempt(identity: string, ip: string, good: bool, checkAt: int, actAt: int, clock: Readings)

  function Login(rows: Rows, cfg: Settings, a: Attempt): (Rows, Outcome) {
    if ActiveLock(rows, a.identity, SafeIp(a.ip), a.checkAt) then (rows, Blocked)
    else if !a.good then (RecordFailure(rows, cfg, a.identity, SafeIp(a.ip), a.actAt), Refused)
    else (ClearFailures(rows, a.identity, a.clock, a.actAt), LoggedIn)
  }

  function SafeIp(ip: string): string {
    if ip == "" then "unknown" else ip
  }

  /** The lock table, changed in place. */
  class LockTable {
    var rows: Rows
    const cfg: Settings

    constructor (cfg: Settings)
      ensures rows == map[] && this.cfg == cfg
    {
      this.cfg := cfg;
      rows := map[];
    }

    method RecordLoginFailure(identity: string, ip: string, now: int)
      modifies this
      ensures rows == RecordFailure(old(rows), cfg, identity, ip, now)
    {
      var key := (identity, ip);
      if key !in rows {
        rows := rows[key := Row(0, now, now, None)];
      }
      var row := rows[key];
      var windowStart := now - cfg.window;
      if row.first < windowStart {
        row := row.(first := now, attempts := 1);
      } else {
        row := row.(attempts := row.attempts + 1);
      }
      row := row.(last := now);
      if row.attempts >= cfg.maxAttempts {
        row := row.(lockedUntil := Some(now + cfg.lockout));
      }
      rows := rows[key := row];
      assert rows == old(rows)[key := row];
    }

    method ClearLoginFailures(identity: string, clock: Readings, now: int)
      modifies this
      ensures rows == ClearFailures(old(rows), identity, clock, now)
    {
      var all := rows;
      var todo := set key | key in all && key.0 == identity;
      while todo != {}
        invariant todo <= all.Keys && forall key :: key in todo ==> key.0 == identity
        invariant rows == Cleared(all, identity, todo, clock, now)
        decreases |todo|
      {
        var key :| key in todo;
        var firstAt, lastAt := now, now;
        if key in clock {
          firstAt, lastAt := clock[key].0, clock[key].1;
        }
        rows := rows[key := rows[key].(attempts := 0, first := firstAt, last := lastAt, lockedUntil := None)];
        ClearedStep(all, identity, todo, key, clock, now);
        todo := todo - {key};
      }
    }

    method PerformAdminLogin(a: Attempt) returns (outcome: Outcome)
      modifies this
      ensures (rows, outcome) == Login(old(rows), cfg, a)
    {
      var ip := if a.ip == "" then "unknown" else a.ip;
      if ActiveLock(rows, a.identity, ip, a.checkAt) {
        return Blocked;
      }
      if !a.good {
        RecordLoginFailure(a.identity, ip, a.actAt);
        return Refused;
      }
      ClearLoginFailures(a.identity, a.clock, a.actAt);
      return LoggedIn;
    }
  }

  // ----- one attempt -----

  /** The address is locked for the identity: its own row, or the row for all addresses, has a lock
      that ends after `now`. */
  ghost predicate LockedOut(rows: Rows, identity: string, address: string, now: int) {
    exists ip :: ip in {address, "*"} && (identity, ip) in rows
              && rows[(identity, ip)].lockedUntil.Some? && rows[(identity, ip)].lockedUntil.value > now
  }

  /** An attempt is blocked exactly when its own identity is locked for its address, a missing one
      counting as "unknown"; nobody else's lock matters. Otherwise the credentials decide. */
  lemma AttemptMeans(rows: Rows, cfg: Settings, a: Attempt)
    ensures var address := if a.ip == "" then "unknown" else a.ip;
            var outcome := Login(rows, cfg, a).1;
      && (outcome == Blocked <==> LockedOut(rows, a.identity, address, a.checkAt))
      && (outcome == Refused <==> !LockedOut(rows, a.identity, address, a.checkAt) && !a.good)
      && (outcome == LoggedIn <==> !LockedOut(rows, a.identity, address, a.checkAt) && a.good)
  {
    var address := SafeIp(a.ip);
    if ActiveLock(rows, a.identity, address, a.checkAt) {
      var key :| key in rows && LockApplies(key, a.identity, address) && LockedAt(rows[key], a.checkAt);
      assert key == (a.identity, key.1) && key.1 in {address, "*"};
    }
    if ip :| ip in {address, "*"} && (a.identity, ip) in rows && LockedAt(rows[(a.identity, ip)], a.checkAt) {
      assert LockApplies((a.identity, ip), a.identity, address);
    }
  }

  /** What an attempt writes: nothing when blocked; one row, for its identity and address, when
      refused; and a login empties and unlocks every row of its identity and no other. */
  lemma AttemptWrites(rows: Rows, cfg: Settings, a: Attempt)
    ensures var (rows', outcome) := Login(rows, cfg, a);
            var own := (a.identity, if a.ip == "" then "unknown" else a.ip);
      && (outcome == Blocked ==> rows' == rows)
      && (outcome == Refused ==>
            rows'.Keys == rows.Keys + {own} && forall key :: key in rows && key != own ==> rows'[key] == rows[key])
      && (outcome == LoggedIn ==> rows'.Keys == rows.Keys && forall key :: key in rows ==>
            if key.0 == a.identity then rows'[key].attempts == 0 && rows'[key].lockedUntil.None?
            else rows'[key] == rows[key])
  {
  }

  /** What one more failure makes of a row: it is counted, or starts a new count when the count's
      start is out of the window; reaching the maximum locks the row for one lockout. */
  lemma FailureMeans(rows: Rows, cfg: Settings, identity: string, ip: string, now: int)
    ensures var key := (identity, ip);
            var row' := RecordFailure(rows, cfg, identity, ip, now)[key];
            var continues := key in rows && now - rows[key].first <= cfg.window;
      && row'.attempts == (if continues then rows[key].attempts + 1 else 1)
      && row'.first == (if continues then rows[key].first else now) && row'.last == now
      && row'.lockedUntil == if row'.attempts >= cfg.maxAttempts then Some(now + cfg.lockout)
                             else if key in rows then rows[key].lockedUntil else None
  {
  }

  // ----- serial runs -----

  function Run(rows: Rows, attempts: seq<Attempt>, cfg: Settings): (r: (Rows, seq<Outcome>))
    ensures |r.1| == |attempts|
  {
    if attempts == [] then (rows, []) else
    var (before, outcomes) := Run(rows, attempts[..|attempts| - 1], cfg);
    var (after, outcome) := Login(before, cfg, attempts[|attempts| - 1]);
    (after, outcomes + [outcome])
  }

  /** The attempts follow one another on a non-decreasing clock and all end by `now`. */
  ghost predicate InOrder(attempts: seq<Attempt>, now: int) {
    if attempts == [] then true else
    var last := attempts[|attempts| - 1];
    && last.checkAt <= last.actAt <= now && ClockWithin(last.clock, last.actAt, now)
    && InOrder(attempts[..|attempts| - 1], last.checkAt)
  }

  ghost predicate ClockWithin(clock: Readings, from: int, to: int) {
    forall key :: key in clock ==> from <= clock[key].0 <= clock[key].1 <= to
  }

  /** Failed verifications for one (identity, ip) in the closed interval [from, to]. */
  function RefusedWithin(attempts: seq<Attempt>, outcomes: seq<Outcome>, identity: string, ip: string,
      from: int, to: int): nat
    requires |outcomes| == |attempts|
  {
    if attempts == [] then 0 else
    var n := |attempts| - 1;
    RefusedWithin(attempts[..n], outcomes[..n], identity, ip, from, to)
    + if outcomes[n] == Refused && attempts[n].identity == identity && SafeIp(attempts[n].ip) == ip
         && from <= attempts[n].actAt <= to then 1 else 0
  }

  /** No successful login for the identity in the closed interval [from, to]. */
  ghost predicate NoLoginWithin(attempts: seq<Attempt>, outcomes: seq<Outcome>, identity: string, from: int, to: int)
    requires |outcomes| == |attempts|
  {
    forall i :: 0 <= i < |attempts| && outcomes[i] == LoggedIn && attempts[i].identity == identity ==>
      !(from <= attempts[i].actAt <= to)
  }

  function EffectiveMax(cfg: Settings): (m: int)
    ensures m >= 1 && m >= cfg.maxAttempts
  {
    if cfg.maxAttempts > 1 then cfg.maxAttempts else 1
  }

  /** Failed verifications of one client at the given times. */
  function Failures(identity: string, ip: string, times: seq<int>): seq<Attempt> {
    seq(|times|, i requires 0 <= i < |times| => Attempt(identity, ip, false, times[i], times[i], map[]))
  }

  ghost predicate WithinWindow(times: seq<int>, cfg: Settings) {
    && (forall i, j :: 0 <= i < j < |times| ==> times[i] <= times[j])
    && (times != [] ==> times[|times| - 1] - times[0] <= cfg.window)
  }

  /** The identity's only row after those failures, from an identity without any row. */
  ghost predicate Counted(rows: Rows, rows': Rows, cfg: Settings, key: (string, string), times: seq<int>) {
    && rows'.Keys == rows.Keys + (if times == [] then {} else {key})
    && (forall k :: k in rows ==> rows'[k] == rows[k])
    && (times != [] ==> rows'[key] == Row(|times|, times[0], times[|times| - 1],
          if |times| == EffectiveMax(cfg) then Some(times[|times| - 1] + cfg.lockout) else None))
  }

  lemma {:induction false} FailuresAreCounted(rows: Rows, cfg: Settings, identity: string, ip: string, times: seq<int>)
    requires ip != "" && (forall key :: key in rows ==> key.0 != identity)
    requires WithinWindow(times, cfg) && |times| <= EffectiveMax(cfg)
    ensures var (rows', outcomes) := Run(rows, Failures(identity, ip, times), cfg);
      && Counted(rows, rows', cfg, (identity, ip), times)
      && (forall i :: 0 <= i < |times| ==> outcomes[i] == Refused)
  {
    if times != [] {
      var n := |times| - 1;
      FailuresAreCounted(rows, cfg, identity, ip, times[..n]);
      FailuresPrefix(identity, ip, times);
      var (before, outcomes) := Run(rows, Failures(identity, ip, times[..n]), cfg);
      CountsOneMore(rows, before, cfg, identity, ip, times);
      assert Run(rows, Failures(identity, ip, times), cfg).1 == outcomes + [Refused];
    }
  }

  lemma FailuresPrefix(identity: string, ip: string, times: seq<int>)
    requires times != []
    ensures var n, all := |times| - 1, Failures(identity, ip, times);
      && |all| == n + 1 && all[..n] == Failures(identity, ip, times[..n])
      && all[n] == Attempt(identity, ip, false, times[n], times[n], map[])
  {
  }

  lemma CountsOneMore(rows: Rows, before: Rows, cfg: Settings, identity: string, ip: string, times: seq<int>)
    requires ip != "" && (forall key :: key in rows ==> key.0 != identity)
    requires times != [] && WithinWindow(times, cfg) && |times| <= EffectiveMax(cfg)
    requires Counted(rows, before, cfg, (identity, ip), times[..|times| - 1])
    ensures var at := times[|times| - 1];
            var (after, outcome) := Login(before, cfg, Attempt(identity, ip, false, at, at, map[]));
      outcome == Refused && Counted(rows, after, cfg, (identity, ip), times)
  {
    var at := times[|times| - 1];
    var a := Attempt(identity, ip, false, at, at, map[]);
    assert !LockedOut(before, identity, ip, at);
    AttemptMeans(before, cfg, a);
    AttemptWrites(before, cfg, a);
    FailureMeans(before, cfg, identity, ip, at);
  }

  /** The promise of the lockout. A client that fails n times within one window is blocked
      afterwards exactly when n has reached the maximum, and then for one lockout from its last
      failure; before that every failure is merely refused. */
  lemma LocksAtMaximum(rows: Rows, cfg: Settings, identity: string, ip: string, times: seq<int>, a: Attempt)
    requires ip != "" && (forall key :: key in rows ==> key.0 != identity)
    requires WithinWindow(times, cfg) && 1 <= |times| <= EffectiveMax(cfg)
    requires a.identity == identity && a.ip == ip
    ensures var (rows', outcomes) := Run(rows, Failures(identity, ip, times), cfg);
      && (forall i :: 0 <= i < |times| ==> outcomes[i] == Refused)
      && (Login(rows', cfg, a).1 == Blocked
          <==> |times| == EffectiveMax(cfg) && a.checkAt < times[|times| - 1] + cfg.lockout)
  {
    FailuresAreCounted(rows, cfg, identity, ip, times);
    AttemptMeans(Run(rows, Failures(identity, ip, times), cfg).0, cfg, a);
  }

  /** The row's own books: it never counts past the maximum, and at the maximum it is locked
      for one lockout from its last failure. */
  ghost predicate Booked(row: Row, cfg: Settings, now: int) {
    && 0 <= row.attempts <= EffectiveMax(cfg)
    && row.first <= row.last <= now
    && (row.attempts == EffectiveMax(cfg) ==> row.lockedUntil == Some(row.last + cfg.lockout))
  }

  /** How the number of failures so far in [from, from + window] shows in the row. */
  ghost predicate Explains(row: Row, cfg: Settings, count: nat, from: int) {
    && (count > 0 ==> row.last >= from)
    && (row.first < from ==> count <= row.attempts)
    && (row.first >= from ==> count <= EffectiveMax(cfg) - 1 + row.attempts)
  }

  /** One more failure, allowed because no lock was active, keeps the books. */
  lemma FailureKeepsBooks(row: Row, cfg: Settings, checkAt: int, now: int)
    requires Booked(row, cfg, checkAt) && !LockedAt(row, checkAt) && checkAt <= now
    requires cfg.lockout > cfg.window
    ensures Booked(Failed(row, cfg, now), cfg, now)
  {
  }

  lemma FailureKeepsCount(row: Row, cfg: Settings, count: nat, from: int, checkAt: int, now: int)
    requires Booked(row, cfg, checkAt) && !LockedAt(row, checkAt) && checkAt <= now
    requires cfg.lockout > cfg.window && from <= now <= from + cfg.window
    requires Explains(row, cfg, count, from)
    ensures Explains(Failed(row, cfg, now), cfg, count + 1, from)
  {
  }

  ghost predicate Invariant(rows: Rows, cfg: Settings, identity: string, ip: string, count: nat, from: int, now: int) {
    && count <= 2 * EffectiveMax(cfg) - 1
    && ((identity, ip) !in rows ==> count == 0)
    && (forall key :: key in rows ==> Booked(rows[key], cfg, now))
    && ((identity, ip) in rows && now <= from + cfg.window ==> Explains(rows[(identity, ip)], cfg, count, from))
    && (now < from ==> count == 0)
  }

  lemma {:induction false} RunInvariant(attempts: seq<Attempt>, cfg: Settings, identity: string, ip: string,
      from: int, now: int)
    requires cfg.lockout > cfg.window && InOrder(attempts, now)
    requires NoLoginWithin(attempts, Run(map[], attempts, cfg).1, identity, from, from + cfg.window)
    ensures var (rows, outcomes) := Run(map[], attempts, cfg);
            Invariant(rows, cfg, identity, ip,
                      RefusedWithin(attempts, outcomes, identity, ip, from, from + cfg.window), from, now)
  {
    if attempts != [] {
      var n := |attempts| - 1;
      var rest, a := attempts[..n], attempts[n];
      var (rows, outcomes) := Run(map[], rest, cfg);
      var (rows', outcomes') := Run(map[], attempts, cfg);
      assert outcomes'[..n] == outcomes;
      assert forall i :: 0 <= i < n ==> outcomes'[i] == outcomes[i] && attempts[i] == rest[i];
      RunInvariant(rest, cfg, identity, ip, from, a.checkAt);
      StepInvariant(rows, cfg, a, identity, ip,
        RefusedWithin(rest, outcomes, identity, ip, from, from + cfg.window), from, now);
    }
  }

  lemma StepInvariant(rows: Rows, cfg: Settings, a: Attempt, identity: string, ip: string,
      count: nat, from: int, now: int)
    requires cfg.lockout > cfg.window && a.checkAt <= a.actAt <= now && ClockWithin(a.clock, a.actAt, now)
    requires Invariant(rows, cfg, identity, ip, count, from, a.checkAt)
    requires Login(rows, cfg, a).1 == LoggedIn && a.identity == identity ==> !(from <= a.actAt <= from + cfg.window)
    ensures var (rows', outcome) := Login(rows, cfg, a);
            var hit := outcome == Refused && a.identity == identity && SafeIp(a.ip) == ip
                       && from <= a.actAt <= from + cfg.window;
            Invariant(rows', cfg, identity, ip, if hit then count + 1 else count, from, now)
  {
    if Login(rows, cfg, a).1 == Refused {
      FailureKeepsInvariant(rows, cfg, a, identity, ip, count, from, now);
    }
  }

  lemma FailureKeepsInvariant(rows: Rows, cfg: Settings, a: Attempt, identity: string, ip: string,
      count: nat, from: int, now: int)
    requires cfg.lockout > cfg.window && a.checkAt <= a.actAt <= now
    requires Invariant(rows, cfg, identity, ip, count, from, a.checkAt) && Login(rows, cfg, a).1 == Refused
    ensures var hit := a.identity == identity && SafeIp(a.ip) == ip && from <= a.actAt <= from + cfg.window;
      Invariant(Login(rows, cfg, a).0, cfg, identity, ip, if hit then count + 1 else count, from, now)
  {
    var rows' := Login(rows, cfg, a).0;
    var key := (a.identity, SafeIp(a.ip));
    var row := RowOf(rows, a.identity, SafeIp(a.ip), a.actAt);
    assert key in rows ==> LockApplies(key, a.identity, SafeIp(a.ip));
    assert rows' == rows[key := Failed(row, cfg, a.actAt)];
    if key in rows {
      FailureKeepsBooks(row, cfg, a.checkAt, a.actAt);
      if key == (identity, ip) && from <= a.actAt <= from + cfg.window {
        FailureKeepsCount(row, cfg, count, from, a.checkAt, a.actAt);
      }
    }
  }

  /** With a lockout longer than the attempt window, any stretch of one window's length in
      which the identity never logs in holds at most 2 * max - 1 failed verifications for one
      (identity, ip). */
  lemma LockoutBound(attempts: seq<Attempt>, cfg: Settings, identity: string, ip: string, from: int, now: int)
    requires cfg.lockout > cfg.window && InOrder(attempts, now)
    requires NoLoginWithin(attempts, Run(map[], attempts, cfg).1, identity, from, from + cfg.window)
    ensures RefusedWithin(attempts, Run(map[], attempts, cfg).1, identity, ip, from, from + cfg.window)
         <= 2 * EffectiveMax(cfg) - 1
  {
    RunInvariant(attempts, cfg, identity, ip, from, now);
  }

  // ----- the bound needs lockout > window -----

  function Bad(at: int): Attempt {
    Attempt("a", "b", false, at, at, map[])
  }

  function FailedTimes(row: Row, cfg: Settings, n: nat, at: int): Row {
    if n == 0 then row else Failed(FailedTimes(row, cfg, n - 1, at), cfg, at)
  }

  /** The situation after some attempts by one client: its row, and its failures since `from`. */
  ghost predicate Stands(attempts: seq<Attempt>, cfg: Settings, row: Row, from: int, to: int, now: int, count: nat) {
    var (rows, outcomes) := Run(map[], attempts, cfg);
    && rows == map[("a", "b") := row]
    && InOrder(attempts, now)
    && NoLoginWithin(attempts, outcomes, "a", from, to)
    && RefusedWithin(attempts, outcomes, "a", "b", from, to) == count
  }

  lemma OneMore(attempts: seq<Attempt>, cfg: Settings, row: Row, from: int, to: int, now: int, count: nat, at: int)
    requires Stands(attempts, cfg, row, from, to, now, count) && now <= at && from <= at <= to && !LockedAt(row, at)
    ensures Stands(attempts + [Bad(at)], cfg, Failed(row, cfg, at), from, to, at, count + 1)
  {
    var longer := attempts + [Bad(at)];
    assert longer[..|attempts|] == attempts;
    var (rows, outcomes) := Run(map[], attempts, cfg);
    var (rows', outcomes') := Run(map[], longer, cfg);
    assert !ActiveLock(rows, "a", "b", at);
    assert outcomes' == outcomes + [Refused] && outcomes'[..|attempts|] == outcomes;
    assert rows' == map[("a", "b") := Failed(row, cfg, at)];
  }

  lemma StandsLater(attempts: seq<Attempt>, cfg: Settings, row: Row, from: int, to: int, now: int, count: nat, at: int)
    requires Stands(attempts, cfg, row, from, to, now, count) && now <= at
    ensures Stands(attempts, cfg, row, from, to, at, count)
  {
  }

  lemma NextFailure(attempts: seq<Attempt>, cfg: Settings, row: Row, from: int, to: int, count: nat, n: nat, at: int)
    requires n > 0 && from <= at <= to && !LockedAt(FailedTimes(row, cfg, n - 1, at), at)
    requires Stands(attempts, cfg, FailedTimes(row, cfg, n - 1, at), from, to, at, count + n - 1)
    ensures Stands(attempts + [Bad(at)], cfg, FailedTimes(row, cfg, n, at), from, to, at, count + n)
  {
    OneMore(attempts, cfg, FailedTimes(row, cfg, n - 1, at), from, to, at, count + n - 1, at);
  }

  lemma {:induction false} FreshRowFails(cfg: Settings, row: Row, n: nat, at: int)
    requires 0 < n <= EffectiveMax(cfg)
    requires (row.attempts == 0 && row.first >= at - cfg.window)
          || (row.attempts > 0 && row.first < at - cfg.window && cfg.window >= 0)
    ensures var r := FailedTimes(row, cfg, n, at);
      && r.attempts == n && r.first == (if row.attempts == 0 then row.first else at)
      && (n < EffectiveMax(cfg) ==> r.lockedUntil == row.lockedUntil)
      && (n == EffectiveMax(cfg) ==> r.lockedUntil == Some(at + cfg.lockout))
  {
    if n > 1 {
      FreshRowFails(cfg, row, n - 1, at);
    }
  }

  lemma {:induction false} NeverLocks(cfg: Settings, row: Row, n: nat, at: int)
    requires cfg.lockout <= 0 && !LockedAt(row, at)
    ensures !LockedAt(FailedTimes(row, cfg, n, at), at)
  {
    if n > 0 {
      NeverLocks(cfg, row, n - 1, at);
    }
  }

  /** The row starts over at the next failure, or never locks at all. */
  ghost predicate Fillable(row: Row, cfg: Settings, at: int) {
    && !LockedAt(row, at)
    && (cfg.lockout > 0 ==>
         || (row.attempts == 0 && row.first >= at - cfg.window)
         || (row.attempts > 0 && row.first < at - cfg.window && cfg.window >= 0))
  }

  lemma UnlockedUntilFull(cfg: Settings, row: Row, j: nat, at: int)
    requires Fillable(row, cfg, at) && j < EffectiveMax(cfg)
    ensures !LockedAt(FailedTimes(row, cfg, j, at), at)
  {
    if cfg.lockout <= 0 {
      NeverLocks(cfg, row, j, at);
    } else if j > 0 {
      FreshRowFails(cfg, row, j, at);
    }
  }

  /** A client whose row starts over fails n times at one instant, up to the maximum. */
  lemma {:induction false} ManyMore(attempts: seq<Attempt>, cfg: Settings, row: Row, from: int, to: int,
      count: nat, n: nat, at: int)
    returns (longer: seq<Attempt>)
    requires Stands(attempts, cfg, row, from, to, at, count) && from <= at <= to
    requires Fillable(row, cfg, at) && n <= EffectiveMax(cfg)
    ensures Stands(longer, cfg, FailedTimes(row, cfg, n, at), from, to, at, count + n)
  {
    longer := attempts;
    if n > 0 {
      longer := ManyMore(attempts, cfg, row, from, to, count, n - 1, at);
      UnlockedUntilFull(cfg, row, n - 1, at);
      NextFailure(longer, cfg, row, from, to, count, n, at);
      longer := longer + [Bad(at)];
    }
  }

  lemma FillUp(attempts: seq<Attempt>, cfg: Settings, row: Row, from: int, to: int, now: int, count: nat, at: int)
    returns (longer: seq<Attempt>)
    requires Stands(attempts, cfg, row, from, to, now, count) && now <= at && from <= at <= to
    requires Fillable(row, cfg, at)
    ensures Stands(longer, cfg, FailedTimes(row, cfg, EffectiveMax(cfg), at), from, to, at, count + EffectiveMax(cfg))
  {
    StandsLater(attempts, cfg, row, from, to, now, count, at);
    longer := ManyMore(attempts, cfg, row, from, to, count, EffectiveMax(cfg), at);
  }

  /** A cleared row, filled up once, starts over when its lock and its window are past. */
  lemma FillsAgain(cfg: Settings, row: Row, at: int, later: int)
    requires Fillable(row, cfg, at) && row.attempts == 0 && cfg.window >= 0
    requires later == (if cfg.lockout > 0 then at + cfg.lockout else at)
    requires cfg.lockout > 0 ==> row.first < later - cfg.window
    ensures Fillable(FailedTimes(row, cfg, EffectiveMax(cfg), at), cfg, later)
  {
    if cfg.lockout > 0 {
      FreshRowFails(cfg, row, EffectiveMax(cfg), at);
    } else {
      NeverLocks(cfg, row, EffectiveMax(cfg), at);
    }
  }

  /** A row that may be filled up at `from` and again at `now`. */
  lemma Prepared(cfg: Settings) returns (attempts: seq<Attempt>, row: Row, start: int, from: int, now: int)
    requires cfg.lockout <= cfg.window && cfg.window >= 0
    ensures Stands(attempts, cfg, row, from, from + cfg.window, start, 0)
    ensures start <= from <= now <= from + cfg.window
    ensures Fillable(row, cfg, from) && Fillable(FailedTimes(row, cfg, EffectiveMax(cfg), from), cfg, now)
  {
    var gap := if cfg.lockout > 0 then cfg.lockout else 0;
    start := gap + 1;
    from := if cfg.lockout > 0 then gap + 1 + cfg.window else 2;
    now := from + gap;
    attempts, row := WarmUp(cfg, start, from, from + cfg.window);
    FillsAgain(cfg, row, from, now);
  }

  lemma FilledTwice(cfg: Settings) returns (attempts: seq<Attempt>, row: Row, from: int, now: int)
    requires cfg.lockout <= cfg.window && cfg.window >= 0
    ensures Stands(attempts, cfg, row, from, from + cfg.window, now, 2 * EffectiveMax(cfg))
  {
    var start;
    attempts, row, start, from, now := Prepared(cfg);
    attempts, row := FillTwice(attempts, cfg, row, from, from + cfg.window, start, now);
  }

  lemma FillTwice(attempts: seq<Attempt>, cfg: Settings, row: Row, from: int, to: int, start: int, now: int)
    returns (longer: seq<Attempt>, filled: Row)
    requires Stands(attempts, cfg, row, from, to, start, 0) && start <= from <= now <= to
    requires Fillable(row, cfg, from) && Fillable(FailedTimes(row, cfg, EffectiveMax(cfg), from), cfg, now)
    ensures Stands(longer, cfg, filled, from, to, now, 2 * EffectiveMax(cfg))
  {
    var once := FailedTimes(row, cfg, EffectiveMax(cfg), from);
    longer := FillUp(attempts, cfg, row, from, to, start, 0, from);
    longer := FillUp(longer, cfg, once, from, to, from, EffectiveMax(cfg), now);
    filled := FailedTimes(once, cfg, EffectiveMax(cfg), now);
  }

  /** Whenever the lockout is not longer than the window the bound fails: one client, after one
      failure and one login, fails twice the maximum number of times within one window. With
      LockoutBound: the bound holds of all serial runs if and only if lockout > window. */
  lemma BoundFailsForShortLockout(cfg: Settings) returns (attempts: seq<Attempt>, from: int, now: int)
    requires cfg.lockout <= cfg.window && cfg.window >= 0
    ensures InOrder(attempts, now)
    ensures NoLoginWithin(attempts, Run(map[], attempts, cfg).1, "a", from, from + cfg.window)
    ensures RefusedWithin(attempts, Run(map[], attempts, cfg).1, "a", "b", from, from + cfg.window)
         == 2 * EffectiveMax(cfg)
  {
    var row;
    attempts, row, from, now := FilledTwice(cfg);
  }

  /** The bound of LockoutBound, for one run. */
  ghost predicate Bounded(attempts: seq<Attempt>, cfg: Settings, identity: string, ip: string, from: int, now: int) {
    var outcomes := Run(map[], attempts, cfg).1;
    InOrder(attempts, now) && NoLoginWithin(attempts, outcomes, identity, from, from + cfg.window) ==>
      RefusedWithin(attempts, outcomes, identity, ip, from, from + cfg.window) <= 2 * EffectiveMax(cfg) - 1
  }

  lemma {:induction false} EmptyInterval(attempts: seq<Attempt>, outcomes: seq<Outcome>, identity: string,
      ip: string, from: int, to: int)
    requires |outcomes| == |attempts| && to < from
    ensures RefusedWithin(attempts, outcomes, identity, ip, from, to) == 0
  {
    if attempts != [] {
      EmptyInterval(attempts[..|attempts| - 1], outcomes[..|attempts| - 1], identity, ip, from, to);
    }
  }

  /** Exactly which settings bound every serial run: a lockout longer than the window (or a
      negative window, whose intervals are empty). */
  lemma LockoutBoundIff(cfg: Settings)
    ensures (forall attempts, identity, ip, from, now :: Bounded(attempts, cfg, identity, ip, from, now))
       <==> cfg.lockout > cfg.window || cfg.window < 0
  {
    if cfg.lockout > cfg.window || cfg.window < 0 {
      forall attempts, identity, ip, from, now
        ensures Bounded(attempts, cfg, identity, ip, from, now)
      {
        var outcomes := Run(map[], attempts, cfg).1;
        if cfg.window < 0 {
          EmptyInterval(attempts, outcomes, identity, ip, from, from + cfg.window);
        } else if InOrder(attempts, now) && NoLoginWithin(attempts, outcomes, identity, from, from + cfg.window) {
          LockoutBound(attempts, cfg, identity, ip, from, now);
        }
      }
    } else {
      var attempts, from, now := BoundFailsForShortLockout(cfg);
      assert !Bounded(attempts, cfg, "a", "b", from, now);
    }
  }

  /** One failure at 0 and a login at `at`, once any lock is over: a cleared row. */
  lemma WarmUp(cfg: Settings, at: int, from: int, to: int) returns (attempts: seq<Attempt>, row: Row)
    requires at > 0 && at > cfg.lockout && at < from
    ensures row == Row(0, at, at, None) && Stands(attempts, cfg, row, from, to, at, 0)
  {
    var good := Attempt("a", "b", true, at, at, map[]);
    attempts, row := [Bad(0), good], Row(0, at, at, None);
    assert attempts[..1] == [Bad(0)] && [Bad(0)][..0] == [] && SafeIp("b") == "b";
    assert Run(map[], [], cfg) == (map[], []);
    assert InOrder([Bad(0)], at);
    var (rows1, o1) := Run(map[], [Bad(0)], cfg);
    assert !ActiveLock(map[], "a", "b", 0);
    assert rows1 == map[("a", "b") := Failed(Row(0, 0, 0, None), cfg, 0)] && o1 == [Refused];
    assert !ActiveLock(rows1, "a", "b", at);
    var (rows2, o2) := Run(map[], attempts, cfg);
    assert o2 == [Refused, LoggedIn] && o2[..1] == [Refused] && o2[..1][..0] == [];
    assert rows2 == map[("a", "b") := row];
    assert RefusedWithin([Bad(0)], o1, "a", "b", from, to) == 0;
    assert RefusedWithin(attempts, o2, "a", "b", from, to) == 0;
  }

  // ----- a lock stands until it expires or the identity logs in from elsewhere -----

  lemma LockStandsOnce(rows: Rows, cfg: Settings, a: Attempt, identity: string, ip: string, until: int)
    requires (identity, ip) in rows && rows[(identity, ip)].lockedUntil == Some(until)
    requires a.checkAt < until && ip != "" && (Login(rows, cfg, a).1 == LoggedIn ==> a.identity != identity)
    ensures var (rows', outcome) := Login(rows, cfg, a);
      && (a.identity == identity && SafeIp(a.ip) == ip ==> outcome == Blocked)
      && (identity, ip) in rows' && rows'[(identity, ip)] == rows[(identity, ip)]
  {
    if a.identity == identity && SafeIp(a.ip) == ip {
      assert LockApplies((identity, ip), identity, ip);
      assert ActiveLock(rows, identity, ip, a.checkAt);
    }
  }

  lemma {:induction false} LockStands(rows: Rows, attempts: seq<Attempt>, cfg: Settings, identity: string, ip: string,
      until: int, now: int)
    requires (identity, ip) in rows && rows[(identity, ip)].lockedUntil == Some(until)
    requires InOrder(attempts, now) && now < until && ip != ""
    requires forall i :: 0 <= i < |attempts| && Run(rows, attempts, cfg).1[i] == LoggedIn ==>
      attempts[i].identity != identity
    ensures forall i :: 0 <= i < |attempts| && attempts[i].identity == identity && SafeIp(attempts[i].ip) == ip ==>
      Run(rows, attempts, cfg).1[i] == Blocked
    ensures (identity, ip) in Run(rows, attempts, cfg).0
    ensures Run(rows, attempts, cfg).0[(identity, ip)] == rows[(identity, ip)]
  {
    if attempts != [] {
      var n := |attempts| - 1;
      var rest, a := attempts[..n], attempts[n];
      var outcomes := Run(rows, attempts, cfg).1;
      assert forall i :: 0 <= i < n ==> outcomes[i] == Run(rows, rest, cfg).1[i] && rest[i] == attempts[i];
      LockStands(rows, rest, cfg, identity, ip, until, a.checkAt);
      assert outcomes[n] == Login(Run(rows, rest, cfg).0, cfg, a).1;
      LockStandsOnce(Run(rows, rest, cfg).0, cfg, a, identity, ip, until);
    }
  }
}
