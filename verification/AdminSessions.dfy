/** src/casino_bot/admin/security_service.py: refresh sessions, rotation and revocation.

  Session ids are uuid4 values; here a session's id is its position in order of creation. The
  refresh-token hash is an injective function of the token, so the token itself is stored. */
module AdminSessions {
  import opened Common

  datatype Token = Token(sid: nat, nonce: nat)

  datatype Session = Session(user: nat, token: Token, expiresAt: int, revokedAt: Option<int>,
                             rotatedFrom: Option<nat>, lastUsedAt: int)
  {
    predicate Revoked() { revokedAt.Some? }
    predicate Live(now: int) { !Revoked() && expiresAt > now }
    function Revoke(now: int): Session { this.(revokedAt := Some(now), lastUsedAt := now) }
  }

  type Table = seq<Session>

  datatype Reply = Issued(token: Token) | Invalid | RevokedOrExpired | Done(revoked: nat)

  /** `decodes` says whether the JWT layer accepts the token; `active` whether its user exists
      and is active; `nonce` and `expiresAt` come from the token generator. */
  datatype Op =
    | Login(user: nat, nonce: nat, expiresAt: int)
    | Refresh(token: Token, decodes: bool, active: bool, nonce: nat, expiresAt: int)
    | RevokeToken(token: Token, decodes: bool)
    | RevokeId(sid: nat)
    | RevokeAll(user: nat)

  /** What is wrong with a presented refresh token; None when its session may be used. */
  function Refusal(t: Table, token: Token, decodes: bool, now: int): Option<Reply> {
    if !decodes || token.sid >= |t| || t[token.sid].token != token then Some(Invalid)
    else if t[token.sid].Revoked() || t[token.sid].expiresAt <= now then Some(RevokedOrExpired)
    else None
  }

  function Fresh(t: Table, user: nat, nonce: nat, expiresAt: int, from: Option<nat>, now: int): Session {
    Session(user, Token(|t|, nonce), expiresAt, None, from, now)
  }

  /** The writing half of a refresh: stamp the row revoked and add its successor. */
  function Rotated(t: Table, i: nat, nonce: nat, expiresAt: int, now: int): Table
    requires i < |t|
  {
    t[i := t[i].Revoke(now)] + [Fresh(t, t[i].user, nonce, expiresAt, Some(i), now)]
  }

  function RevokedAll(t: Table, user: nat, now: int): Table {
    seq(|t|, i requires 0 <= i < |t| => if t[i].user == user && t[i].Live(now) then t[i].Revoke(now) else t[i])
  }

  function LiveCount(t: Table, user: nat, now: int): nat {
    if t == [] then 0 else
    LiveCount(t[..|t| - 1], user, now) + if t[|t| - 1].user == user && t[|t| - 1].Live(now) then 1 else 0
  }

  function Next(t: Table, op: Op, now: int): (Table, Reply) {
    match op
    case Login(user, nonce, expiresAt) =>
      var s := Fresh(t, user, nonce, expiresAt, None, now);
      (t + [s], Issued(s.token))
    case Refresh(token, decodes, active, nonce, expiresAt) =>
      (match Refusal(t, token, decodes, now)
       case Some(reply) => (t, reply)
       case None =>
         if !active then (t, Invalid)
         else (Rotated(t, token.sid, nonce, expiresAt, now), Issued(Token(|t|, nonce))))
    case RevokeToken(token, decodes) =>
      (match Refusal(t, token, decodes, now)
       case Some(reply) => (t, reply)
       case None => (t[token.sid := t[token.sid].Revoke(now)], Done(1)))
    case RevokeId(sid) =>
      if sid < |t| && t[sid].Live(now) then (t[sid := t[sid].Revoke(now)], Done(1)) else (t, Done(0))
    case RevokeAll(user) => (RevokedAll(t, user, now), Done(LiveCount(t, user, now)))
  }

  /** The admin_sessions table, changed in place. */
  class SessionTable {
    var rows: Table

    constructor ()
      ensures rows == []
    {
      rows := [];
    }

    method Create(user: nat, nonce: nat, expiresAt: int, from: Option<nat>, now: int) returns (token: Token)
      modifies this
      ensures rows == old(rows) + [Fresh(old(rows), user, nonce, expiresAt, from, now)]
      ensures token == Token(|old(rows)|, nonce)
    {
      token := Token(|rows|, nonce);
      rows := rows + [Session(user, token, expiresAt, None, from, now)];
    }

    method LoginSession(user: nat, nonce: nat, expiresAt: int, now: int) returns (reply: Reply)
      modifies this
      ensures (rows, reply) == Next(old(rows), Login(user, nonce, expiresAt), now)
    {
      var token := Create(user, nonce, expiresAt, None, now);
      reply := Issued(token);
    }

    method RefreshSession(token: Token, decodes: bool, active: bool, nonce: nat, expiresAt: int,
        now: int) returns (reply: Reply)
      modifies this
      ensures (rows, reply) == Next(old(rows), Refresh(token, decodes, active, nonce, expiresAt), now)
    {
      var refusal := Refusal(rows, token, decodes, now);
      if refusal.Some? {
        return refusal.value;
      }
      if !active {
        return Invalid;
      }
      var row := rows[token.sid];
      rows := rows[token.sid := row.(revokedAt := Some(now), lastUsedAt := now)];
      var issued := Create(row.user, nonce, expiresAt, Some(token.sid), now);
      reply := Issued(issued);
    }

    method RevokeSession(token: Option<Token>, decodes: bool, sid: Option<nat>, now: int) returns (reply: Reply)
      modifies this
      ensures (rows, reply) ==
        if token.Some? then Next(old(rows), RevokeToken(token.value, decodes), now)
        else if sid.Some? then Next(old(rows), RevokeId(sid.value), now)
        else (old(rows), Done(0))
    {
      var i: nat;
      if token.Some? {
        var refusal := Refusal(rows, token.value, decodes, now);
        if refusal.Some? {
          return refusal.value;
        }
        i := token.value.sid;
      } else if sid.Some? {
        i := sid.value;
        if i >= |rows| || rows[i].revokedAt.Some? || rows[i].expiresAt <= now {
          return Done(0);
        }
      } else {
        return Done(0);
      }
      rows := rows[i := rows[i].(revokedAt := Some(now), lastUsedAt := now)];
      return Done(1);
    }

    method RevokeAllSessions(user: nat, now: int) returns (count: nat)
      modifies this
      ensures (rows, Done(count)) == Next(old(rows), RevokeAll(user), now)
    {
      count := 0;
      for i := 0 to |rows|
        invariant |rows| == |old(rows)|
        invariant forall j :: 0 <= j < |rows| ==>
          rows[j] == if j < i then RevokedAll(old(rows), user, now)[j] else old(rows)[j]
        invariant count == LiveCount(old(rows)[..i], user, now)
      {
        assert old(rows)[..i + 1][..i] == old(rows)[..i];
        if rows[i].user == user && rows[i].Live(now) {
          rows := rows[i := rows[i].(revokedAt := Some(now), lastUsedAt := now)];
          count := count + 1;
        }
      }
      assert old(rows)[..|rows|] == old(rows);
      assert rows == RevokedAll(old(rows), user, now);
    }
  }

  // ----- the forest -----

  /** Every predecessor is older, of the same user and revoked, and has only one successor. */
  ghost predicate Forest(t: Table) {
    && (forall i :: 0 <= i < |t| ==> t[i].token.sid == i)
    && (forall i :: 0 <= i < |t| && t[i].rotatedFrom.Some? ==>
         t[i].rotatedFrom.value < i && t[t[i].rotatedFrom.value].Revoked() &&
         t[t[i].rotatedFrom.value].user == t[i].user)
    && (forall i, j :: 0 <= i < j < |t| && t[i].rotatedFrom.Some? ==> t[i].rotatedFrom != t[j].rotatedFrom)
  }

  ghost predicate HasSuccessor(t: Table, i: nat) {
    exists j :: 0 <= j < |t| && t[j].rotatedFrom == Some(i)
  }

  /** What an operation may do to rows that exist: only stamp them revoked or used. */
  ghost predicate Grows(t: Table, t': Table) {
    && |t| <= |t'|
    && forall i :: 0 <= i < |t| ==>
         && t'[i] == t[i].(revokedAt := t'[i].revokedAt, lastUsedAt := t'[i].lastUsedAt)
         && (t[i].Revoked() ==> t'[i].revokedAt == t[i].revokedAt)
  }

  /** Stamping rows revoked or used keeps the forest. */
  lemma StampsKeepForest(t: Table, t': Table)
    requires Forest(t) && Grows(t, t') && |t'| == |t|
    ensures Forest(t')
  {
    assert forall i :: 0 <= i < |t| ==> t'[i].rotatedFrom == t[i].rotatedFrom && t'[i].user == t[i].user;
  }

  lemma RootKeepsForest(t: Table, s: Session)
    requires Forest(t) && s.token.sid == |t| && s.rotatedFrom.None?
    ensures Forest(t + [s]) && Grows(t, t + [s])
  {
  }

  /** A session without a successor may be rotated. */
  lemma RotationKeepsForest(t: Table, i: nat, nonce: nat, expiresAt: int, now: int)
    requires Forest(t) && i < |t| && !HasSuccessor(t, i)
    ensures Forest(Rotated(t, i, nonce, expiresAt, now))
  {
    var t' := t[i := t[i].Revoke(now)];
    assert forall j :: 0 <= j < |t| ==> t'[j].rotatedFrom == t[j].rotatedFrom && t'[j].user == t[j].user;
  }

  lemma UnrevokedHasNoSuccessor(t: Table, i: nat)
    requires Forest(t) && i < |t| && !t[i].Revoked()
    ensures !HasSuccessor(t, i)
  {
  }

  lemma StepKeepsForest(t: Table, op: Op, now: int)
    requires Forest(t)
    ensures Forest(Next(t, op, now).0) && Grows(t, Next(t, op, now).0)
  {
    var t' := Next(t, op, now).0;
    match op
    case Login(user, nonce, expiresAt) => RootKeepsForest(t, Fresh(t, user, nonce, expiresAt, None, now));
    case Refresh(token, decodes, active, nonce, expiresAt) =>
      if |t'| > |t| {
        UnrevokedHasNoSuccessor(t, token.sid);
        RotationKeepsForest(t, token.sid, nonce, expiresAt, now);
      }
    case RevokeToken(_, _) => StampsKeepForest(t, t');
    case RevokeId(_) => StampsKeepForest(t, t');
    case RevokeAll(_) => StampsKeepForest(t, t');
  }

  // ----- runs -----

  datatype Event = Event(op: Op, now: int)

  function Run(t: Table, events: seq<Event>): Table {
    if events == [] then t else
    Next(Run(t, events[..|events| - 1]), events[|events| - 1].op, events[|events| - 1].now).0
  }

  lemma {:induction false} RunKeepsForest(t: Table, events: seq<Event>)
    requires Forest(t)
    ensures Forest(Run(t, events)) && Grows(t, Run(t, events))
  {
    if events != [] {
      RunKeepsForest(t, events[..|events| - 1]);
      StepKeepsForest(Run(t, events[..|events| - 1]), events[|events| - 1].op, events[|events| - 1].now);
    }
  }

  /** The login at the start of a session's chain, and the session's place in it. */
  ghost function Root(t: Table, i: nat): nat
    requires Forest(t) && i < |t|
  {
    if t[i].rotatedFrom.None? then i else Root(t, t[i].rotatedFrom.value)
  }

  ghost function Depth(t: Table, i: nat): nat
    requires Forest(t) && i < |t|
  {
    if t[i].rotatedFrom.None? then 0 else 1 + Depth(t, t[i].rotatedFrom.value)
  }

  /** A chain does not branch: place and login determine the session. */
  lemma {:induction false} ChainIsLinear(t: Table, i: nat, j: nat)
    requires Forest(t) && i < |t| && j < |t| && Root(t, i) == Root(t, j) && Depth(t, i) == Depth(t, j)
    ensures i == j
    decreases i
  {
    if t[i].rotatedFrom.Some? {
      ChainIsLinear(t, t[i].rotatedFrom.value, t[j].rotatedFrom.value);
      assert !(i < j) && !(j < i);
    }
  }

  /** Of two sessions of one chain the earlier has a successor. */
  lemma {:induction false} EarlierIsRotated(t: Table, i: nat, j: nat)
    requires Forest(t) && i < |t| && j < |t| && Root(t, i) == Root(t, j) && Depth(t, i) < Depth(t, j)
    ensures HasSuccessor(t, i)
    decreases j
  {
    var p := t[j].rotatedFrom.value;
    if Depth(t, p) == Depth(t, i) {
      ChainIsLinear(t, i, p);
    } else {
      EarlierIsRotated(t, i, p);
    }
  }

  lemma UnrevokedIsLast(t: Table, i: nat, j: nat)
    requires Forest(t) && i < |t| && j < |t| && Root(t, i) == Root(t, j) && !t[i].Revoked()
    ensures Depth(t, j) <= Depth(t, i) && (!t[j].Revoked() ==> i == j)
  {
    if Depth(t, i) < Depth(t, j) {
      EarlierIsRotated(t, i, j);
      assert false;
    } else if Depth(t, j) < Depth(t, i) {
      EarlierIsRotated(t, j, i);
    } else {
      ChainIsLinear(t, i, j);
    }
  }

  /** A session with a successor is revoked, and the unrevoked sessions of one login's chain are
      at most one, the last of the chain. */
  ghost predicate OneLivePerLogin(t: Table) {
    && Forest(t)
    && (forall i :: 0 <= i < |t| && HasSuccessor(t, i) ==> t[i].Revoked())
    && (forall i, j :: 0 <= i < |t| && 0 <= j < |t| && Root(t, i) == Root(t, j) && !t[i].Revoked() ==>
          Depth(t, j) <= Depth(t, i) && (!t[j].Revoked() ==> i == j))
  }

  lemma ForestHasOneLive(t: Table)
    requires Forest(t)
    ensures OneLivePerLogin(t)
  {
    forall i | 0 <= i < |t| && HasSuccessor(t, i)
      ensures t[i].Revoked()
    {
      var j :| 0 <= j < |t| && t[j].rotatedFrom == Some(i);
    }
    forall i, j | 0 <= i < |t| && 0 <= j < |t| && Root(t, i) == Root(t, j) && !t[i].Revoked()
      ensures Depth(t, j) <= Depth(t, i) && (!t[j].Revoked() ==> i == j)
    {
      UnrevokedIsLast(t, i, j);
    }
  }

  /** In every state of every serial run from an empty table every login has at most one live
      session, the last of its chain. */
  lemma OneLiveSessionPerLogin(events: seq<Event>)
    ensures OneLivePerLogin(Run([], events))
  {
    RunKeepsForest([], events);
    ForestHasOneLive(Run([], events));
  }

  /** A refresh token refused as revoked or expired is refused in every later state. */
  lemma RefusedForever(t: Table, token: Token, now: int, events: seq<Event>, later: int)
    requires Forest(t) && now <= later && Refusal(t, token, true, now) == Some(RevokedOrExpired)
    ensures Refusal(Run(t, events), token, true, later) == Some(RevokedOrExpired)
  {
    RunKeepsForest(t, events);
  }

  /** A rotation replaces exactly one live session of a chain by its new last one: the old token
      stops working at once and the new one works until it expires. */
  lemma RotationHandsOver(t: Table, token: Token, nonce: nat, expiresAt: int, now: int)
    requires Forest(t) && Refusal(t, token, true, now).None?
    ensures var (t', reply) := Next(t, Refresh(token, true, true, nonce, expiresAt), now);
      && Forest(t') && reply == Issued(Token(|t|, nonce))
      && Refusal(t', token, true, now) == Some(RevokedOrExpired)
      && (Refusal(t', reply.token, true, now).None? <==> expiresAt > now)
      && Root(t', |t|) == Root(t', token.sid) && Depth(t', |t|) == Depth(t', token.sid) + 1
  {
    StepKeepsForest(t, Refresh(token, true, true, nonce, expiresAt), now);
  }

  /** The sessions of a user that are live at one moment. */
  ghost function LiveSessions(t: Table, user: nat, now: int): set<nat> {
    set i | 0 <= i < |t| && t[i].user == user && t[i].revokedAt.None? && t[i].expiresAt > now
  }

  lemma {:induction false} LiveCountIsSize(t: Table, user: nat, now: int)
    ensures LiveCount(t, user, now) == |LiveSessions(t, user, now)|
  {
    if t != [] {
      var n := |t| - 1;
      LiveCountIsSize(t[..n], user, now);
      assert LiveSessions(t, user, now)
          == LiveSessions(t[..n], user, now) + if t[n].user == user && t[n].Live(now) then {n} else {};
    }
  }

  /** After revoke-all no session of the user is live, every row but the revoked ones is untouched,
      and the reported count is the number of sessions that stopped being live. */
  lemma RevokeAllEndsSessions(t: Table, user: nat, now: int)
    ensures var (t', reply) := Next(t, RevokeAll(user), now);
      && |t'| == |t| && LiveSessions(t', user, now) == {} && reply == Done(|LiveSessions(t, user, now)|)
      && (forall i :: 0 <= i < |t| ==> i !in LiveSessions(t, user, now) ==> t'[i] == t[i])
      && (forall i :: i in LiveSessions(t, user, now) ==> t'[i] == t[i].(revokedAt := Some(now), lastUsedAt := now))
  {
    LiveCountIsSize(t, user, now);
  }

  // ----- one request -----

  /** A refresh token is accepted exactly while it decodes, is the token its session was issued
      with, and that session is neither revoked nor expired. A token that does not decode, names no
      session or differs from its session's is invalid. */
  lemma RefusalIff(t: Table, token: Token, decodes: bool, now: int)
    ensures var issued := decodes && token.sid < |t| && t[token.sid].token == token;
            var refusal := Refusal(t, token, decodes, now);
      && (refusal.None? <==> issued && t[token.sid].revokedAt.None? && t[token.sid].expiresAt > now)
      && (refusal == Some(Invalid) <==> !issued)
      && (refusal == Some(RevokedOrExpired)
          <==> issued && (t[token.sid].revokedAt.Some? || t[token.sid].expiresAt <= now))
  {
  }

  /** A login answers with a token that works until it expires and changes no other session. */
  lemma LoginMeans(t: Table, user: nat, nonce: nat, expiresAt: int, now: int, later: int)
    ensures var (t', reply) := Next(t, Login(user, nonce, expiresAt), now);
      && |t'| == |t| + 1 && t'[..|t|] == t && t'[|t|].user == user && t'[|t|].expiresAt == expiresAt
      && t'[|t|].rotatedFrom == None && reply.Issued? && reply.token.sid == |t| && reply.token.nonce == nonce
      && Refusal(t', reply.token, true, later) == if expiresAt > later then None else Some(RevokedOrExpired)
  {
  }

  /** Only session i was stamped revoked, at `now`. */
  ghost predicate Revokes(t: Table, t': Table, i: nat, now: int) {
    && |t'| == |t| && i < |t|
    && t'[i] == t[i].(revokedAt := Some(now), lastUsedAt := now)
    && (forall j :: 0 <= j < |t| && j != i ==> t'[j] == t[j])
  }

  /** A logout by token revokes the token's session and no other, and the token is refused from then
      on; a token that is not accepted is refused without effect. */
  lemma LogoutMeans(t: Table, token: Token, decodes: bool, now: int, later: int)
    requires now <= later
    ensures var (t', reply) := Next(t, RevokeToken(token, decodes), now);
            var refusal := Refusal(t, token, decodes, now);
      if refusal.Some? then t' == t && reply == refusal.value
      else && reply == Done(1) && Revokes(t, t', token.sid, now)
           && Refusal(t', token, true, later) == Some(RevokedOrExpired)
  {
  }

  /** A logout by session id revokes that session if it is live, and its token is refused from then
      on; of an unknown, revoked or expired session nothing changes. */
  lemma LogoutByIdMeans(t: Table, sid: nat, now: int, later: int)
    requires Forest(t)
    ensures var (t', reply) := Next(t, RevokeId(sid), now);
      if sid < |t| && t[sid].revokedAt.None? && t[sid].expiresAt > now
      then && reply == Done(1) && Revokes(t, t', sid, now)
           && Refusal(t', t[sid].token, true, later) == Some(RevokedOrExpired)
      else t' == t && reply == Done(0)
  {
  }

  /** What a refresh answers: the refusal of its token, or invalid for an inactive user, both without
      effect, or the token of a new session of the same user. */
  lemma RefreshMeans(t: Table, token: Token, decodes: bool, active: bool, nonce: nat, expiresAt: int, now: int)
    ensures var (t', reply) := Next(t, Refresh(token, decodes, active, nonce, expiresAt), now);
            var refusal := Refusal(t, token, decodes, now);
      if refusal.Some? then t' == t && reply == refusal.value
      else if !active then t' == t && reply == Invalid
      else && reply == Issued(Token(|t|, nonce)) && |t'| == |t| + 1 && Revokes(t, t'[..|t|], token.sid, now)
           && t'[|t|].user == t[token.sid].user && t'[|t|].token == Token(|t|, nonce)
           && t'[|t|].expiresAt == expiresAt && t'[|t|].revokedAt == None && t'[|t|].rotatedFrom == Some(token.sid)
  {
  }

  // ----- overlapping refreshes -----

  /** A refresh checks its session and writes later, without a lock or a second check. `pending`
      are the sessions whose refresh has been checked and not yet written. */
  datatype World = World(t: Table, pending: seq<nat>)

  datatype Move =
    | Serial(op: Op, now: int)
    | Check(token: Token, decodes: bool, active: bool, now: int)
    | Write(k: nat, nonce: nat, expiresAt: int, now: int)

  function Moved(w: World, m: Move): World {
    match m
    case Serial(op, now) => w.(t := Next(w.t, op, now).0)
    case Check(token, decodes, active, now) =>
      if Refusal(w.t, token, decodes, now).None? && active then w.(pending := w.pending + [token.sid]) else w
    case Write(k, nonce, expiresAt, now) =>
      if k >= |w.pending| || w.pending[k] >= |w.t| then w
      else World(Rotated(w.t, w.pending[k], nonce, expiresAt, now), w.pending[..k] + w.pending[k + 1..])
  }

  function Play(w: World, moves: seq<Move>): World {
    if moves == [] then w else Moved(Play(w, moves[..|moves| - 1]), moves[|moves| - 1])
  }

  /** The move writes a refresh of a session that has a successor by now. */
  ghost predicate Branches(w: World, m: Move) {
    m.Write? && m.k < |w.pending| && w.pending[m.k] < |w.t| && HasSuccessor(w.t, w.pending[m.k])
  }

  /** The writing half keeps the forest exactly when the session has no successor yet. */
  lemma RotationKeepsForestIff(t: Table, i: nat, nonce: nat, expiresAt: int, now: int)
    requires Forest(t) && i < |t|
    ensures Forest(Rotated(t, i, nonce, expiresAt, now)) <==> !HasSuccessor(t, i)
  {
    var t' := Rotated(t, i, nonce, expiresAt, now);
    if HasSuccessor(t, i) {
      var j :| 0 <= j < |t| && t[j].rotatedFrom == Some(i);
      assert t'[j].rotatedFrom == t'[|t|].rotatedFrom;
    } else {
      RotationKeepsForest(t, i, nonce, expiresAt, now);
    }
  }

  lemma MoveKeepsForestIff(w: World, m: Move)
    requires Forest(w.t)
    ensures Forest(Moved(w, m).t) <==> !Branches(w, m)
  {
    match m
    case Serial(op, now) => StepKeepsForest(w.t, op, now);
    case Check(_, _, _, _) =>
    case Write(k, nonce, expiresAt, now) =>
      if k < |w.pending| && w.pending[k] < |w.t| {
        RotationKeepsForestIff(w.t, w.pending[k], nonce, expiresAt, now);
      }
  }

  lemma PrefixMove(w: World, moves: seq<Move>, k: nat)
    requires k < |moves|
    ensures Play(w, moves[..k + 1]) == Moved(Play(w, moves[..k]), moves[k])
  {
    assert moves[..k + 1][..k] == moves[..k];
  }

  lemma {:induction false} ForestUpTo(w: World, moves: seq<Move>, k: nat)
    requires Forest(w.t) && k <= |moves|
    requires forall j: nat :: j < k ==> !Branches(Play(w, moves[..j]), moves[j])
    ensures Forest(Play(w, moves[..k]).t)
  {
    if k == 0 {
      assert Play(w, moves[..0]) == w;
    } else {
      ForestUpTo(w, moves, k - 1);
      PrefixMove(w, moves, k - 1);
      MoveKeepsForestIff(Play(w, moves[..k - 1]), moves[k - 1]);
    }
  }

  /** With overlapping refreshes, all states of a run are forests, so that every login has at most
      one live session in each of them, if and only if no refresh is written for a session that
      another refresh has replaced since it was checked. */
  lemma OverlapKeepsForestIff(w: World, moves: seq<Move>)
    requires Forest(w.t)
    ensures (forall k: nat :: k <= |moves| ==> Forest(Play(w, moves[..k]).t))
       <==> (forall k: nat :: k < |moves| ==> !Branches(Play(w, moves[..k]), moves[k]))
  {
    if forall k: nat :: k <= |moves| ==> Forest(Play(w, moves[..k]).t) {
      forall k: nat | k < |moves|
        ensures !Branches(Play(w, moves[..k]), moves[k])
      {
        assert Forest(Play(w, moves[..k]).t) && Forest(Play(w, moves[..k + 1]).t);
        PrefixMove(w, moves, k);
        MoveKeepsForestIff(Play(w, moves[..k]), moves[k]);
      }
    }
    if forall k: nat :: k < |moves| ==> !Branches(Play(w, moves[..k]), moves[k]) {
      forall k: nat | k <= |moves|
        ensures Forest(Play(w, moves[..k]).t)
      {
        ForestUpTo(w, moves, k);
      }
    }
  }

  /** Two refreshes of one usable token that are both checked before either is written leave two
      live sessions with the same predecessor. */
  lemma DoubleRefreshBranches(t: Table, token: Token, n1: nat, n2: nat, expiresAt: int, now: int)
    requires Forest(t) && Refusal(t, token, true, now).None? && expiresAt > now
    ensures var check := Check(token, true, true, now);
            var t' := Play(World(t, []), [check, check, Write(0, n1, expiresAt, now), Write(0, n2, expiresAt, now)]).t;
      && |t'| == |t| + 2 && t'[|t|].Live(now) && t'[|t| + 1].Live(now) && !Forest(t')
      && t'[|t|].rotatedFrom == t'[|t| + 1].rotatedFrom == Some(token.sid)
  {
    var check := Check(token, true, true, now);
    PlayFour(World(t, []), check, check, Write(0, n1, expiresAt, now), Write(0, n2, expiresAt, now));
    var t1 := Rotated(t, token.sid, n1, expiresAt, now);
    RotationKeepsForestIff(t, token.sid, n1, expiresAt, now);
    assert t1[|t|].rotatedFrom == Some(token.sid);
    UnrevokedHasNoSuccessor(t, token.sid);
    RotationKeepsForestIff(t1, token.sid, n2, expiresAt, now);
  }

  lemma PlayThree(w: World, a: Move, b: Move, c: Move)
    ensures Play(w, [a, b, c]) == Moved(Moved(Moved(w, a), b), c)
  {
    assert [a, b, c][..2] == [a, b] && [a, b][..1] == [a] && [a][..0] == [];
    assert Play(w, [a]) == Moved(w, a);
    assert Play(w, [a, b]) == Moved(Play(w, [a]), b);
  }

  lemma PlayFour(w: World, a: Move, b: Move, c: Move, d: Move)
    ensures Play(w, [a, b, c, d]) == Moved(Moved(Moved(Moved(w, a), b), c), d)
  {
    assert [a, b, c, d][..3] == [a, b, c];
    PlayThree(w, a, b, c);
  }

  /** A revoke-all between the two halves of a refresh leaves the refreshed session live. */
  lemma RevokeAllMissesRefresh(t: Table, token: Token, nonce: nat, expiresAt: int, now: int)
    requires Forest(t) && Refusal(t, token, true, now).None? && expiresAt > now
    ensures var user := t[token.sid].user;
            var moves := [Check(token, true, true, now), Serial(RevokeAll(user), now), Write(0, nonce, expiresAt, now)];
      LiveSessions(Play(World(t, []), moves).t, user, now) == {|t|}
  {
    var user := t[token.sid].user;
    PlayThree(World(t, []), Check(token, true, true, now),
      Serial(RevokeAll(user), now), Write(0, nonce, expiresAt, now));
    assert Moved(World(t, []), Check(token, true, true, now)) == World(t, [token.sid]);
    RevokeAllEndsSessions(t, user, now);
    RotatedIsLive(RevokedAll(t, user, now), token.sid, nonce, expiresAt, now);
  }

  lemma RotatedIsLive(t: Table, i: nat, nonce: nat, expiresAt: int, now: int)
    requires i < |t| && LiveSessions(t, t[i].user, now) == {} && expiresAt > now
    ensures LiveSessions(Rotated(t, i, nonce, expiresAt, now), t[i].user, now) == {|t|}
  {
    var t' := Rotated(t, i, nonce, expiresAt, now);
    forall j | 0 <= j < |t|
      ensures j !in LiveSessions(t', t[i].user, now)
    {
      assert j !in LiveSessions(t, t[i].user, now);
    }
    assert t'[|t|].user == t[i].user && t'[|t|].Live(now);
  }

  /** The smallest case: one login, then two overlapping refreshes of its token. */
  lemma OverlapAfterLogin(user: nat, expiresAt: int, now: int)
    requires expiresAt > now
    ensures var login := Next([], Login(user, 1, expiresAt), now).0;
            var check := Check(Token(0, 1), true, true, now);
      !Forest(Play(World(login, []), [check, check, Write(0, 2, expiresAt, now), Write(0, 3, expiresAt, now)]).t)
  {
    var login := Next([], Login(user, 1, expiresAt), now).0;
    StepKeepsForest([], Login(user, 1, expiresAt), now);
    DoubleRefreshBranches(login, Token(0, 1), 2, 3, expiresAt, now);
  }
}
