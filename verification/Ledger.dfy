/** src/casino_bot/db/models.py: users' token accounts, ledger entries and game rounds, and what
    it means for them to agree. */
module Ledger {
  import opened Common

  /** The unique key of a game round. */
  datatype Key = Key(user: nat, game: string, idem: string)

  datatype Status = Committed | Rejected | Failed

  /** A ledger entry's reason: "game_round:<game>:<round id>", or any other text. */
  datatype Reason = GameRound(game: string, roundId: nat) | Other(text: string)

  datatype Entry = Entry(user: nat, delta: int, reason: Reason)

  /** Round ids are uuid4 values; here they are numbered in order of creation. `outcome` stands
      for details_json, of which only the outcome label is used. */
  datatype Round = Round(id: nat, key: Key, betUnits: int, payoutUnits: int, status: Status,
                         committedAt: Option<int>, outcome: string)

  /** Committed database contents. `nextId` is above every round id ever used. */
  datatype Db = Db(users: set<nat>, accounts: map<nat, int>, ledger: seq<Entry>, rounds: seq<Round>, nextId: nat)

  function Balance(accounts: map<nat, int>, user: nat): int {
    if user in accounts then accounts[user] else 0
  }

  function Sum(ledger: seq<Entry>, user: nat): int {
    if ledger == [] then 0 else
    var e := ledger[|ledger| - 1];
    Sum(ledger[..|ledger| - 1], user) + if e.user == user then e.delta else 0
  }

  predicate IsFor(e: Entry, id: nat) {
    e.reason.GameRound? && e.reason.roundId == id
  }

  /** How many ledger entries a round has. */
  function EntryCount(ledger: seq<Entry>, id: nat): nat {
    if ledger == [] then 0 else
    EntryCount(ledger[..|ledger| - 1], id) + if IsFor(ledger[|ledger| - 1], id) then 1 else 0
  }

  /** The entry is the booking of this committed round. */
  predicate Books(e: Entry, r: Round) {
    r.status == Committed && e == Entry(r.key.user, r.payoutUnits, GameRound(r.key.game, r.id))
  }

  predicate Final(r: Round) {
    r.status == Committed || r.payoutUnits == 0
  }

  /** Rounds and game-round ledger entries correspond one to one: keys and ids are unique, a
      committed round has exactly one entry and other rounds have none and pay nothing, and
      every game-round entry books a committed round of the same user, game and amount. */
  ghost predicate Matched(rounds: seq<Round>, ledger: seq<Entry>) {
    && (forall i, j :: 0 <= i < j < |rounds| ==> rounds[i].key != rounds[j].key && rounds[i].id != rounds[j].id)
    && (forall r :: r in rounds ==> Final(r) && EntryCount(ledger, r.id) == if r.status == Committed then 1 else 0)
    && (forall e :: e in ledger && e.reason.GameRound? ==> exists r :: r in rounds && Books(e, r))
  }

  /** Every balance is the sum of its user's ledger entries and is not negative. */
  ghost predicate Balanced(accounts: map<nat, int>, ledger: seq<Entry>) {
    forall user :: Balance(accounts, user) == Sum(ledger, user) && Sum(ledger, user) >= 0
  }

  ghost predicate Consistent(db: Db) {
    && Matched(db.rounds, db.ledger)
    && Balanced(db.accounts, db.ledger)
    && forall r :: r in db.rounds ==> r.id < db.nextId
  }

  ghost function Keys(rounds: seq<Round>): set<Key> {
    set r | r in rounds :: r.key
  }

  ghost function Ids(rounds: seq<Round>): set<nat> {
    set r | r in rounds :: r.id
  }

  // ----- sums and counts over concatenated ledgers -----

  lemma {:induction false} SumSplit(a: seq<Entry>, b: seq<Entry>, user: nat)
    ensures Sum(a + b, user) == Sum(a, user) + Sum(b, user)
  {
    if b == [] {
      assert a + b == a;
    } else {
      assert (a + b)[..|a + b| - 1] == a + b[..|b| - 1];
      SumSplit(a, b[..|b| - 1], user);
    }
  }

  lemma {:induction false} CountSplit(a: seq<Entry>, b: seq<Entry>, id: nat)
    ensures EntryCount(a + b, id) == EntryCount(a, id) + EntryCount(b, id)
  {
    if b == [] {
      assert a + b == a;
    } else {
      assert (a + b)[..|a + b| - 1] == a + b[..|b| - 1];
      CountSplit(a, b[..|b| - 1], id);
    }
  }

  lemma {:induction false} NoEntries(ledger: seq<Entry>, id: nat)
    requires forall e :: e in ledger ==> !IsFor(e, id)
    ensures EntryCount(ledger, id) == 0
  {
    if ledger != [] {
      NoEntries(ledger[..|ledger| - 1], id);
    }
  }

  /** With at most one entry for a round, two positions holding one are the same. */
  lemma {:induction false} EntryIsUnique(ledger: seq<Entry>, id: nat, i: nat, j: nat)
    requires i < |ledger| && j < |ledger| && IsFor(ledger[i], id) && IsFor(ledger[j], id)
    requires EntryCount(ledger, id) <= 1
    ensures i == j
  {
    var n := |ledger| - 1;
    if i < n && j < n {
      EntryIsUnique(ledger[..n], id, i, j);
    } else if i != j {
      EntryCounted(ledger[..n], id, if i < n then i else j);
    }
  }

  lemma {:induction false} EntryCounted(ledger: seq<Entry>, id: nat, i: nat)
    requires i < |ledger| && IsFor(ledger[i], id)
    ensures EntryCount(ledger, id) >= 1
  {
    if i < |ledger| - 1 {
      EntryCounted(ledger[..|ledger| - 1], id, i);
    }
  }

  // ----- joining consistent parts -----

  lemma ForeignIdsHaveNoEntries(rounds: seq<Round>, ledger: seq<Entry>, id: nat)
    requires Matched(rounds, ledger) && id !in Ids(rounds)
    ensures EntryCount(ledger, id) == 0
  {
    forall e | e in ledger && e.reason.GameRound?
      ensures e.reason.roundId in Ids(rounds)
    {
      var r :| r in rounds && Books(e, r);
    }
    NoEntries(ledger, id);
  }

  lemma MatchedJoin(r1: seq<Round>, l1: seq<Entry>, r2: seq<Round>, l2: seq<Entry>)
    requires Matched(r1, l1) && Matched(r2, l2)
    requires Keys(r1) !! Keys(r2) && Ids(r1) !! Ids(r2)
    ensures Matched(r1 + r2, l1 + l2)
  {
    var rounds, ledger := r1 + r2, l1 + l2;
    forall i, j | 0 <= i < j < |rounds|
      ensures rounds[i].key != rounds[j].key && rounds[i].id != rounds[j].id
    {
      if i < |r1| <= j {
        assert rounds[i] in r1 && rounds[j] in r2;
        assert rounds[i].key in Keys(r1) && rounds[j].key in Keys(r2);
        assert rounds[i].id in Ids(r1) && rounds[j].id in Ids(r2);
      }
    }
    forall r | r in rounds
      ensures Final(r) && EntryCount(ledger, r.id) == if r.status == Committed then 1 else 0
    {
      CountSplit(l1, l2, r.id);
      if r in r1 {
        assert r.id in Ids(r1);
        ForeignIdsHaveNoEntries(r2, l2, r.id);
      } else {
        assert r.id in Ids(r2);
        ForeignIdsHaveNoEntries(r1, l1, r.id);
      }
    }
    forall e | e in ledger && e.reason.GameRound?
      ensures exists r :: r in rounds && Books(e, r)
    {
      if e in l1 {
        var r :| r in r1 && Books(e, r);
        assert r in rounds;
      } else {
        var r :| r in r2 && Books(e, r);
        assert r in rounds;
      }
    }
  }

  /** A single finished round with its booking, if it has one. */
  lemma MatchedSingle(r: Round)
    requires Final(r)
    ensures Matched([r],
      if r.status == Committed then [Entry(r.key.user, r.payoutUnits, GameRound(r.key.game, r.id))] else [])
  {
    var l := if r.status == Committed then [Entry(r.key.user, r.payoutUnits, GameRound(r.key.game, r.id))] else [];
    if r.status == Committed {
      assert l[..0] == [] && EntryCount(l, r.id) == 1;
      assert r in [r] && Books(l[0], r);
    }
  }

  lemma MatchedEmpty()
    ensures Matched([], [])
  {
  }

  /** An entry that is not a game round leaves the correspondence alone. */
  lemma MatchedOther(rounds: seq<Round>, ledger: seq<Entry>, e: Entry)
    requires Matched(rounds, ledger) && e.reason.Other?
    ensures Matched(rounds, ledger + [e])
  {
    MatchedJoin(rounds, ledger, [], [e]);
    assert rounds + [] == rounds;
  }
}
