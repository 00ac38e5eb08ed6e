/** src/casino_bot/compliance/registry.py: the checks run before a balance changes. */
module Compliance {

  datatype Operation = TokenCredit | TokenDebit | Transfer | CashOut

  datatype Context = Context(balance: int, delta: int, pendingTransfer: bool, pendingCashOut: bool)

  datatype Check =
    | NegativeBalance
    | DebitWhileCashOut
    | DebitWhileTransfer
    | CreditWhileCashOut
    | CreditWhileTransfer
    | TransferPolicy
    | CashOutPolicy
  {
    /** The check raises a ComplianceViolation. */
    predicate Violated(ctx: Context) {
      match this
      case NegativeBalance => ctx.balance + ctx.delta < 0
      case DebitWhileCashOut => ctx.pendingCashOut && ctx.delta < 0
      case DebitWhileTransfer => ctx.pendingTransfer && ctx.delta < 0
      case CreditWhileCashOut => ctx.pendingCashOut && ctx.delta > 0
      case CreditWhileTransfer => ctx.pendingTransfer && ctx.delta > 0
      case TransferPolicy => true
      case CashOutPolicy => true
    }
  }

  function Registry(op: Operation): seq<Check> {
    match op
    case TokenDebit => [NegativeBalance, DebitWhileCashOut, DebitWhileTransfer]
    case TokenCredit => [CreditWhileCashOut, CreditWhileTransfer]
    case Transfer => [TransferPolicy]
    case CashOut => [CashOutPolicy]
  }

  predicate Allowed(op: Operation, ctx: Context) {
    forall check :: check in Registry(op) ==> !check.Violated(ctx)
  }

  /** The check is listed and no check listed before it is violated. */
  predicate FirstAmong(checks: seq<Check>, check: Check, ctx: Context) {
    checks != [] && (checks[0] == check || (!checks[0].Violated(ctx) && FirstAmong(checks[1..], check, ctx)))
  }

  lemma {:induction false} FirstByIndex(checks: seq<Check>, i: nat, ctx: Context)
    requires i < |checks| && forall j :: 0 <= j < i ==> !checks[j].Violated(ctx)
    ensures FirstAmong(checks, checks[i], ctx)
  {
    if i > 0 {
      FirstByIndex(checks[1..], i - 1, ctx);
    }
  }

  lemma {:induction false} FirstIndex(checks: seq<Check>, check: Check, ctx: Context) returns (i: nat)
    requires FirstAmong(checks, check, ctx)
    ensures i < |checks| && checks[i] == check && forall j :: 0 <= j < i ==> !checks[j].Violated(ctx)
  {
    i := 0;
    if checks[0] != check {
      var k := FirstIndex(checks[1..], check, ctx);
      i := k + 1;
      assert forall j :: 0 < j < i ==> checks[j] == checks[1..][j - 1];
    }
  }

  /** Run the registered checks in order and stop at the first one that raises. */
  method ValidateOperation(op: Operation, ctx: Context) returns (ok: bool, raised: Check)
    ensures ok == Allowed(op, ctx)
    ensures !ok ==> raised.Violated(ctx) && FirstAmong(Registry(op), raised, ctx)
  {
    var checks := Registry(op);
    raised := checks[0];
    for i := 0 to |checks|
      invariant forall j :: 0 <= j < i ==> !checks[j].Violated(ctx)
    {
      if checks[i].Violated(ctx) {
        FirstByIndex(checks, i, ctx);
        return false, checks[i];
      }
    }
    return true, raised;
  }

  function OperationFor(delta: int): Operation {
    if delta >= 0 then TokenCredit else TokenDebit
  }

  /** What the registry means for a ledger adjustment, from any balance: a debit may not leave a
      negative balance, a pending request blocks every non-zero change, and nothing else is refused. */
  lemma AdjustmentAllowedIff(ctx: Context)
    ensures Allowed(OperationFor(ctx.delta), ctx)
       <==> (ctx.delta < 0 ==> ctx.balance + ctx.delta >= 0)
            && (ctx.delta != 0 ==> !ctx.pendingTransfer && !ctx.pendingCashOut)
  {
    var checks := Registry(OperationFor(ctx.delta));
    assert checks[0] in checks && checks[1] in checks;
    assert ctx.delta < 0 ==> checks[2] in checks;
  }

  /** Which violation an adjustment is refused with: the balance first, then a pending cash-out,
      then a pending transfer. */
  lemma AdjustmentRaises(ctx: Context, raised: Check)
    requires raised.Violated(ctx) && FirstAmong(Registry(OperationFor(ctx.delta)), raised, ctx)
    ensures raised ==
      if ctx.delta < 0 && ctx.balance + ctx.delta < 0 then NegativeBalance
      else if ctx.pendingCashOut then if ctx.delta < 0 then DebitWhileCashOut else CreditWhileCashOut
      else if ctx.delta < 0 then DebitWhileTransfer else CreditWhileTransfer
  {
    var checks := Registry(OperationFor(ctx.delta));
    var i := FirstIndex(checks, raised, ctx);
    assert i > 0 ==> !checks[0].Violated(ctx);
    assert i > 1 ==> !checks[1].Violated(ctx);
  }

  lemma TransfersAndCashOutNeverAllowed(ctx: Context)
    ensures !Allowed(Transfer, ctx) && !Allowed(CashOut, ctx)
  {
    assert TransferPolicy in Registry(Transfer) && CashOutPolicy in Registry(CashOut);
  }
}
