/**
 * Account balances under transactions and card payments, in cents. Assets are positive; the
 * balance of a card or a loan is what is owed.
 */
module Balances {
  import opened Options

  datatype Kind = Cash | Card | Loan | Investment

  datatype TxnKind = Income | Expense | Transfer

  /** market: lots times price; net worth takes it instead of an investment's balance. */
  datatype Account = Account(kind: Kind, balance: int, emanet: bool, market: int)

  datatype Transaction = Transaction(kind: TxnKind, amount: int, account: Option<nat>)

  /** Requests as they arrive; a missing or unreadable field is None. Accounts are numbered from 0. */
  datatype Op =
    | Add(txn: Option<TxnKind>, amount: Option<int>, account: Option<nat>, updateBalance: bool)
    | Pay(card: Option<nat>, amount: Option<int>, source: Option<nat>)

  // ---- The sign conventions ----

  /** The one rule for what a transaction does to its account's balance. */
  function BalanceDelta(kind: Kind, txn: TxnKind, amount: int): int {
    match (kind, txn)
    case (Cash, Income) => amount
    case (Cash, Expense) => -amount
    case (Card, Expense) => amount
    case (Card, Income) => -amount
    case (Loan, Expense) => -amount
    case _ => 0
  }

  /** The rule as the executor writes it inline. */
  function InlineDelta(kind: Kind, txn: TxnKind, amount: int): int {
    match txn
    case Income => if kind == Card then -amount else amount
    case Expense => if kind == Card then amount else -amount
    case Transfer => 0
  }

  /** The two rules agree exactly on cash, cards, transfers and loan expenses. */
  lemma InlineAgreesIff(kind: Kind, txn: TxnKind, amount: int)
    requires amount > 0
    ensures InlineDelta(kind, txn, amount) == BalanceDelta(kind, txn, amount)
      <==> kind == Cash || kind == Card || txn == Transfer || (kind == Loan && txn == Expense)
  {
  }

  /** What an account adds to the net worth seen. */
  function Worth(a: Account): int {
    match a.kind
    case Cash => a.balance
    case Card => -a.balance
    case Loan => -a.balance
    case Investment => if a.emanet then 0 else a.market
  }

  function Sum(accounts: seq<Account>, kind: Kind): int {
    if accounts == [] then 0
    else
      var last := accounts[|accounts| - 1];
      Sum(accounts[..|accounts| - 1], kind)
        + if last.kind != kind then 0 else if kind == Investment then Worth(last) else last.balance
  }

  /** Cash and investments less cards and loans. */
  function NetWorthSeen(accounts: seq<Account>): int {
    Sum(accounts, Cash) + Sum(accounts, Investment) - Sum(accounts, Card) - Sum(accounts, Loan)
  }

  /** One account's change moves net worth by its own. */
  lemma {:induction false} NetWorthMoves(accounts: seq<Account>, i: nat, a: Account)
    requires i < |accounts| && a.kind == accounts[i].kind
    ensures NetWorthSeen(accounts[i := a]) == NetWorthSeen(accounts) + Worth(a) - Worth(accounts[i])
  {
    var n := |accounts| - 1;
    var changed := accounts[i := a];
    if i == n {
      assert changed[..n] == accounts[..n];
    } else {
      assert changed[..n] == accounts[..n][i := a];
      NetWorthMoves(accounts[..n], i, a);
    }
  }

  /** Assets count for, debts against; of an investment the price counts, unless it is held in trust. */
  lemma NetWorthCounts(accounts: seq<Account>, i: nat, balance: int, market: int)
    requires i < |accounts|
    ensures var a := accounts[i];
            NetWorthSeen(accounts[i := a.(balance := balance, market := market)]) - NetWorthSeen(accounts)
              == match a.kind
                 case Cash => balance - a.balance
                 case Card => a.balance - balance
                 case Loan => a.balance - balance
                 case Investment => if a.emanet then 0 else market - a.market
  {
    hide NetWorthSeen;
    NetWorthMoves(accounts, i, accounts[i].(balance := balance, market := market));
  }

  // ---- The operations ----

  predicate Usable(accounts: seq<Account>, account: Option<nat>) {
    account.Some? ==> account.value < |accounts| && !accounts[account.value].emanet
  }

  predicate AddOk(accounts: seq<Account>, op: Op) {
    op.Add? && op.txn.Some? && op.amount.Some? && op.amount.value > 0 && Usable(accounts, op.account)
  }

  /** The first cash account that is not held in trust. */
  function DefaultCash(accounts: seq<Account>, i: nat): (r: Option<nat>)
    requires i <= |accounts|
    ensures r.Some? ==> r.value < |accounts| && accounts[r.value].kind == Cash && !accounts[r.value].emanet
    ensures r.Some? ==> i <= r.value && forall j :: i <= j < r.value ==> accounts[j].kind != Cash || accounts[j].emanet
    ensures r.None? ==> forall j :: i <= j < |accounts| ==> accounts[j].kind != Cash || accounts[j].emanet
    decreases |accounts| - i
  {
    if i == |accounts| then None
    else if accounts[i].kind == Cash && !accounts[i].emanet then Some(i)
    else DefaultCash(accounts, i + 1)
  }

  /** Where the money for a card payment comes from: the account named, of any kind, or the default one. */
  function SourceOf(accounts: seq<Account>, source: Option<nat>): (r: Option<nat>)
    ensures r.Some? ==> r.value < |accounts|
    ensures source.None? && r.Some? ==> accounts[r.value].kind == Cash && !accounts[r.value].emanet
  {
    match source
    case Some(i) => if i < |accounts| then Some(i) else None
    case None => DefaultCash(accounts, 0)
  }

  predicate PayOk(accounts: seq<Account>, op: Op) {
    && op.Pay? && op.card.Some? && op.amount.Some? && op.amount.value > 0
    && op.card.value < |accounts| && accounts[op.card.value].kind == Card
    && SourceOf(accounts, op.source).Some?
  }

  function Changed(accounts: seq<Account>, i: nat, change: int): (r: seq<Account>)
    requires i < |accounts|
    ensures |r| == |accounts|
    ensures forall j :: 0 <= j < |r| ==>
      r[j] == if j == i then accounts[j].(balance := accounts[j].balance + change) else accounts[j]
  {
    accounts[i := accounts[i].(balance := accounts[i].balance + change)]
  }

  function Apply(accounts: seq<Account>, op: Op): (r: seq<Account>)
    ensures |r| == |accounts|
  {
    if AddOk(accounts, op) && op.updateBalance && op.account.Some? then
      var i := op.account.value;
      Changed(accounts, i, InlineDelta(accounts[i].kind, op.txn.value, op.amount.value))
    else if PayOk(accounts, op) then
      Changed(Changed(accounts, op.card.value, -op.amount.value), SourceOf(accounts, op.source).value, -op.amount.value)
    else accounts
  }

  /** The account's balance moves by so much, and nothing else of it changes. */
  predicate Moved(before: Account, after: Account, change: int) {
    after.balance - before.balance == change && after == before.(balance := after.balance)
  }

  /** Money may be drawn from it without the account being named. */
  predicate Available(a: Account) {
    a.kind == Cash && !a.emanet
  }

  predicate FirstAvailable(accounts: seq<Account>, i: int) {
    0 <= i < |accounts| && Available(accounts[i]) && forall j :: 0 <= j < i ==> !Available(accounts[j])
  }

  /** The amount goes off the card and off the source, off both at once if they are one account. */
  predicate Drawn(before: seq<Account>, after: seq<Account>, card: int, from: int, amount: int) {
    |after| == |before| && forall i :: 0 <= i < |after| ==>
      Moved(before[i], after[i], -amount * ((if i == card then 1 else 0) + if i == from then 1 else 0))
  }

  datatype Reply = Success | Refused

  class Bank {
    var accounts: seq<Account>
    var transactions: seq<Transaction>

    constructor (opening: seq<Account>)
      ensures accounts == opening && transactions == []
    {
      accounts, transactions := opening, [];
    }

    method AddTransaction(txn: Option<TxnKind>, amount: Option<int>, account: Option<nat>, updateBalance: bool)
      returns (reply: Reply)
      modifies this
      ensures accounts == Apply(old(accounts), Add(txn, amount, account, updateBalance))
      ensures reply == Success <==> AddOk(old(accounts), Add(txn, amount, account, updateBalance))
      ensures transactions == old(transactions)
        + if reply == Success then [Transaction(txn.value, amount.value, account)] else []
      ensures reply == Success <==>
        && txn.Some? && amount.Some? && amount.value > 0
        && (account.None? || (account.value < |old(accounts)| && !old(accounts)[account.value].emanet))
      ensures |accounts| == |old(accounts)|
      ensures forall i :: 0 <= i < |accounts| ==>
        if reply == Success && updateBalance && account == Some(i) && txn.value != Transfer then
          var up := (txn.value == Income) != (old(accounts)[i].kind == Card);
          Moved(old(accounts)[i], accounts[i], if up then amount.value else -amount.value)
        else accounts[i] == old(accounts)[i]
    {
      if txn.None? || amount.None? || amount.value <= 0 {
        return Refused;
      }
      if account.Some? {
        if account.value >= |accounts| || accounts[account.value].emanet {
          return Refused;
        }
      }
      transactions := transactions + [Transaction(txn.value, amount.value, account)];
      if updateBalance && account.Some? {
        var a := accounts[account.value];
        if txn.value == Income {
          if a.kind == Card {
            a := a.(balance := a.balance - amount.value);
          } else {
            a := a.(balance := a.balance + amount.value);
          }
        } else if txn.value == Expense {
          if a.kind == Card {
            a := a.(balance := a.balance + amount.value);
          } else {
            a := a.(balance := a.balance - amount.value);
          }
        }
        accounts := accounts[account.value := a];
      }
      return Success;
    }

    method PayCreditCard(card: Option<nat>, amount: Option<int>, source: Option<nat>) returns (reply: Reply)
      modifies this`accounts
      ensures accounts == Apply(old(accounts), Pay(card, amount, source))
      ensures reply == Success <==> PayOk(old(accounts), Pay(card, amount, source))
      ensures reply == Success <==>
        && card.Some? && card.value < |old(accounts)| && old(accounts)[card.value].kind == Card
        && amount.Some? && amount.value > 0
        && (if source.Some? then source.value < |old(accounts)|
            else exists i :: 0 <= i < |old(accounts)| && Available(old(accounts)[i]))
      ensures reply == Refused ==> accounts == old(accounts)
      ensures reply == Success && source.Some? ==>
        Drawn(old(accounts), accounts, card.value, source.value, amount.value)
      ensures reply == Success && source.None? ==>
        exists from :: FirstAvailable(old(accounts), from)
          && Drawn(old(accounts), accounts, card.value, from, amount.value)
    {
      if card.None? || amount.None? || amount.value <= 0 {
        return Refused;
      }
      if card.value >= |accounts| || accounts[card.value].kind != Card {
        return Refused;
      }
      var from := SourceOf(accounts, source);
      if from.None? {
        return Refused;
      }
      accounts := Changed(accounts, card.value, -amount.value);
      accounts := Changed(accounts, from.value, -amount.value);
      assert Drawn(old(accounts), accounts, card.value, from.value, amount.value);
      assert source.None? ==> FirstAvailable(old(accounts), from.value);
      return Success;
    }
  }

  // ---- Over whole runs ----

  function Run(accounts: seq<Account>, ops: seq<Op>): (r: seq<Account>)
    ensures |r| == |accounts|
  {
    if ops == [] then accounts else Apply(Run(accounts, ops[..|ops| - 1]), ops[|ops| - 1])
  }

  /** Everything but the balances. */
  predicate SameShape(a: seq<Account>, b: seq<Account>) {
    |a| == |b| && forall i :: 0 <= i < |a| ==>
      a[i].kind == b[i].kind && a[i].emanet == b[i].emanet && a[i].market == b[i].market
  }

  lemma {:induction false} ShapeFixesDefault(a: seq<Account>, b: seq<Account>, i: nat)
    requires SameShape(a, b) && i <= |a|
    ensures DefaultCash(a, i) == DefaultCash(b, i)
    decreases |a| - i
  {
    if i < |a| {
      ShapeFixesDefault(a, b, i + 1);
    }
  }

  lemma {:induction false} RunKeepsShape(accounts: seq<Account>, ops: seq<Op>)
    ensures SameShape(accounts, Run(accounts, ops))
  {
    hide InlineDelta, DefaultCash;
    if ops != [] {
      RunKeepsShape(accounts, ops[..|ops| - 1]);
    }
  }

  /** What one request adds to account i, read off the opening accounts alone. */
  function Leg(opening: seq<Account>, op: Op, i: nat): int
    requires i < |opening|
  {
    if op.Add? then
      if AddOk(opening, op) && op.updateBalance && op.account == Some(i) then
        BalanceDelta(opening[i].kind, op.txn.value, op.amount.value)
      else 0
    else if PayOk(opening, op) then
      (if op.card == Some(i) then -op.amount.value else 0)
        + if SourceOf(opening, op.source) == Some(i) then -op.amount.value else 0
    else 0
  }

  function Legs(opening: seq<Account>, ops: seq<Op>, i: nat): int
    requires i < |opening|
  {
    if ops == [] then 0 else Legs(opening, ops[..|ops| - 1], i) + Leg(opening, ops[|ops| - 1], i)
  }

  lemma SameVerdict(a: seq<Account>, b: seq<Account>, op: Op)
    requires SameShape(a, b)
    ensures AddOk(a, op) == AddOk(b, op) && PayOk(a, op) == PayOk(b, op)
    ensures op.Pay? ==> SourceOf(a, op.source) == SourceOf(b, op.source)
  {
    ShapeFixesDefault(a, b, 0);
  }

  /** Over any run, a cash or card balance is its opening plus every transaction's and payment's leg. */
  lemma {:induction false} BalanceIsFold(opening: seq<Account>, ops: seq<Op>, i: nat)
    requires i < |opening| && (opening[i].kind == Cash || opening[i].kind == Card)
    ensures Run(opening, ops)[i].balance == opening[i].balance + Legs(opening, ops, i)
  {
    if ops != [] {
      var before, op := ops[..|ops| - 1], ops[|ops| - 1];
      BalanceIsFold(opening, before, i);
      RunKeepsShape(opening, before);
      OneLeg(opening, Run(opening, before), op, i);
    }
  }

  lemma OneLeg(opening: seq<Account>, now: seq<Account>, op: Op, i: nat)
    requires SameShape(opening, now) && i < |opening| && (opening[i].kind == Cash || opening[i].kind == Card)
    ensures Apply(now, op)[i].balance == now[i].balance + Leg(opening, op, i)
  {
    hide DefaultCash, SourceOf;
    SameVerdict(opening, now, op);
  }

  /** Money in less money out, for the transactions that update a balance. */
  function Flow(opening: seq<Account>, op: Op): int {
    if AddOk(opening, op) && op.updateBalance && op.account.Some? then
      match op.txn.value
      case Income => op.amount.value
      case Expense => -op.amount.value
      case Transfer => 0
    else 0
  }

  function Flows(opening: seq<Account>, ops: seq<Op>): int {
    if ops == [] then 0 else Flows(opening, ops[..|ops| - 1]) + Flow(opening, ops[|ops| - 1])
  }

  /** Transactions stay on cash and card accounts; cards are paid from cash. */
  predicate Ordinary(opening: seq<Account>, op: Op) {
    && (AddOk(opening, op) && op.account.Some? ==>
          opening[op.account.value].kind == Cash || opening[op.account.value].kind == Card)
    && (PayOk(opening, op) ==> opening[SourceOf(opening, op.source).value].kind == Cash)
  }

  /** Over any run, net worth moves by exactly incomes minus expenses; card payments do not move it. */
  lemma {:induction false} NetWorthIsFlow(opening: seq<Account>, ops: seq<Op>)
    requires forall k :: 0 <= k < |ops| ==> Ordinary(opening, ops[k])
    ensures NetWorthSeen(Run(opening, ops)) == NetWorthSeen(opening) + Flows(opening, ops)
  {
    if ops != [] {
      var before, op := ops[..|ops| - 1], ops[|ops| - 1];
      NetWorthIsFlow(opening, before);
      RunKeepsShape(opening, before);
      OneFlow(opening, Run(opening, before), op);
    }
  }

  lemma OneFlow(opening: seq<Account>, now: seq<Account>, op: Op)
    requires SameShape(opening, now) && Ordinary(opening, op)
    ensures NetWorthSeen(Apply(now, op)) == NetWorthSeen(now) + Flow(opening, op)
  {
    hide NetWorthSeen, DefaultCash, SourceOf;
    SameVerdict(opening, now, op);
    if AddOk(now, op) && op.updateBalance && op.account.Some? {
      var i := op.account.value;
      NetWorthMoves(now, i, Apply(now, op)[i]);
    } else if PayOk(now, op) {
      PaymentMoves(now, op);
    }
  }

  lemma PaymentMoves(now: seq<Account>, op: Op)
    requires PayOk(now, op)
    ensures var from := now[SourceOf(now, op.source).value].kind;
            NetWorthSeen(Apply(now, op)) - NetWorthSeen(now)
              == op.amount.value * (if from == Cash then 0 else if from == Investment then 1 else 2)
  {
    hide NetWorthSeen, DefaultCash, SourceOf;
    var c, s, amount := op.card.value, SourceOf(now, op.source).value, op.amount.value;
    var paid := Changed(now, c, -amount);
    NetWorthMoves(now, c, paid[c]);
    NetWorthMoves(paid, s, Changed(paid, s, -amount)[s]);
  }

  /** A card payment leaves net worth alone exactly when it is drawn on a cash account. */
  lemma PaymentNeutralIff(now: seq<Account>, op: Op)
    requires PayOk(now, op)
    ensures NetWorthSeen(Apply(now, op)) == NetWorthSeen(now) <==> now[SourceOf(now, op.source).value].kind == Cash
  {
    PaymentMoves(now, op);
  }

  /** A transaction that updates a balance moves net worth by its own flow exactly on cash and card accounts. */
  lemma TransactionFlowsIff(now: seq<Account>, op: Op)
    requires AddOk(now, op) && op.updateBalance && op.account.Some? && op.txn.value != Transfer
    ensures NetWorthSeen(Apply(now, op)) == NetWorthSeen(now) + Flow(now, op)
      <==> now[op.account.value].kind == Cash || now[op.account.value].kind == Card
  {
    hide NetWorthSeen;
    var i := op.account.value;
    NetWorthMoves(now, i, Apply(now, op)[i]);
  }
}
