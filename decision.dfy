/** The trade decision of `upbit_trade`: the advisory text, the account position
    and the requested price and volume select one of four outcomes. */
module Decision {
  import opened Text

  const BUY_TOKEN := "BBUUYY"
  const SELL_TOKEN := "SSEELLLL"
  const HOLD_TOKEN := "HHOOLLDD"

  /** The status labels the handler logs for buying and selling. */
  const POSSIBLE := "가능"
  const NO_CASH := "불가능:잔고부족"
  const NO_HOLDINGS := "불가능:판매수량부족"

  datatype Action = Buy | Sell | Hold | NoAction

  /** The affordability half of the buy guard: the cash balance strictly exceeds
      the requested price. */
  predicate Affordable(balance: int, price: real)
  {
    balance as real > price
  }

  /** The holdings half of the sell guard: the held amount strictly exceeds the
      requested volume. */
  predicate Sellable(amount: int, volume: real)
  {
    amount as real > volume
  }

  predicate BuyGuard(advice: string, balance: int, price: real)
  {
    Contains(advice, BUY_TOKEN) && Affordable(balance, price)
  }

  predicate SellGuard(advice: string, amount: int, volume: real)
  {
    Contains(advice, SELL_TOKEN) && Sellable(amount, volume)
  }

  /** The if/elif chain of the handler: the buy guard, then the sell guard, then
      the hold token; anything else takes no action. */
  function Decide(advice: string, balance: int, price: real, amount: int, volume: real): (a: Action)
    ensures a == Buy <==> BuyGuard(advice, balance, price)
    ensures a == Sell <==> !BuyGuard(advice, balance, price) && SellGuard(advice, amount, volume)
    ensures a == Hold <==>
      && !BuyGuard(advice, balance, price)
      && !SellGuard(advice, amount, volume)
      && Contains(advice, HOLD_TOKEN)
    ensures a == NoAction <==>
      && !BuyGuard(advice, balance, price)
      && !SellGuard(advice, amount, volume)
      && !Contains(advice, HOLD_TOKEN)
  {
    if Contains(advice, BUY_TOKEN) && balance as real > price then Buy
    else if Contains(advice, SELL_TOKEN) && amount as real > volume then Sell
    else if Contains(advice, HOLD_TOKEN) then Hold
    else NoAction
  }

  /** The `buyAble` label. */
  function BuyLabel(balance: int, price: real): (text: string)
    ensures text == POSSIBLE <==> Affordable(balance, price)
  {
    if balance as real > price then POSSIBLE else NO_CASH
  }

  /** The `sellAble` label. */
  function SellLabel(amount: int, volume: real): (text: string)
    ensures text == POSSIBLE <==> Sellable(amount, volume)
  {
    if amount as real > volume then POSSIBLE else NO_HOLDINGS
  }

  /** A reference reading of the chain: rules tried in order, the first whose
      guard holds decides, and no rule at all means no action. */
  function FirstPassing(rules: seq<(Action, bool)>): Action
  {
    if rules == [] then NoAction
    else if rules[0].1 then rules[0].0
    else FirstPassing(rules[1..])
  }

  /** The handler's chain is the priority list buy, sell, hold. */
  lemma {:induction false} DecideIsPriorityList(advice: string, balance: int, price: real, amount: int, volume: real)
    ensures Decide(advice, balance, price, amount, volume) == FirstPassing([
      (Buy, BuyGuard(advice, balance, price)),
      (Sell, SellGuard(advice, amount, volume)),
      (Hold, Contains(advice, HOLD_TOKEN))])
  {
    var rules := [
      (Buy, BuyGuard(advice, balance, price)),
      (Sell, SellGuard(advice, amount, volume)),
      (Hold, Contains(advice, HOLD_TOKEN))];
    var r1 := rules[1..];
    var r2 := r1[1..];
    assert r2[1..] == [];
    assert FirstPassing(r2) == if Contains(advice, HOLD_TOKEN) then Hold else NoAction;
    assert FirstPassing(r1) == if SellGuard(advice, amount, volume) then Sell else FirstPassing(r2);
  }

  /** When both trade guards pass, the result is a buy, wherever the two tokens
      stand in the text. */
  lemma BuyWinsOverSell(pre: string, mid: string, post: string, balance: int, price: real, amount: int, volume: real)
    requires Affordable(balance, price) && Sellable(amount, volume)
    ensures Decide(pre + SELL_TOKEN + mid + BUY_TOKEN + post, balance, price, amount, volume) == Buy
    ensures Decide(pre + BUY_TOKEN + mid + SELL_TOKEN + post, balance, price, amount, volume) == Buy
  {
    ContainsInfix(pre + SELL_TOKEN + mid, BUY_TOKEN, post);
    ContainsInfix(pre, BUY_TOKEN, mid + SELL_TOKEN + post);
    assert pre + BUY_TOKEN + (mid + SELL_TOKEN + post) == pre + BUY_TOKEN + mid + SELL_TOKEN + post;
  }

  /** A balance equal to the price does not buy, whatever the holdings; a
      holding equal to the volume does not sell, whatever the cash. */
  lemma ExactAmountsDoNotTrade(advice: string, balance: int, price: real, amount: int, volume: real)
    ensures Decide(advice, balance, balance as real, amount, volume) != Buy
    ensures Decide(advice, balance, price, amount, amount as real) != Sell
  {
  }

  /** A present token whose guard fails falls through: with the buy token alone
      and too little cash, no action is taken. */
  lemma UnaffordableBuyIsNoAction(advice: string, balance: int, price: real, amount: int, volume: real)
    requires Contains(advice, BUY_TOKEN) && !Affordable(balance, price)
    requires !Contains(advice, SELL_TOKEN) && !Contains(advice, HOLD_TOKEN)
    ensures Decide(advice, balance, price, amount, volume) == NoAction
  {
  }

  /** More cash never withdraws a buy. */
  lemma MoreCashKeepsBuy(advice: string, balance: int, richer: int, price: real, amount: int, volume: real)
    requires balance <= richer
    requires Decide(advice, balance, price, amount, volume) == Buy
    ensures Decide(advice, richer, price, amount, volume) == Buy
  {
  }

  /** The logged labels agree with the guards: for a text carrying the buy token,
      it buys exactly when `buyAble` reads POSSIBLE; for a text carrying the sell
      token and no buy token, it sells exactly when `sellAble` reads POSSIBLE. */
  lemma LabelsMatchDecision(advice: string, balance: int, price: real, amount: int, volume: real)
    ensures Contains(advice, BUY_TOKEN) ==>
      (Decide(advice, balance, price, amount, volume) == Buy <==> BuyLabel(balance, price) == POSSIBLE)
    ensures Contains(advice, SELL_TOKEN) && !Contains(advice, BUY_TOKEN) ==>
      (Decide(advice, balance, price, amount, volume) == Sell <==> SellLabel(amount, volume) == POSSIBLE)
  {
  }

  /** Every trade the chain chooses was shown as possible in the labels. */
  lemma TradeImpliesLabel(advice: string, balance: int, price: real, amount: int, volume: real)
    ensures Decide(advice, balance, price, amount, volume) == Buy ==> BuyLabel(balance, price) == POSSIBLE
    ensures Decide(advice, balance, price, amount, volume) == Sell ==> SellLabel(amount, volume) == POSSIBLE
  {
  }
}
